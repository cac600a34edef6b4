/**
 * STN-botv2/config/settings.py: the settings object read from the environment,
 * the check that refuses a missing required variable, the configuration
 * validation, and the application constants (the Google Form URL template and
 * the default reminder template).
 */
module SettingsV2 {
  import opened Wrappers
  import opened Text

  /** `AppConstants.GOOGLE_FORM_URL_TEMPLATE`. */
  const GoogleFormUrlTemplate: string := "https://docs.google.com/forms/d/{form_id}/viewform"

  /** The text of `AppConstants.DEFAULT_REMINDER_TEMPLATE` around its four placeholders. */
  const ReminderPart0: string := "Hello "
  const ReminderPart1: string := ",\n\nPetit rappel pour remplir le formulaire *"
  const ReminderPart2: string := "*, diffusé le "
  const ReminderPart3: string := ".\n\nLien du formulaire 👉👉 "
  const ReminderPart4: string := "\n\nBien à toi,\nLa bise Santana"

  /** `AppConstants.DEFAULT_REMINDER_TEMPLATE`. */
  const DefaultReminderTemplate: string :=
    ReminderPart0 + ("{name}" + (ReminderPart1 + ("{form_name}" + (ReminderPart2 + ("{date_envoi}" +
    (ReminderPart3 + ("{form_url}" + ReminderPart4)))))))

  datatype Settings = Settings(appTitle: string, appIcon: string, debugMode: bool, pageToken: string, googleAppScriptUrl: string)

  /** `os.getenv(key, default)`. */
  function Getenv(env: map<string, string>, key: string, default: string): string {
    if key in env then env[key] else default
  }

  /** `_get_required_env(key)`: the variable's value, or None where the source raises ValueError. */
  function GetRequiredEnv(env: map<string, string>, key: string): (r: Option<string>)
    ensures r.None? <==> key !in env || env[key] == []
    ensures r.Some? ==> r.value != [] && r.value == env[key]
  {
    if key in env && env[key] != [] then Some(env[key]) else None
  }

  /** `os.getenv(key, "false").lower() == "true"`. */
  predicate Flag(env: map<string, string>, key: string) {
    Lower(Getenv(env, key, "false")) == "true"
  }

  /** `Settings()`: None where the constructor raises because a required variable is missing. */
  function LoadSettings(env: map<string, string>): Option<Settings> {
    var token := GetRequiredEnv(env, "PAGE_TOKEN");
    if token.None? then None
    else
      var url := GetRequiredEnv(env, "GOOGLE_APP_SCRIPT_URL");
      if url.None? then None
      else Some(Settings(Getenv(env, "APP_TITLE", "STN-bot v2"), Getenv(env, "APP_ICON", "🔔"),
                         Flag(env, "DEBUG_MODE"), token.value, url.value))
  }

  /** `validate_configuration()`. */
  predicate ValidateConfiguration(settings: Option<Settings>) {
    settings.Some? && settings.value.pageToken != [] && settings.value.googleAppScriptUrl != []
  }

  /** Settings are built exactly when both required variables are set and non-empty,
      and every settings object so built passes validation; debug mode is off unless
      DEBUG_MODE is set. */
  lemma SettingsLoadIffRequiredPresent(env: map<string, string>)
    ensures LoadSettings(env).Some? <==>
      ("PAGE_TOKEN" in env && env["PAGE_TOKEN"] != [] && "GOOGLE_APP_SCRIPT_URL" in env && env["GOOGLE_APP_SCRIPT_URL"] != [])
    ensures ValidateConfiguration(LoadSettings(env)) <==> LoadSettings(env).Some?
    ensures LoadSettings(env).Some? && "DEBUG_MODE" !in env ==> !LoadSettings(env).value.debugMode
  {
    assert Lower("false") == "false";
  }

  /** The form URL template with an id filled in is the viewform address of that id. */
  lemma FormUrlTemplateFills(id: string)
    ensures Format(GoogleFormUrlTemplate, map["form_id" := id]) == Formatted("https://docs.google.com/forms/d/" + id + "/viewform")
  {
    var pre, post := "https://docs.google.com/forms/d/", "/viewform";
    var vars := map["form_id" := id];
    assert Format(pre + ("{" + "form_id" + "}" + post), vars) == Formatted(pre + (id + post)) by {
      assert "form_id"[0] == 'f';
      FormatOneField(pre, "form_id", post, vars);
    }
    assert GoogleFormUrlTemplate == pre + ("{" + "form_id" + "}" + post);
    assert pre + (id + post) == pre + id + post;
  }
}
