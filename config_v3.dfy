/**
 * STN-botv3/config.py: the configuration object read from the environment with
 * its defaults, and its validity check. The `.env` loader is EnvFile.
 */
module ConfigV3 {
  import opened Text

  datatype Config = Config(pageToken: string, googleScriptUrl: string, appTitle: string, debug: bool, dbPath: string)

  function Getenv(env: map<string, string>, key: string, default: string): string {
    if key in env then env[key] else default
  }

  /** `Config()`. */
  function LoadConfig(env: map<string, string>): Config {
    Config(Getenv(env, "PAGE_TOKEN", ""), Getenv(env, "GOOGLE_SCRIPT_URL", ""), Getenv(env, "APP_TITLE", "STN-bot v3"),
           Lower(Getenv(env, "DEBUG", "false")) == "true", Getenv(env, "DB_PATH", "data/stn_bot.db"))
  }

  /** `Config.is_valid()`. */
  predicate IsValid(c: Config) {
    c.pageToken != [] && c.googleScriptUrl != []
  }

  /** With nothing set, every field takes its default and the configuration is invalid. */
  lemma DefaultsWhenUnset(env: map<string, string>)
    requires forall k :: k in ["PAGE_TOKEN", "GOOGLE_SCRIPT_URL", "APP_TITLE", "DEBUG", "DB_PATH"] ==> k !in env
    ensures LoadConfig(env) == Config("", "", "STN-bot v3", false, "data/stn_bot.db")
    ensures !IsValid(LoadConfig(env))
  {
    assert "PAGE_TOKEN" in ["PAGE_TOKEN", "GOOGLE_SCRIPT_URL", "APP_TITLE", "DEBUG", "DB_PATH"];
    assert "GOOGLE_SCRIPT_URL" in ["PAGE_TOKEN", "GOOGLE_SCRIPT_URL", "APP_TITLE", "DEBUG", "DB_PATH"];
    assert "APP_TITLE" in ["PAGE_TOKEN", "GOOGLE_SCRIPT_URL", "APP_TITLE", "DEBUG", "DB_PATH"];
    assert "DEBUG" in ["PAGE_TOKEN", "GOOGLE_SCRIPT_URL", "APP_TITLE", "DEBUG", "DB_PATH"];
    assert "DB_PATH" in ["PAGE_TOKEN", "GOOGLE_SCRIPT_URL", "APP_TITLE", "DEBUG", "DB_PATH"];
    assert Lower("false") == "false";
  }

  /** The configuration is valid exactly when both tokens are set to non-empty values;
      debug is on exactly when DEBUG lower-cases to "true". */
  lemma ValidIffTokensSet(env: map<string, string>)
    ensures IsValid(LoadConfig(env)) <==>
      "PAGE_TOKEN" in env && env["PAGE_TOKEN"] != [] && "GOOGLE_SCRIPT_URL" in env && env["GOOGLE_SCRIPT_URL"] != []
    ensures LoadConfig(env).debug <==> "DEBUG" in env && Lower(env["DEBUG"]) == "true"
  {
    assert Lower("false") == "false";
  }
}
