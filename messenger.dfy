/**
 * STN-botv2/services/messenger_service.py: the Messenger sender. The Graph API call
 * is an oracle giving each send's transport outcome; the clock is a parameter.
 * The service keeps the session's send history, bounded by trimming, and the time
 * of its last send for pacing.
 */
module Messenger {
  import opened Wrappers
  import opened Text
  import opened Seqs
  import opened ModelsV2
  import SettingsV2

  // ----- dates -----

  /** The decimal digit of `n`. */
  function DigitChar(n: int): char
    requires 0 <= n < 10
  {
    ('0' as int + n) as char
  }

  predicate IsDigit(c: char) {
    '0' <= c <= '9'
  }

  /** `n` written with exactly `width` digits, zero-padded on the left. */
  function Digits(n: int, width: nat): (s: string)
    decreases width
    ensures |s| == width
    ensures forall i :: 0 <= i < |s| ==> IsDigit(s[i])
  {
    if width == 0 then [] else Digits(n / 10, width - 1) + [DigitChar(n % 10)]
  }

  /** The proleptic Gregorian (year, month, day) of a count of days since 1970-01-01. */
  function CivilFromDays(days: int): (int, int, int) {
    var z := days + 719468;
    var era := z / 146097;
    var doe := z - era * 146097;
    var yoe := (doe - doe / 1460 + doe / 36524 - doe / 146096) / 365;
    var doy := doe - (365 * yoe + yoe / 4 - yoe / 100);
    var mp := (5 * doy + 2) / 153;
    var d := doy - (153 * mp + 2) / 5 + 1;
    var m := if mp < 10 then mp + 3 else mp - 9;
    (yoe + era * 400 + (if m <= 2 then 1 else 0), m, d)
  }

  /** `date.strftime("%d/%m/%Y")` of a timestamp in seconds. */
  function DateText(t: int): (s: string)
    ensures |s| == 10 && s[2] == '/' && s[5] == '/'
    ensures forall i :: 0 <= i < 10 && i != 2 && i != 5 ==> IsDigit(s[i])
  {
    var ymd := CivilFromDays(t / 86400);
    Digits(ymd.2, 2) + "/" + Digits(ymd.1, 2) + "/" + Digits(ymd.0, 4)
  }

  /** 1970-01-01 is day 0. */
  lemma CivilEpoch()
    ensures CivilFromDays(0) == (1970, 1, 1)
  {
    var z := 719468;
    assert z / 146097 == 4;
    var doe := z - 4 * 146097;
    assert doe == 135080;
    assert (doe - doe / 1460 + doe / 36524 - doe / 146096) / 365 == 369;
    var doy := doe - (365 * 369 + 369 / 4 - 369 / 100);
    assert doy == 306;
    assert (5 * doy + 2) / 153 == 10;
    assert doy - (153 * 10 + 2) / 5 + 1 == 1;
  }

  /** 2024-02-29 is day 19782. */
  lemma CivilLeapDay()
    ensures CivilFromDays(19782) == (2024, 2, 29)
  {
    var z := 19782 + 719468;
    assert z / 146097 == 5;
    var doe := z - 5 * 146097;
    assert doe == 8765;
    assert (doe - doe / 1460 + doe / 36524 - doe / 146096) / 365 == 23;
    var doy := doe - (365 * 23 + 23 / 4 - 23 / 100);
    assert doy == 365;
    assert (5 * doy + 2) / 153 == 11;
    assert doy - (153 * 11 + 2) / 5 + 1 == 29;
  }

  /** The date text at the epoch. */
  lemma DateTextEpoch()
    ensures DateText(0) == "01/01/1970"
  {
    CivilEpoch();
    assert 0 / 86400 == 0;
    assert Digits(1, 2) == "01";
    assert Digits(19, 2) == "19";
    assert Digits(1970, 4) == Digits(197, 3) + ['0'];
    assert Digits(197, 3) == Digits(19, 2) + ['7'];
  }

  /** The date text on a leap day, at its last second. */
  lemma DateTextLeapDay()
    ensures DateText(1709164800 + 86399) == "29/02/2024"
  {
    CivilLeapDay();
    assert (1709164800 + 86399) / 86400 == 19782;
    assert Digits(29, 2) == "29";
    assert Digits(2, 2) == "02";
    assert Digits(2024, 4) == "2024";
  }

  // ----- reminder text -----

  const NameFallback: string := "Cher/Chère participant(e)"
  const DateFallback: string := "récemment"

  /** The `variables` of `build_reminder_message`. */
  function ReminderVars(person: Person, form: Form): map<string, string> {
    map["name" := if person.name != [] then person.name else NameFallback,
        "form_name" := form.name,
        "form_url" := FormUrl(form),
        "date_envoi" := if form.dateEnvoi.Some? then DateText(form.dateEnvoi.value) else DateFallback]
  }

  /** The simple text sent when the template names a variable that does not exist. */
  function FallbackText(person: Person, form: Form): string {
    "Hello " + person.name + ",\n\nRappel pour remplir le formulaire " + form.name + ".\n\nLien: " + FormUrl(form)
  }

  /** `template.format(**vars)`, or `fallback` where it raises KeyError; None where
      `format` raises something else (a stray brace, a positional field) or uses field
      syntax this model does not interpret, which escapes to the caller. */
  function FillTemplate(template: string, vars: map<string, string>, fallback: string): Option<string> {
    match Format(template, vars)
    case Formatted(text) => Some(text)
    case KeyMissing(_) => Some(fallback)
    case _ => None
  }

  /** The custom template when it is a non-empty string, else the default one. */
  function ChosenTemplate(customTemplate: Option<string>): string {
    if customTemplate.Some? && customTemplate.value != [] then customTemplate.value
    else SettingsV2.DefaultReminderTemplate
  }

  /** `build_reminder_message(person, form, custom_template)`. */
  function BuildReminderMessage(person: Person, form: Form, customTemplate: Option<string>): Option<string> {
    FillTemplate(ChosenTemplate(customTemplate), ReminderVars(person, form), FallbackText(person, form))
  }

  /** No brace in the text. */
  predicate BraceFree(s: string) {
    forall i :: 0 <= i < |s| ==> s[i] != '{' && s[i] != '}'
  }

  /** A keyword placeholder name: non-empty, not a number, no field syntax. */
  predicate PlainKey(key: string) {
    key != [] &&
    (forall i :: 0 <= i < |key| ==> NameChar(key[i])) &&
    (exists i :: 0 <= i < |key| && !('0' <= key[i] <= '9'))
  }

  /** The placeholder `{key}`. */
  function Field(key: string): string {
    "{" + key + "}"
  }

  /** A brace-free text is formatted to itself. */
  lemma TemplateVerbatim(t: string, vars: map<string, string>, fallback: string)
    requires BraceFree(t)
    ensures FillTemplate(t, vars, fallback) == Some(t)
  {
    FormatLiteral(t, [], vars);
    assert t + [] == t;
  }

  /** A template whose first placeholder names a missing variable gives the fallback,
      whatever attribute, index, conversion or format spec follows the name. */
  lemma UnknownFieldFallsBack(pre: string, key: string, suffix: string, post: string, vars: map<string, string>, fallback: string)
    requires BraceFree(pre) && PlainKey(key) && key !in vars
    requires BraceFree(suffix) && (suffix == [] || StartsFieldSyntax(suffix[0])) && ConversionParses(key + suffix)
    ensures FillTemplate(pre + Field(key + suffix) + post, vars, fallback) == Some(fallback)
  {
    var ph := "{" + (key + suffix) + "}" + post;
    assert Format(ph, vars) == KeyMissing(key) by {
      FormatUnknownField(key, suffix, post, vars);
    }
    assert Format(pre + ph, vars) == KeyMissing(key) by {
      FormatLiteral(pre, ph, vars);
    }
    assert pre + Field(key + suffix) + post == pre + ph;
  }

  /** A known placeholder written with `!s` or an empty format spec is filled like a plain
      one. */
  lemma VerbatimFieldFilled(pre: string, key: string, suffix: string, post: string, vars: map<string, string>, fallback: string)
    requires BraceFree(pre) && BraceFree(post) && PlainKey(key) && key in vars
    requires suffix == "" || suffix == "!s" || suffix == ":" || suffix == "!s:"
    ensures FillTemplate(pre + Field(key + suffix) + post, vars, fallback) == Some(pre + vars[key] + post)
  {
    var ph := "{" + (key + suffix) + "}" + post;
    assert Format(post, vars) == Formatted(post) by {
      FormatLiteral(post, [], vars);
      assert post + [] == post;
    }
    assert Format(ph, vars) == Formatted(vars[key] + post) by {
      FormatVerbatimField(key, suffix, post, vars);
    }
    assert Format(pre + ph, vars) == Formatted(pre + (vars[key] + post)) by {
      FormatLiteral(pre, ph, vars);
    }
    assert pre + Field(key + suffix) + post == pre + ph;
    assert pre + (vars[key] + post) == pre + vars[key] + post;
  }

  /** One placeholder followed by literal text and the rest of a template. */
  lemma FieldThenText(key: string, lit: string, rest: string, vars: map<string, string>)
    requires PlainKey(key) && key in vars && BraceFree(lit)
    ensures Format(Field(key) + (lit + rest), vars) == Prefixed(vars[key] + lit, Format(rest, vars))
  {
    FormatField(key, lit + rest, vars);
    assert Field(key) + (lit + rest) == "{" + key + "}" + (lit + rest);
    FormatLiteral(lit, rest, vars);
    match Format(rest, vars)
    case Formatted(x) => assert vars[key] + (lit + x) == vars[key] + lit + x;
    case _ =>
  }

  /** Formatting literal text around four placeholders whose variables exist. */
  lemma FormatFourFields(p0: string, k1: string, p1: string, k2: string, p2: string, k3: string, p3: string,
                         k4: string, p4: string, vars: map<string, string>)
    requires BraceFree(p0) && BraceFree(p1) && BraceFree(p2) && BraceFree(p3) && BraceFree(p4)
    requires PlainKey(k1) && PlainKey(k2) && PlainKey(k3) && PlainKey(k4)
    requires k1 in vars && k2 in vars && k3 in vars && k4 in vars
    ensures Format(p0 + (Field(k1) + (p1 + (Field(k2) + (p2 + (Field(k3) + (p3 + (Field(k4) + p4))))))), vars) ==
      Formatted(p0 + ((vars[k1] + p1) + ((vars[k2] + p2) + ((vars[k3] + p3) + (vars[k4] + p4)))))
  {
    var t4 := Field(k4) + p4;
    assert t4 == Field(k4) + (p4 + []);
    FieldThenText(k4, p4, [], vars);
    FormatLiteral([], [], vars);
    assert Format(t4, vars) == Formatted(vars[k4] + p4 + []);
    assert vars[k4] + p4 + [] == vars[k4] + p4;
    FieldThenText(k3, p3, t4, vars);
    var t3 := Field(k3) + (p3 + t4);
    FieldThenText(k2, p2, t3, vars);
    var t2 := Field(k2) + (p2 + t3);
    FieldThenText(k1, p1, t2, vars);
    var t1 := Field(k1) + (p1 + t2);
    FormatLiteral(p0, t1, vars);
  }

  /** The default template is its literal parts around the four placeholders. */
  lemma DefaultTemplateParts()
    ensures SettingsV2.DefaultReminderTemplate ==
      SettingsV2.ReminderPart0 + (Field("name") + (SettingsV2.ReminderPart1 + (Field("form_name") + (SettingsV2.ReminderPart2 +
      (Field("date_envoi") + (SettingsV2.ReminderPart3 + (Field("form_url") + SettingsV2.ReminderPart4)))))))
    ensures PlainKey("name") && PlainKey("form_name") && PlainKey("date_envoi") && PlainKey("form_url")
  {
    assert Field("name") == "{name}";
    assert Field("form_name") == "{form_name}";
    assert Field("date_envoi") == "{date_envoi}";
    assert Field("form_url") == "{form_url}";
    assert "name"[0] == 'n' && "form_name"[0] == 'f' && "date_envoi"[0] == 'd' && "form_url"[0] == 'f';
  }

  /** The default template's literal parts hold no brace. */
  lemma DefaultPartsBraceFree()
    ensures BraceFree(SettingsV2.ReminderPart0) && BraceFree(SettingsV2.ReminderPart1) && BraceFree(SettingsV2.ReminderPart2)
    ensures BraceFree(SettingsV2.ReminderPart3) && BraceFree(SettingsV2.ReminderPart4)
  {
  }

  /** The variables a reminder template can use. */
  lemma ReminderVarsKeys(person: Person, form: Form)
    ensures ReminderVars(person, form).Keys == {"name", "form_name", "form_url", "date_envoi"}
  {
  }

  /** The `name` variable is the person's name, or the fallback greeting. */
  lemma ReminderVarsName(person: Person, form: Form)
    ensures "name" in ReminderVars(person, form)
    ensures ReminderVars(person, form)["name"] == if person.name != [] then person.name else NameFallback
  {
  }

  /** Without a custom template (or with an empty one), the reminder is the default text
      with the person's name (or the fallback greeting), the form's name, its date as
      DD/MM/YYYY (or "récemment") and its link. */
  lemma DefaultReminderText(person: Person, form: Form, customTemplate: Option<string>)
    requires customTemplate.None? || customTemplate.value == []
    ensures var vars := ReminderVars(person, form);
      BuildReminderMessage(person, form, customTemplate) ==
        Some(SettingsV2.ReminderPart0 + ((vars["name"] + SettingsV2.ReminderPart1) + ((form.name + SettingsV2.ReminderPart2) +
             ((vars["date_envoi"] + SettingsV2.ReminderPart3) + (FormUrl(form) + SettingsV2.ReminderPart4)))))
    ensures person.name == [] ==> ReminderVars(person, form)["name"] == NameFallback
    ensures form.dateEnvoi.None? ==> ReminderVars(person, form)["date_envoi"] == DateFallback
  {
    ReminderVarsKeys(person, form);
    DefaultTemplateFormats(ReminderVars(person, form));
  }

  /** The default template formats to its literal parts around the four variables. */
  lemma DefaultTemplateFormats(vars: map<string, string>)
    requires "name" in vars && "form_name" in vars && "date_envoi" in vars && "form_url" in vars
    ensures Format(SettingsV2.DefaultReminderTemplate, vars) ==
      Formatted(SettingsV2.ReminderPart0 + ((vars["name"] + SettingsV2.ReminderPart1) + ((vars["form_name"] + SettingsV2.ReminderPart2) +
                ((vars["date_envoi"] + SettingsV2.ReminderPart3) + (vars["form_url"] + SettingsV2.ReminderPart4)))))
  {
    DefaultTemplateParts();
    DefaultPartsBraceFree();
    FormatFourFields(SettingsV2.ReminderPart0, "name", SettingsV2.ReminderPart1, "form_name", SettingsV2.ReminderPart2,
                     "date_envoi", SettingsV2.ReminderPart3, "form_url", SettingsV2.ReminderPart4, vars);
  }

  /** A non-empty custom template without braces is sent as it is. */
  lemma CustomTemplateVerbatim(person: Person, form: Form, custom: string)
    requires custom != [] && BraceFree(custom)
    ensures BuildReminderMessage(person, form, Some(custom)) == Some(custom)
  {
    TemplateVerbatim(custom, ReminderVars(person, form), FallbackText(person, form));
  }

  /** A custom template whose first placeholder is not one of the four variables gives
      the fallback text instead of failing. */
  lemma UnknownPlaceholderFallsBack(person: Person, form: Form, pre: string, key: string, suffix: string, post: string)
    requires BraceFree(pre) && PlainKey(key)
    requires key !in {"name", "form_name", "form_url", "date_envoi"}
    requires BraceFree(suffix) && (suffix == [] || StartsFieldSyntax(suffix[0])) && ConversionParses(key + suffix)
    ensures BuildReminderMessage(person, form, Some(pre + Field(key + suffix) + post)) == Some(FallbackText(person, form))
  {
    ReminderVarsKeys(person, form);
    var t := pre + Field(key + suffix) + post;
    assert |t| > 0;
    UnknownFieldFallsBack(pre, key, suffix, post, ReminderVars(person, form), FallbackText(person, form));
  }

  /** A custom template that greets with `{name!s}` (or `{name}`, `{name:}`) is sent with
      the person's name in place, as Python formats it. */
  lemma NameConvertedFilled(person: Person, form: Form, pre: string, suffix: string, post: string)
    requires BraceFree(pre) && BraceFree(post)
    requires suffix == "" || suffix == "!s" || suffix == ":" || suffix == "!s:"
    ensures BuildReminderMessage(person, form, Some(pre + Field("name" + suffix) + post)) ==
      Some(pre + (if person.name != [] then person.name else NameFallback) + post)
  {
    var vars := ReminderVars(person, form);
    var name := if person.name != [] then person.name else NameFallback;
    var t := pre + Field("name" + suffix) + post;
    assert ChosenTemplate(Some(t)) == t by {
      assert |t| > 0;
    }
    assert "name" in vars && vars["name"] == name by {
      ReminderVarsName(person, form);
    }
    assert FillTemplate(t, vars, FallbackText(person, form)) == Some(pre + name + post) by {
      assert PlainKey("name") by { assert "name"[0] == 'n'; }
      VerbatimFieldFilled(pre, "name", suffix, post, vars, FallbackText(person, form));
    }
  }

  // ----- psid -----

  /** `validate_psid(psid)`: at least ten characters, all of them digits. */
  predicate ValidatePsid(psid: string) {
    |psid| >= 10 && forall i :: 0 <= i < |psid| ==> IsDigit(psid[i])
  }

  /** The length bound and the digit rule, on their boundary cases. */
  lemma ValidatePsidExamples()
    ensures ValidatePsid("1234567890")
    ensures !ValidatePsid("123456789")
    ensures !ValidatePsid("12345abcde")
    ensures !ValidatePsid("")
  {
    assert "12345abcde"[5] == 'a';
  }

  /** A valid psid stays valid when more digits are appended. */
  lemma {:induction false} ValidatePsidExtend(psid: string, more: string)
    requires ValidatePsid(psid)
    requires forall i :: 0 <= i < |more| ==> IsDigit(more[i])
    ensures ValidatePsid(psid + more)
  {
    forall i | 0 <= i < |psid + more| ensures IsDigit((psid + more)[i]) {
      if i < |psid| { assert (psid + more)[i] == psid[i]; } else { assert (psid + more)[i] == more[i - |psid|]; }
    }
  }

  // ----- sends -----

  /** What the HTTP call did: a reply with a status code, or an exception. */
  datatype Transport = Http(code: int) | Timeout | NetworkFailure | OtherFailure

  datatype Status = Sent | HttpFailed(code: int) | TimedOut | NetworkError | UnexpectedError

  /** The `status` string of a send result. */
  function StatusName(s: Status): string {
    match s
    case Sent => "sent"
    case HttpFailed(_) => "failed"
    case TimedOut => "timeout"
    case NetworkError => "network_error"
    case UnexpectedError => "unexpected_error"
  }

  /** The outcome `send_message` reports for a transport result. */
  function Classify(t: Transport): (s: Status)
    ensures s == Sent <==> t == Http(200)
  {
    match t
    case Http(code) => if code == 200 then Sent else HttpFailed(code)
    case Timeout => TimedOut
    case NetworkFailure => NetworkError
    case OtherFailure => UnexpectedError
  }

  /** Each exception kind has its own status, and only a 200 reply is a success. */
  lemma ClassifyNames(code: int)
    ensures StatusName(Classify(Timeout)) == "timeout"
    ensures StatusName(Classify(NetworkFailure)) == "network_error"
    ensures StatusName(Classify(OtherFailure)) == "unexpected_error"
    ensures StatusName(Classify(Http(code))) == if code == 200 then "sent" else "failed"
  {
  }

  datatype SendResult = SendResult(success: bool, personName: string, psid: string, status: Status, timestamp: int)

  /** One message of a bulk send. */
  datatype Outgoing = Outgoing(psid: string, message: string, personName: string)

  const HistoryLimit: nat := 1000
  const HistoryKeep: nat := 900

  /** The history before an append: its last 900 entries once it holds 1000 or more. */
  function Kept(h: seq<SendResult>): (k: seq<SendResult>)
    ensures |h| < HistoryLimit ==> k == h
    ensures |h| >= HistoryLimit ==> |k| == HistoryKeep
  {
    if |h| >= HistoryLimit then h[|h| - HistoryKeep..] else h
  }

  /** `_add_to_history(entry)` as a value. */
  function Added(h: seq<SendResult>, e: SendResult): seq<SendResult> {
    Kept(h) + [e]
  }

  /** The history after the entries `es`, in order. */
  function Logged(h: seq<SendResult>, es: seq<SendResult>): seq<SendResult>
    decreases |es|
  {
    if es == [] then h else Added(Logged(h, es[..|es| - 1]), es[|es| - 1])
  }

  /** Appending keeps a suffix of the old history, puts the entry last, and never lets the
      history grow past 1000 entries. */
  lemma AddedSpec(h: seq<SendResult>, e: SendResult)
    ensures var a := Added(h, e);
      a[|a| - 1] == e && a[..|a| - 1] == h[|h| - (|a| - 1)..] &&
      (|h| <= HistoryLimit ==> |a| <= HistoryLimit)
  {
  }

  /** A bounded history stays bounded through any number of appends, and the newest entry
      is the last one. */
  lemma {:induction false} LoggedBounded(h: seq<SendResult>, es: seq<SendResult>)
    requires |h| <= HistoryLimit
    ensures |Logged(h, es)| <= HistoryLimit
    ensures es != [] ==> Logged(h, es)[|Logged(h, es)| - 1] == es[|es| - 1]
    decreases |es|
  {
    if es != [] {
      LoggedBounded(h, es[..|es| - 1]);
      AddedSpec(Logged(h, es[..|es| - 1]), es[|es| - 1]);
    }
  }

  /** `_apply_rate_limit`: the clock after waiting so that sends are at least one second apart. */
  function Paced(last: int, now: int): (t: int)
    ensures t >= now && t >= last + 1
  {
    if now - last < 1 then last + 1 else now
  }

  datatype BulkReport = BulkReport(totalMessages: nat, successful: nat, failed: nat, results: seq<SendResult>)

  /** The send of one message succeeds. */
  predicate Delivers(m: Outgoing, transport: (string, string) -> Transport) {
    transport(m.psid, m.message) == Http(200)
  }

  /** A result describes its message and the transport outcome of sending it. */
  predicate Describes(r: SendResult, m: Outgoing, transport: (string, string) -> Transport) {
    r.psid == m.psid && r.personName == m.personName &&
    r.status == Classify(transport(m.psid, m.message)) && r.success == Delivers(m, transport)
  }

  predicate Succeeded(r: SendResult) {
    r.success
  }

  datatype Statistics = Statistics(periodHours: int, totalMessages: nat, successful: nat, failed: nat)

  /** The history entries at or after the cutoff `hours` before `now`. */
  predicate Recent(e: SendResult, hours: int, now: int) {
    e.timestamp >= now - hours * 3600
  }

  class MessengerService {
    /** `st.session_state.messenger_history`. */
    var history: seq<SendResult>
    var lastMessageTime: int

    /** `__init__`: the session's history is kept, or started empty. */
    constructor(sessionHistory: Option<seq<SendResult>>)
      ensures history == sessionHistory.GetOr([]) && lastMessageTime == 0
    {
      history := sessionHistory.GetOr([]);
      lastMessageTime := 0;
    }

    /** `_add_to_history(entry)`. */
    method AddToHistory(e: SendResult)
      modifies this`history
      ensures history == Added(old(history), e)
    {
      if |history| >= HistoryLimit {
        history := history[|history| - HistoryKeep..];
      }
      history := history + [e];
    }

    /** `_apply_rate_limit()` at time `now`; returns the clock after the wait. */
    method ApplyRateLimit(now: int) returns (t: int)
      modifies this`lastMessageTime
      ensures t == lastMessageTime == Paced(old(lastMessageTime), now)
    {
      t := now;
      if now - lastMessageTime < 1 {
        t := lastMessageTime + 1;
      }
      lastMessageTime := t;
    }

    /** `send_message(psid, message, person_name)`: the outcome is classified, succeeds
        exactly on an HTTP 200 reply, and is appended to the history whatever it is. */
    method SendMessage(psid: string, message: string, personName: string, transport: Transport, now: int)
      returns (r: SendResult)
      modifies this`history, this`lastMessageTime
      ensures r.success <==> transport == Http(200)
      ensures r.status == Classify(transport) && r.psid == psid && r.personName == personName
      ensures r.timestamp == lastMessageTime == Paced(old(lastMessageTime), now)
      ensures history == Added(old(history), r)
    {
      var t := ApplyRateLimit(now);
      var status := Classify(transport);
      r := SendResult(status == Sent, personName, psid, status, t);
      AddToHistory(r);
    }

    /** `send_bulk_messages(messages)`: one result per message in order, successes and
        failures adding up to the total, and every result logged. */
    method SendBulkMessages(msgs: seq<Outgoing>, transport: (string, string) -> Transport, now: int)
      returns (report: BulkReport)
      modifies this`history, this`lastMessageTime
      ensures |report.results| == report.totalMessages == |msgs|
      ensures forall i :: 0 <= i < |msgs| ==> Describes(report.results[i], msgs[i], transport)
      ensures report.successful == Count(report.results, Succeeded)
      ensures report.successful + report.failed == report.totalMessages
      ensures history == Logged(old(history), report.results)
      ensures lastMessageTime >= old(lastMessageTime) + |msgs|
    {
      var results: seq<SendResult> := [];
      for i := 0 to |msgs|
        invariant |results| == i
        invariant forall k :: 0 <= k < i ==> Describes(results[k], msgs[k], transport)
        invariant history == Logged(old(history), results)
        invariant lastMessageTime >= old(lastMessageTime) + i
      {
        var r := SendMessage(msgs[i].psid, msgs[i].message, msgs[i].personName, transport(msgs[i].psid, msgs[i].message), now);
        assert (results + [r])[..i] == results;
        forall k | 0 <= k < i + 1 ensures Describes((results + [r])[k], msgs[k], transport) {
          if k < i { assert (results + [r])[k] == results[k]; }
        }
        results := results + [r];
      }
      var successful := Count(results, Succeeded);
      report := BulkReport(|results|, successful, |results| - successful, results);
    }

    /** `get_recent_history(hours)` at time `now`. */
    method GetRecentHistory(hours: int, now: int) returns (recent: seq<SendResult>)
      ensures recent == Filter(history, (e: SendResult) => Recent(e, hours, now))
    {
      recent := [];
      for i := 0 to |history|
        invariant recent == Filter(history[..i], (e: SendResult) => Recent(e, hours, now))
      {
        assert history[..i + 1] == history[..i] + [history[i]];
        FilterSnoc(history[..i], history[i], (e: SendResult) => Recent(e, hours, now));
        if history[i].timestamp >= now - hours * 3600 {
          recent := recent + [history[i]];
        }
      }
      assert history[..|history|] == history;
    }

    /** `get_statistics(hours)` at time `now`: successes and failures over the window add
        up to its size, all zero when the window is empty. */
    method GetStatistics(hours: int, now: int) returns (stats: Statistics)
      ensures var recent := Filter(history, (e: SendResult) => Recent(e, hours, now));
        stats.totalMessages == |recent| && stats.successful == Count(recent, Succeeded) &&
        stats.failed == stats.totalMessages - stats.successful && stats.periodHours == hours
      ensures stats.totalMessages == 0 ==> stats.successful == 0 && stats.failed == 0
    {
      var recent := GetRecentHistory(hours, now);
      if recent == [] {
        stats := Statistics(hours, 0, 0, 0);
      } else {
        var successful := Count(recent, Succeeded);
        stats := Statistics(hours, |recent|, successful, |recent| - successful);
      }
    }

    /** `clear_history()`. */
    method ClearHistory()
      modifies this`history
      ensures history == []
    {
      history := [];
    }
  }
}
