/**
 * STN-botv2/services/reminder_service.py: the v2 reminder orchestration over the
 * SQLite store with poles, the Google Forms reader and the Messenger sender. The
 * Google and Graph API calls are oracles (`fetch`, `transport`); `raised` stands for
 * an exception escaping the Google call; the clock and fresh ids are parameters.
 */
module Reminders {
  import opened Wrappers
  import opened Seqs
  import opened ModelsV2
  import opened Relations
  import PolesStore
  import GoogleForms
  import Messenger

  // ----- synchronisation -----

  /** A `form_configs` entry: the Google id, the name and the internal id of a form. */
  datatype FormConfig = FormConfig(googleId: string, name: string, internalId: string)

  datatype SyncStatus = SyncSuccess | SyncWarning | SyncError

  /** The dict `sync_all_forms` and `sync_specific_form` return. */
  datatype SyncReport = SyncReport(status: SyncStatus, formsProcessed: nat, stats: Option<PolesStore.SyncStats>)

  /** `get_active_forms()`. */
  function ActiveForms(forms: seq<Form>): seq<Form> {
    Filter(forms, (f: Form) => f.isActive)
  }

  /** The configurations built for the active forms that have a Google id, in order. */
  function Configs(forms: seq<Form>): seq<FormConfig>
    decreases |forms|
  {
    if forms == [] then []
    else
      var f := forms[|forms| - 1];
      Configs(forms[..|forms| - 1]) + (if f.googleFormId != [] then [FormConfig(f.googleFormId, f.name, f.id)] else [])
  }

  /** Every configuration is that of a listed form with a Google id, and every such form
      has one. */
  lemma {:induction false} ConfigsSpec(forms: seq<Form>)
    ensures forall c :: c in Configs(forms) ==> (c.googleId != [] &&
      exists f :: f in forms && c == FormConfig(f.googleFormId, f.name, f.id))
    ensures forall f :: f in forms && f.googleFormId != [] ==> FormConfig(f.googleFormId, f.name, f.id) in Configs(forms)
    ensures |Configs(forms)| <= |forms|
    decreases |forms|
  {
    if forms != [] {
      var init := forms[..|forms| - 1];
      ConfigsSpec(init);
      assert forms == init + [forms[|forms| - 1]];
    }
  }

  function GoogleIds(configs: seq<FormConfig>): seq<string> {
    Map(configs, (c: FormConfig) => c.googleId)
  }

  /** The tables the store's sync leaves when the Google ids of `configs` are fetched with
      `fetch`, from the tables `s` (no fresh id drawn yet). */
  function SyncedTables(forms: seq<Form>, s: PolesStore.PoleSync, configs: seq<FormConfig>,
                        fetch: string -> GoogleForms.Reply, now: int, newId: nat -> string): PolesStore.PoleSync {
    PolesStore.PolesSyncFold(forms, s, GoogleForms.Collect(GoogleIds(configs), fetch), now, newId)
  }

  /** The `sync_stats` of that sync. */
  function SyncedStats(forms: seq<Form>, s: PolesStore.PoleSync, configs: seq<FormConfig>,
                       fetch: string -> GoogleForms.Reply, now: int, newId: nat -> string): PolesStore.SyncStats {
    PolesStore.SyncTally(forms, s, GoogleForms.Collect(GoogleIds(configs), fetch), now, newId)
  }

  // ----- sending -----

  /** Why a form's result sent nothing, if it did not send. */
  datatype Note = Delivered | NothingDue | NoValidPsid

  /** A per-form entry of `reminder_results`. */
  datatype FormResult = FormResult(sent: nat, failed: nat, note: Note)

  /** The reminder text `build_reminder_message` gives each person for a form and template. */
  function Builder(form: Form, template: Option<string>): Person -> Option<string> {
    (p: Person) => Messenger.BuildReminderMessage(p, form, template)
  }

  /** The `messages_data` list of `_send_reminders_for_people_list` with the texts `build`
      gives: each person with a psid, with the id to record and the reminder to send; None
      where building a message raises. */
  function MessagesWith(people: seq<(Person, Response)>, build: Person -> Option<string>): Option<seq<(string, Messenger.Outgoing)>>
    decreases |people|
  {
    if people == [] then Some([])
    else
      var init := MessagesWith(people[..|people| - 1], build);
      var p := people[|people| - 1].0;
      if init.None? then None
      else if p.psid == [] then init
      else
        match build(p)
        case None => None
        case Some(text) => Some(init.value + [(p.id, Messenger.Outgoing(p.psid, text, p.name))])
  }

  /** The `messages_data` list for a form and template. */
  function Messages(form: Form, people: seq<(Person, Response)>, template: Option<string>): Option<seq<(string, Messenger.Outgoing)>> {
    MessagesWith(people, Builder(form, template))
  }

  predicate HasPsid(pr: (Person, Response)) {
    pr.0.psid != []
  }

  /** One message per person with a psid: people without one are dropped. */
  lemma {:induction false} MessagesLength(people: seq<(Person, Response)>, build: Person -> Option<string>)
    requires MessagesWith(people, build).Some?
    ensures |MessagesWith(people, build).value| == Count(people, HasPsid)
    decreases |people|
  {
    if people != [] {
      var init := people[..|people| - 1];
      var last := people[|people| - 1];
      MessagesLength(init, build);
      assert people == init + [last];
      FilterSnoc(init, last, HasPsid);
    }
  }

  /** Every message goes to the psid of one of the people and records that person's id. */
  lemma {:induction false} MessagesAddressed(people: seq<(Person, Response)>, build: Person -> Option<string>)
    requires MessagesWith(people, build).Some?
    ensures var ms := MessagesWith(people, build).value;
      forall i :: 0 <= i < |ms| ==> ms[i].1.psid != [] && exists pr :: pr in people && ms[i].0 == pr.0.id && ms[i].1.psid == pr.0.psid
    decreases |people|
  {
    if people != [] {
      var init := people[..|people| - 1];
      MessagesAddressed(init, build);
      forall pr | pr in init ensures pr in people { }
    }
  }

  /** When every text builds, the list of messages builds. */
  lemma {:induction false} MessagesBuilt(people: seq<(Person, Response)>, build: Person -> Option<string>)
    requires forall i :: 0 <= i < |people| ==> build(people[i].0).Some?
    ensures MessagesWith(people, build).Some?
    decreases |people|
  {
    if people != [] {
      var init := people[..|people| - 1];
      assert forall i :: 0 <= i < |init| ==> init[i] == people[i];
      MessagesBuilt(init, build);
    }
  }

  /** Everyone `get_people_needing_reminders` returns has a psid, so each of them is sent
      a message. */
  lemma DueAllMessaged(people: seq<Person>, rs: seq<Response>, form: Form, cooldownHours: int, now: int,
                       template: Option<string>)
    requires Messages(form, PolesStore.NeedingReminders(people, rs, form.id, cooldownHours, now), template).Some?
    ensures var due := PolesStore.NeedingReminders(people, rs, form.id, cooldownHours, now);
      |Messages(form, due, template).value| == |due|
  {
    var due := PolesStore.NeedingReminders(people, rs, form.id, cooldownHours, now);
    MessagesLength(due, Builder(form, template));
    forall i | 0 <= i < |due| ensures HasPsid(due[i]) {
      assert PolesStore.SqlEligible(due[i], cooldownHours, now);
    }
    FilterAll(due, HasPsid);
  }

  /** With the default template no message can fail to build. */
  lemma DefaultMessagesBuild(form: Form, people: seq<(Person, Response)>)
    ensures Messages(form, people, None).Some?
  {
    forall i | 0 <= i < |people| ensures Builder(form, None)(people[i].0).Some? {
      Messenger.DefaultReminderText(people[i].0, form, None);
    }
    MessagesBuilt(people, Builder(form, None));
  }

  /** The person ids of the messages whose send succeeded, in order. */
  function SucceededIds(ms: seq<(string, Messenger.Outgoing)>, transport: (string, string) -> Messenger.Transport): (ids: seq<string>)
    ensures |ids| <= |ms|
    ensures forall k :: 0 <= k < |ids| ==> exists i :: 0 <= i < |ms| && ids[k] == ms[i].0
    decreases |ms|
  {
    if ms == [] then []
    else
      SucceededIds(ms[..|ms| - 1], transport) +
      (if Messenger.Delivers(ms[|ms| - 1].1, transport) then [ms[|ms| - 1].0] else [])
  }

  /** The responses after `record_reminder_sent(form_id, id)` for each id in turn. */
  function RecordedFor(rs: seq<Response>, formId: string, ids: seq<string>, now: int): seq<Response>
    decreases |ids|
  {
    if ids == [] then rs
    else PolesStore.SetReminded(RecordedFor(rs, formId, ids[..|ids| - 1], now), formId, ids[|ids| - 1], now)
  }

  /** The results that report a success are exactly as many as the recorded ids. */
  lemma {:induction false} SuccessCount(ms: seq<(string, Messenger.Outgoing)>, results: seq<Messenger.SendResult>,
                                        transport: (string, string) -> Messenger.Transport)
    requires |results| == |ms|
    requires forall i :: 0 <= i < |ms| ==> results[i].success == Messenger.Delivers(ms[i].1, transport)
    ensures Count(results, Messenger.Succeeded) == |SucceededIds(ms, transport)|
    decreases |ms|
  {
    if ms != [] {
      var n := |ms| - 1;
      SuccessCount(ms[..n], results[..n], transport);
      assert results == results[..n] + [results[n]];
      FilterSnoc(results[..n], results[n], Messenger.Succeeded);
    }
  }

  /** The reminders recorded for the first `i + 1` messages. */
  lemma RecordStep(rs: seq<Response>, formId: string, ms: seq<(string, Messenger.Outgoing)>, i: nat,
                   transport: (string, string) -> Messenger.Transport, now: int)
    requires i < |ms|
    ensures RecordedFor(rs, formId, SucceededIds(ms[..i + 1], transport), now) ==
      if Messenger.Delivers(ms[i].1, transport)
      then PolesStore.SetReminded(RecordedFor(rs, formId, SucceededIds(ms[..i], transport), now), formId, ms[i].0, now)
      else RecordedFor(rs, formId, SucceededIds(ms[..i], transport), now)
  {
    assert ms[..i + 1][..i] == ms[..i];
    var ids := SucceededIds(ms[..i], transport);
    if Messenger.Delivers(ms[i].1, transport) {
      assert (ids + [ms[i].0])[..|ids|] == ids;
    } else {
      assert ids + [] == ids;
    }
  }

  /** `rs'` is `rs` with reminders recorded: the same rows, the same pairs, and the same
      answers; only the reminder columns may change. */
  predicate OnlyReminded(rs: seq<Response>, rs': seq<Response>) {
    |rs'| == |rs| &&
    forall i :: 0 <= i < |rs| ==>
      rs'[i].id == rs[i].id && rs'[i].formId == rs[i].formId && rs'[i].personId == rs[i].personId &&
      rs'[i].hasResponded == rs[i].hasResponded && rs'[i].responseDate == rs[i].responseDate &&
      rs'[i].reminderCount >= rs[i].reminderCount
  }

  /** One `record_reminder_sent` only touches the reminder columns of the form's rows. */
  lemma SetRemindedReminds(rs: seq<Response>, formId: string, personId: string, now: int)
    ensures OnlyReminded(rs, PolesStore.SetReminded(rs, formId, personId, now))
    ensures forall i :: 0 <= i < |rs| && rs[i].formId != formId ==> PolesStore.SetReminded(rs, formId, personId, now)[i] == rs[i]
  {
    var after := PolesStore.SetReminded(rs, formId, personId, now);
    assert forall i :: 0 <= i < |rs| ==>
      after[i] == (if rs[i].formId == formId && rs[i].personId == personId then ReminderRecorded(rs[i], now) else rs[i]);
  }

  /** Recording reminders for a form only touches the reminder columns of that form's rows. */
  lemma {:induction false} RecordedForReminds(rs: seq<Response>, formId: string, ids: seq<string>, now: int)
    ensures OnlyReminded(rs, RecordedFor(rs, formId, ids, now))
    ensures forall i :: 0 <= i < |rs| && rs[i].formId != formId ==> RecordedFor(rs, formId, ids, now)[i] == rs[i]
    decreases |ids|
  {
    if ids != [] {
      var before := RecordedFor(rs, formId, ids[..|ids| - 1], now);
      RecordedForReminds(rs, formId, ids[..|ids| - 1], now);
      SetRemindedReminds(before, formId, ids[|ids| - 1], now);
    }
  }

  /** What one form of the sending loop gives from the tables before it: its result and the
      responses after; None where a message fails to build, before anything is sent. */
  function FormSending(people: seq<Person>, rs: seq<Response>, form: Form, template: Option<string>, cooldownHours: int,
                       now: int, transport: (string, string) -> Messenger.Transport): Option<(FormResult, seq<Response>)> {
    var due := PolesStore.NeedingReminders(people, rs, form.id, cooldownHours, now);
    if due == [] then Some((FormResult(0, 0, NothingDue), rs))
    else
      var ms := Messages(form, due, template);
      if ms.None? then None
      else if ms.value == [] then Some((FormResult(0, 0, NoValidPsid), rs))
      else
        var ids := SucceededIds(ms.value, transport);
        Some((FormResult(|ids|, |ms.value| - |ids|, Delivered), RecordedFor(rs, form.id, ids, now)))
  }

  /** Every due person is sent exactly one message, so the sent and failed counts add up to
      the people due and "no valid psid" never happens; with nobody due nothing is counted;
      and only the reminder columns of the form's rows change. */
  lemma FormSendingSpec(people: seq<Person>, rs: seq<Response>, form: Form, template: Option<string>, cooldownHours: int,
                        now: int, transport: (string, string) -> Messenger.Transport)
    requires FormSending(people, rs, form, template, cooldownHours, now, transport).Some?
    ensures var res := FormSending(people, rs, form, template, cooldownHours, now, transport).value;
      res.0.sent + res.0.failed == |PolesStore.NeedingReminders(people, rs, form.id, cooldownHours, now)| &&
      res.0.note != NoValidPsid &&
      (res.0.note == NothingDue <==> PolesStore.NeedingReminders(people, rs, form.id, cooldownHours, now) == []) &&
      OnlyReminded(rs, res.1) &&
      forall i :: 0 <= i < |rs| && rs[i].formId != form.id ==> res.1[i] == rs[i]
  {
    var due := PolesStore.NeedingReminders(people, rs, form.id, cooldownHours, now);
    if due != [] {
      DueAllMessaged(people, rs, form, cooldownHours, now, template);
      var ms := Messages(form, due, template).value;
      RecordedForReminds(rs, form.id, SucceededIds(ms, transport), now);
    }
  }

  // ----- totals -----

  function SumSent(rs: seq<(string, FormResult)>): nat
    decreases |rs|
  {
    if rs == [] then 0 else SumSent(rs[..|rs| - 1]) + rs[|rs| - 1].1.sent
  }

  function SumFailed(rs: seq<(string, FormResult)>): nat
    decreases |rs|
  {
    if rs == [] then 0 else SumFailed(rs[..|rs| - 1]) + rs[|rs| - 1].1.failed
  }

  /** The `reminder_results` dict: entries keyed by form name, a later form of the same name
      replacing an earlier one. */
  function ResultsByName(rs: seq<(string, FormResult)>): map<string, FormResult>
    decreases |rs|
  {
    if rs == [] then map[] else ResultsByName(rs[..|rs| - 1])[rs[|rs| - 1].0 := rs[|rs| - 1].1]
  }

  /** Every form processed has its name in the dict, and the dict has no other name. */
  lemma {:induction false} ResultsByNameKeys(rs: seq<(string, FormResult)>)
    ensures forall k :: k in ResultsByName(rs) <==> exists i :: 0 <= i < |rs| && rs[i].0 == k
    decreases |rs|
  {
    if rs != [] {
      var n := |rs| - 1;
      ResultsByNameKeys(rs[..n]);
      forall k ensures k in ResultsByName(rs) <==> exists i :: 0 <= i < |rs| && rs[i].0 == k {
        if k in ResultsByName(rs) && k != rs[n].0 {
          assert k in ResultsByName(rs[..n]);
          var i :| 0 <= i < n && rs[..n][i].0 == k;
          assert rs[i].0 == k;
        }
        if exists i :: 0 <= i < |rs| && rs[i].0 == k {
          var i :| 0 <= i < |rs| && rs[i].0 == k;
          if i < n { assert rs[..n][i].0 == k; }
        }
      }
    }
  }

  /** A form with nobody due has sent nothing and failed nothing. */
  predicate NothingDueIsEmpty(rs: seq<(string, FormResult)>) {
    forall i :: 0 <= i < |rs| && rs[i].1.note == NothingDue ==> rs[i].1.sent == 0 && rs[i].1.failed == 0
  }

  /** The entries are named after the first forms of the list, in order. */
  predicate NamedAfter(rs: seq<(string, FormResult)>, forms: seq<Form>) {
    |rs| <= |forms| && forall k :: 0 <= k < |rs| ==> rs[k].0 == forms[k].name
  }

  /** Adding the next form's entry keeps the entries named in order, adds its counts to
      the sums, and keeps forms with nobody due at zero. */
  lemma EntrySnoc(rs: seq<(string, FormResult)>, forms: seq<Form>, r: FormResult)
    requires NamedAfter(rs, forms) && |rs| < |forms| && NothingDueIsEmpty(rs)
    requires r.note == NothingDue ==> r.sent == 0 && r.failed == 0
    ensures var rs' := rs + [(forms[|rs|].name, r)];
      NamedAfter(rs', forms) && NothingDueIsEmpty(rs') &&
      SumSent(rs') == SumSent(rs) + r.sent && SumFailed(rs') == SumFailed(rs) + r.failed
  {
    var rs' := rs + [(forms[|rs|].name, r)];
    SumsSnoc(rs, (forms[|rs|].name, r));
    forall k | 0 <= k < |rs'|
      ensures rs'[k].0 == forms[k].name
      ensures rs'[k].1.note == NothingDue ==> rs'[k].1.sent == 0 && rs'[k].1.failed == 0
    {
      if k < |rs| {
        assert rs'[k] == rs[k];
        assert rs[k].0 == forms[k].name;
      } else {
        assert k == |rs| && rs'[k] == (forms[|rs|].name, r);
      }
    }
  }

  /** The sums of a list extended by one entry. */
  lemma SumsSnoc(rs: seq<(string, FormResult)>, e: (string, FormResult))
    ensures SumSent(rs + [e]) == SumSent(rs) + e.1.sent && SumFailed(rs + [e]) == SumFailed(rs) + e.1.failed
  {
    assert (rs + [e])[..|rs|] == rs;
  }

  /** Where the sending loop over a list of forms ends: the entries produced, the responses
      after, and whether every form was processed. */
  datatype Sending = Sending(perForm: seq<(string, FormResult)>, responses: seq<Response>, complete: bool)

  /** The sending loop over `forms` from the responses `rs`, each form as `FormSending` says;
      it stops at the first form whose message cannot be built. */
  function SendFold(people: seq<Person>, rs: seq<Response>, forms: seq<Form>, template: Option<string>, cooldownHours: int,
                    now: int, transport: (string, string) -> Messenger.Transport): Sending
    decreases |forms|
  {
    if forms == [] then Sending([], rs, true)
    else
      var before := SendFold(people, rs, forms[..|forms| - 1], template, cooldownHours, now, transport);
      var form := forms[|forms| - 1];
      if !before.complete then before
      else
        match FormSending(people, before.responses, form, template, cooldownHours, now, transport)
        case None => before.(complete := false)
        case Some(res) => Sending(before.perForm + [(form.name, res.0)], res.1, true)
  }

  /** Once the loop has stopped, later forms change nothing. */
  lemma {:induction false} SendFoldStops(people: seq<Person>, rs: seq<Response>, forms: seq<Form>, i: nat, template: Option<string>,
                                         cooldownHours: int, now: int, transport: (string, string) -> Messenger.Transport)
    requires i <= |forms|
    requires !SendFold(people, rs, forms[..i], template, cooldownHours, now, transport).complete
    ensures SendFold(people, rs, forms, template, cooldownHours, now, transport) ==
      SendFold(people, rs, forms[..i], template, cooldownHours, now, transport)
    decreases |forms| - i
  {
    if i < |forms| {
      assert forms[..i + 1][..i] == forms[..i];
      SendFoldStops(people, rs, forms, i + 1, template, cooldownHours, now, transport);
    } else {
      assert forms[..i] == forms;
    }
  }

  /** The loop produces one entry per form processed, named after it, completes exactly
      when every form is processed, and changes only reminder columns of the rows: sending
      never marks or un-marks an answer. */
  lemma {:induction false} SendFoldSpec(people: seq<Person>, rs: seq<Response>, forms: seq<Form>, template: Option<string>,
                                        cooldownHours: int, now: int, transport: (string, string) -> Messenger.Transport)
    ensures var t := SendFold(people, rs, forms, template, cooldownHours, now, transport);
      NamedAfter(t.perForm, forms) && (t.complete <==> |t.perForm| == |forms|) &&
      NothingDueIsEmpty(t.perForm) && OnlyReminded(rs, t.responses)
    decreases |forms|
  {
    if forms != [] {
      var n := |forms| - 1;
      var before := SendFold(people, rs, forms[..n], template, cooldownHours, now, transport);
      SendFoldSpec(people, rs, forms[..n], template, cooldownHours, now, transport);
      assert NamedAfter(before.perForm, forms) by {
        assert forall k :: 0 <= k < |before.perForm| ==> forms[..n][k] == forms[k];
      }
      if before.complete {
        var res := FormSending(people, before.responses, forms[n], template, cooldownHours, now, transport);
        if res.Some? {
          FormSendingSpec(people, before.responses, forms[n], template, cooldownHours, now, transport);
          EntrySnoc(before.perForm, forms, res.value.0);
        }
      }
    }
  }

  datatype AllStatus = SyncFailed | NoForms | AllSent | AllError

  /** The dict `send_reminders_for_all_forms` returns; `perForm` lists the form results in
      the order they were produced, the dict `reminder_results` is `ResultsByName(perForm)`. */
  datatype AllReport = AllReport(status: AllStatus, sync: Option<SyncReport>, perForm: seq<(string, FormResult)>,
                                 totalSent: nat, totalFailed: nat)

  datatype FormStatus = FormNotFound | FormSent | FormError

  /** The dict `send_reminders_for_form` returns. */
  datatype FormReport = FormReport(status: FormStatus, sync: Option<SyncReport>, sent: nat, failed: nat, note: Note)

  /** The number of eligible people of each form, summed. */
  function SumEligible(people: seq<Person>, rs: seq<Response>, forms: seq<Form>, cooldownHours: int, now: int): nat
    decreases |forms|
  {
    if forms == [] then 0
    else SumEligible(people, rs, forms[..|forms| - 1], cooldownHours, now) +
         |PolesStore.NeedingReminders(people, rs, forms[|forms| - 1].id, cooldownHours, now)|
  }

  /** `preview_reminders`: the eligible count per form and their sum. */
  datatype Preview = Preview(totalReminders: nat, perForm: seq<(string, nat)>)

  class ReminderService {
    const db: PolesStore.SQLiteDatabase
    const messenger: Messenger.MessengerService

    constructor(db: PolesStore.SQLiteDatabase, messenger: Messenger.MessengerService)
      ensures this.db == db && this.messenger == messenger
    {
      this.db := db;
      this.messenger := messenger;
    }

    /** The configurations of the given forms, built in a loop as the source does. */
    method FormConfigs(forms: seq<Form>) returns (configs: seq<FormConfig>)
      ensures configs == Configs(forms)
    {
      configs := [];
      for i := 0 to |forms|
        invariant configs == Configs(forms[..i])
      {
        assert forms[..i + 1][..i] == forms[..i];
        if forms[i].googleFormId != [] {
          configs := configs + [FormConfig(forms[i].googleFormId, forms[i].name, forms[i].id)];
        }
      }
      assert forms[..|forms|] == forms;
    }

    /** Fetches the configured forms and runs the store's sync on what came back. */
    method SyncConfigs(configs: seq<FormConfig>, fetch: string -> GoogleForms.Reply, raised: bool, now: int,
                       newId: nat -> string) returns (report: SyncReport)
      requires configs != []
      modifies db`people, db`expected, db`responses, db`lastSync
      ensures raised ==> report == SyncReport(SyncError, 0, None) && unchanged(db)
      ensures !raised ==> (report.status == SyncSuccess && report.formsProcessed == |configs| && report.stats.Some? &&
                           db.lastSync == Some(now) && old(db.people) <= db.people)
      ensures !raised ==>
        var s0 := PolesStore.PoleSync(old(db.people), old(db.expected), old(db.responses), 0);
        var t := SyncedTables(old(db.forms), s0, configs, fetch, now, newId);
        db.people == t.people && db.expected == t.expected && db.responses == t.responses &&
        report.stats == Some(SyncedStats(old(db.forms), s0, configs, fetch, now, newId))
      ensures db.forms == old(db.forms)
    {
      if raised {
        return SyncReport(SyncError, 0, None);
      }
      var data := GoogleForms.GetMultipleFormsResponses(GoogleIds(configs), fetch);
      var stats := db.SyncGoogleFormsResponses(data, now, newId);
      report := SyncReport(SyncSuccess, |configs|, Some(stats));
    }

    /** `sync_all_forms()`: a warning with nothing processed when no active form has a
        Google id; otherwise every such form is fetched and synchronised. */
    method SyncAllForms(fetch: string -> GoogleForms.Reply, raised: bool, now: int, newId: nat -> string)
      returns (report: SyncReport)
      modifies db`people, db`expected, db`responses, db`lastSync
      ensures var configs := Configs(ActiveForms(old(db.forms)));
        (configs == [] ==> report == SyncReport(SyncWarning, 0, None) && unchanged(db)) &&
        (configs != [] && raised ==> report == SyncReport(SyncError, 0, None) && unchanged(db)) &&
        (configs != [] && !raised ==> (report.status == SyncSuccess && report.formsProcessed == |configs| &&
                                       db.lastSync == Some(now)))
      ensures var configs := Configs(ActiveForms(old(db.forms)));
        var s0 := PolesStore.PoleSync(old(db.people), old(db.expected), old(db.responses), 0);
        var t := SyncedTables(old(db.forms), s0, configs, fetch, now, newId);
        configs != [] && !raised ==>
          db.people == t.people && db.expected == t.expected && db.responses == t.responses &&
          report.stats == Some(SyncedStats(old(db.forms), s0, configs, fetch, now, newId))
      ensures report.status != SyncSuccess <==> report.formsProcessed == 0
      ensures db.forms == old(db.forms) && old(db.people) <= db.people
    {
      var active := ActiveForms(db.forms);
      if active == [] {
        return SyncReport(SyncWarning, 0, None);
      }
      var configs := FormConfigs(active);
      if configs == [] {
        return SyncReport(SyncWarning, 0, None);
      }
      report := SyncConfigs(configs, fetch, raised, now, newId);
    }

    /** `sync_specific_form(form_id)`: an error for an unknown form or one without a Google
        id; otherwise that form alone is fetched and synchronised. */
    method SyncSpecificForm(formId: string, fetch: string -> GoogleForms.Reply, raised: bool, now: int,
                            newId: nat -> string) returns (report: SyncReport)
      modifies db`people, db`expected, db`responses, db`lastSync
      ensures var f := FormById(old(db.forms), formId);
        (f.None? || f.value.googleFormId == [] ==> report == SyncReport(SyncError, 0, None) && unchanged(db)) &&
        (f.Some? && f.value.googleFormId != [] ==>
           (raised ==> report.status == SyncError && unchanged(db)) &&
           (!raised ==> report.status == SyncSuccess && report.formsProcessed == 1 && db.lastSync == Some(now)))
      ensures var f := FormById(old(db.forms), formId);
        f.Some? && f.value.googleFormId != [] && !raised ==>
          var configs := [FormConfig(f.value.googleFormId, f.value.name, f.value.id)];
          var s0 := PolesStore.PoleSync(old(db.people), old(db.expected), old(db.responses), 0);
          var t := SyncedTables(old(db.forms), s0, configs, fetch, now, newId);
          db.people == t.people && db.expected == t.expected && db.responses == t.responses &&
          report.stats == Some(SyncedStats(old(db.forms), s0, configs, fetch, now, newId))
      ensures db.forms == old(db.forms) && old(db.people) <= db.people
    {
      var f := FormById(db.forms, formId);
      if f.None? || f.value.googleFormId == [] {
        return SyncReport(SyncError, 0, None);
      }
      report := SyncConfigs([FormConfig(f.value.googleFormId, f.value.name, f.value.id)], fetch, raised, now, newId);
    }

    /** The loop of `_send_reminders_for_people_list` that builds `messages_data`, skipping
        the people without a psid; None where a message fails to build. */
    method BuildMessages(form: Form, people: seq<(Person, Response)>, template: Option<string>)
        returns (r: Option<seq<(string, Messenger.Outgoing)>>)
      ensures r == Messages(form, people, template)
    {
      ghost var build := Builder(form, template);
      var ms: seq<(string, Messenger.Outgoing)> := [];
      for i := 0 to |people|
        invariant MessagesWith(people[..i], build) == Some(ms)
      {
        assert people[..i + 1][..i] == people[..i];
        var p := people[i].0;
        if p.psid != [] {
          var text := Messenger.BuildReminderMessage(p, form, template);
          assert text == build(p);
          if text.None? {
            MessagesNoneExtends(people, build, i + 1);
            return None;
          }
          ms := ms + [(p.id, Messenger.Outgoing(p.psid, text.value, p.name))];
        }
      }
      assert people[..|people|] == people;
      return Some(ms);
    }

    /** `_send_reminders_for_people_list(form, people, template)`: the people with a psid get
        a message (the others are dropped, not counted); an empty list gives 0/0;
        successes and failures add up to the messages sent; a reminder is recorded for
        exactly the messages whose send succeeded. None where building a message raises, before anything is sent. */
    method SendToPeople(form: Form, people: seq<(Person, Response)>, template: Option<string>,
                        transport: (string, string) -> Messenger.Transport, now: int) returns (r: Option<FormResult>)
      modifies db`responses, messenger`history, messenger`lastMessageTime
      ensures people == [] ==> r == Some(FormResult(0, 0, NothingDue)) && unchanged(db) && unchanged(messenger)
      ensures people != [] ==> var ms := Messages(form, people, template);
        (ms.None? <==> r.None?) &&
        (ms.None? ==> unchanged(db) && unchanged(messenger)) &&
        (ms.Some? ==>
          r.value.sent + r.value.failed == |ms.value| &&
          r.value.sent == |SucceededIds(ms.value, transport)| &&
          db.responses == RecordedFor(old(db.responses), form.id, SucceededIds(ms.value, transport), now) &&
          (ms.value == [] <==> r.value.note == NoValidPsid) &&
          (ms.value == [] ==> r.value.sent == 0 && r.value.failed == 0 && unchanged(messenger)))
      ensures people != [] && r.Some? ==> r.value.note != NothingDue
    {
      if people == [] {
        return Some(FormResult(0, 0, NothingDue));
      }
      var built := BuildMessages(form, people, template);
      if built.None? {
        return None;
      }
      var ms := built.value;
      if ms == [] {
        return Some(FormResult(0, 0, NoValidPsid));
      }
      var report := messenger.SendBulkMessages(Map(ms, (m: (string, Messenger.Outgoing)) => m.1), transport, now);
      SuccessCount(ms, report.results, transport);
      ghost var sentState := db.responses;
      for i := 0 to |report.results|
        invariant db.responses == RecordedFor(sentState, form.id, SucceededIds(ms[..i], transport), now)
      {
        RecordStep(sentState, form.id, ms, i, transport, now);
        if report.results[i].success {
          var _ := db.RecordReminderSent(form.id, ms[i].0, now);
        }
      }
      assert ms[..|ms|] == ms;
      r := Some(FormResult(report.successful, report.failed, Delivered));
    }

    /** One form of the sending loop: nothing is sent when nobody is due, else the due
        people are sent their reminder. None where building a message raises. */
    method ProcessForm(form: Form, template: Option<string>, cooldownHours: int,
                       transport: (string, string) -> Messenger.Transport, now: int) returns (r: Option<FormResult>)
      modifies db`responses, messenger`history, messenger`lastMessageTime
      ensures var due := PolesStore.NeedingReminders(db.people, old(db.responses), form.id, cooldownHours, now);
        (due == [] ==> r == Some(FormResult(0, 0, NothingDue)) && unchanged(db) && unchanged(messenger)) &&
        (due != [] ==> (r.None? <==> Messages(form, due, template).None?) && (r.Some? ==> r.value.note != NothingDue))
      ensures r.Some? && r.value.note != Delivered ==> r.value.sent == 0 && r.value.failed == 0
      ensures var res := FormSending(db.people, old(db.responses), form, template, cooldownHours, now, transport);
        (r.None? <==> res.None?) && (r.Some? ==> r.value == res.value.0 && db.responses == res.value.1)
      ensures r.None? ==> unchanged(db) && unchanged(messenger)
    {
      var due := db.PeopleNeedingReminders(form.id, cooldownHours, now);
      if due == [] {
        return Some(FormResult(0, 0, NothingDue));
      }
      r := SendToPeople(form, due, template, transport, now);
    }

    /** The loop of `send_reminders_for_all_forms` over the active forms: one entry per form
        processed, in order, and running totals that are the sums of the entries; it stops
        at the first form whose message cannot be built. */
    method SendForForms(forms: seq<Form>, template: Option<string>, cooldownHours: int,
                        transport: (string, string) -> Messenger.Transport, now: int)
      returns (perForm: seq<(string, FormResult)>, totalSent: nat, totalFailed: nat, complete: bool)
      modifies db`responses, messenger`history, messenger`lastMessageTime
      ensures complete <==> |perForm| == |forms|
      ensures NamedAfter(perForm, forms)
      ensures totalSent == SumSent(perForm) && totalFailed == SumFailed(perForm)
      ensures NothingDueIsEmpty(perForm)
      ensures Sending(perForm, db.responses, complete) ==
        SendFold(db.people, old(db.responses), forms, template, cooldownHours, now, transport)
    {
      ghost var rs0 := db.responses;
      perForm, totalSent, totalFailed := [], 0, 0;
      for i := 0 to |forms|
        invariant totalSent == SumSent(perForm) && totalFailed == SumFailed(perForm)
        invariant Sending(perForm, db.responses, true) == SendFold(db.people, rs0, forms[..i], template, cooldownHours, now, transport)
      {
        ghost var before := db.responses;
        var r := ProcessForm(forms[i], template, cooldownHours, transport, now);
        if r.None? {
          assert SendFold(db.people, rs0, forms[..i + 1], template, cooldownHours, now, transport) ==
                 Sending(perForm, db.responses, false) by {
            assert forms[..i + 1][..i] == forms[..i];
          }
          SendFoldStops(db.people, rs0, forms, i + 1, template, cooldownHours, now, transport);
          SendFoldSpec(db.people, rs0, forms, template, cooldownHours, now, transport);
          return perForm, totalSent, totalFailed, false;
        }
        SumsSnoc(perForm, (forms[i].name, r.value));
        assert SendFold(db.people, rs0, forms[..i + 1], template, cooldownHours, now, transport) ==
               Sending(perForm + [(forms[i].name, r.value)], db.responses, true) by {
          assert forms[..i + 1][..i] == forms[..i];
        }
        perForm := perForm + [(forms[i].name, r.value)];
        totalSent := totalSent + r.value.sent;
        totalFailed := totalFailed + r.value.failed;
      }
      assert forms[..|forms|] == forms;
      SendFoldSpec(db.people, rs0, forms, template, cooldownHours, now, transport);
      complete := true;
    }

    /** `send_reminders_for_all_forms(sync_first, template, cooldown_hours)`: a failed sync
        stops everything before any send; with no active form nothing is sent; otherwise
        every active form is processed and the totals are the sums of the per-form counts. */
    method SendRemindersForAllForms(syncFirst: bool, template: Option<string>, cooldownHours: int,
                                    fetch: string -> GoogleForms.Reply, raised: bool,
                                    transport: (string, string) -> Messenger.Transport, now: int, newId: nat -> string)
      returns (report: AllReport)
      modifies db`people, db`expected, db`responses, db`lastSync, messenger`history, messenger`lastMessageTime
      ensures report.sync.Some? <==> syncFirst
      ensures report.status == SyncFailed <==> syncFirst && report.sync.value.status == SyncError
      ensures report.status == SyncFailed ==> unchanged(db) && unchanged(messenger) && report.perForm == []
      ensures report.status == NoForms <==> report.status != SyncFailed && ActiveForms(old(db.forms)) == []
      ensures report.status == NoForms ==> report.perForm == [] && unchanged(messenger)
      ensures NamedAfter(report.perForm, ActiveForms(old(db.forms)))
      ensures report.status == AllSent ==> |report.perForm| == |ActiveForms(old(db.forms))|
      ensures report.status == AllError ==> |report.perForm| < |ActiveForms(old(db.forms))|
      ensures report.totalSent == SumSent(report.perForm) && report.totalFailed == SumFailed(report.perForm)
      ensures NothingDueIsEmpty(report.perForm)
      ensures report.status == AllSent || report.status == AllError ==>
        var configs := Configs(ActiveForms(old(db.forms)));
        var synced := SyncedTables(old(db.forms), PolesStore.PoleSync(old(db.people), old(db.expected), old(db.responses), 0),
                                   configs, fetch, now, newId);
        var rs := if syncFirst && configs != [] then synced.responses else old(db.responses);
        var t := SendFold(db.people, rs, ActiveForms(old(db.forms)), template, cooldownHours, now, transport);
        db.people == (if syncFirst && configs != [] then synced.people else old(db.people)) &&
        report.perForm == t.perForm && db.responses == t.responses && (report.status == AllSent <==> t.complete)
      ensures db.forms == old(db.forms)
    {
      var sync: Option<SyncReport> := None;
      if syncFirst {
        var s := SyncAllForms(fetch, raised, now, newId);
        sync := Some(s);
        if s.status == SyncError {
          return AllReport(SyncFailed, sync, [], 0, 0);
        }
      }
      var active := ActiveForms(db.forms);
      if active == [] {
        return AllReport(NoForms, sync, [], 0, 0);
      }
      var perForm, totalSent, totalFailed, complete := SendForForms(active, template, cooldownHours, transport, now);
      report := AllReport(if complete then AllSent else AllError, sync, perForm, totalSent, totalFailed);
    }

    /** `send_reminders_for_form(form_id, sync_first, template, cooldown_hours)`: an unknown
        form is an error; a failed sync is only logged and sending goes on; with nobody
        due nothing is sent. */
    method SendRemindersForForm(formId: string, syncFirst: bool, template: Option<string>, cooldownHours: int,
                                fetch: string -> GoogleForms.Reply, raised: bool,
                                transport: (string, string) -> Messenger.Transport, now: int, newId: nat -> string)
      returns (report: FormReport)
      modifies db`people, db`expected, db`responses, db`lastSync, messenger`history, messenger`lastMessageTime
      ensures report.status == FormNotFound <==> FormById(old(db.forms), formId).None?
      ensures report.status == FormNotFound ==> unchanged(db) && unchanged(messenger)
      ensures report.status == FormSent ==> report.sync.Some? == syncFirst
      ensures report.status == FormSent && report.note == NothingDue ==>
        report.sent == 0 && report.failed == 0 && unchanged(messenger)
      ensures report.status == FormSent && report.note == NoValidPsid ==> report.sent == 0 && report.failed == 0
      ensures report.status != FormNotFound ==>
        var f := FormById(old(db.forms), formId).value;
        var synced := SyncedTables(old(db.forms), PolesStore.PoleSync(old(db.people), old(db.expected), old(db.responses), 0),
                                   [FormConfig(f.googleFormId, f.name, f.id)], fetch, now, newId);
        var sent := syncFirst && f.googleFormId != [] && !raised;
        var res := FormSending(db.people, if sent then synced.responses else old(db.responses),
                               f, template, cooldownHours, now, transport);
        db.people == (if sent then synced.people else old(db.people)) &&
        (report.status == FormError <==> res.None?) &&
        (res.Some? ==> report.sent == res.value.0.sent && report.failed == res.value.0.failed &&
                       report.note == res.value.0.note && db.responses == res.value.1)
    {
      var f := FormById(db.forms, formId);
      if f.None? {
        return FormReport(FormNotFound, None, 0, 0, NothingDue);
      }
      var sync: Option<SyncReport> := None;
      if syncFirst {
        var s := SyncSpecificForm(formId, fetch, raised, now, newId);
        sync := Some(s);
      }
      var r := ProcessForm(f.value, template, cooldownHours, transport, now);
      if r.None? {
        return FormReport(FormError, sync, 0, 0, NothingDue);
      }
      report := FormReport(FormSent, sync, r.value.sent, r.value.failed, r.value.note);
    }

    /** `preview_reminders(form_id, cooldown_hours)` at time `now`: nothing is written; for
        a given form its eligible count, else the eligible count of every active form and
        their sum; None for an unknown form. */
    method PreviewReminders(formId: Option<string>, cooldownHours: int, now: int) returns (p: Option<Preview>)
      ensures formId.Some? && formId.value != [] ==>
        (p.None? <==> FormById(db.forms, formId.value).None?) &&
        (p.Some? ==> p.value.totalReminders == |PolesStore.NeedingReminders(db.people, db.responses, formId.value, cooldownHours, now)|)
      ensures (formId.None? || formId.value == []) ==> (p.Some? &&
        p.value.totalReminders == SumEligible(db.people, db.responses, ActiveForms(db.forms), cooldownHours, now) &&
        |p.value.perForm| == |ActiveForms(db.forms)|)
    {
      if formId.Some? && formId.value != [] {
        var f := FormById(db.forms, formId.value);
        if f.None? {
          return None;
        }
        var n := |db.PeopleNeedingReminders(formId.value, cooldownHours, now)|;
        return Some(Preview(n, [(f.value.name, n)]));
      }
      var active := ActiveForms(db.forms);
      var total := 0;
      var perForm: seq<(string, nat)> := [];
      for i := 0 to |active|
        invariant total == SumEligible(db.people, db.responses, active[..i], cooldownHours, now)
        invariant |perForm| == i
      {
        assert active[..i + 1][..i] == active[..i];
        var n := |db.PeopleNeedingReminders(active[i].id, cooldownHours, now)|;
        perForm := perForm + [(active[i].name, n)];
        total := total + n;
      }
      assert active[..|active|] == active;
      p := Some(Preview(total, perForm));
    }
  }

  /** Once a message fails to build, the list of messages fails for every longer prefix. */
  lemma {:induction false} MessagesNoneExtends(people: seq<(Person, Response)>, build: Person -> Option<string>, i: nat)
    requires i <= |people|
    requires MessagesWith(people[..i], build).None?
    ensures MessagesWith(people, build).None?
    decreases |people| - i
  {
    if i < |people| {
      assert people[..i + 1][..i] == people[..i];
      MessagesNoneExtends(people, build, i + 1);
    } else {
      assert people[..i] == people;
    }
  }
}
