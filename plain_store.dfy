/**
 * STN-botv2/streamlit_app.py: the `SQLiteDatabase` without poles. The
 * duplicate checks, the insert of a form with its rows, and the updates of
 * one (form, person) row are those of the store with poles and share its
 * specification functions; the sync is simpler: an unknown Google id is
 * skipped, a submission is credited to anyone with the email ignoring case,
 * and a person the sync creates gets no row, so marking it fails.
 */
module PlainStore {
  import opened Wrappers
  import opened Text
  import opened Seqs
  import opened ModelsV2
  import opened Relations
  import opened PolesStore
  import GoogleForms

  /** The name of a person the sync creates: `f"{firstName} {lastName}".strip()`, else the
      part of the email before the first '@'. */
  function PlainSyncName(sub: GoogleForms.Submission, email: string): (name: string)
    ensures name == Strip(sub.firstName + " " + sub.lastName) || (name <= email && '@' !in name)
  {
    var fullName := Strip(sub.firstName + " " + sub.lastName);
    if fullName != [] then fullName
    else email[..Find(email, '@')]
  }

  /** No row of the table belongs to a person with one of the ids `newId` draws: uuid
      freshness. */
  ghost predicate NoRowsFor(rs: seq<Response>, newId: nat -> string) {
    forall k: nat, i :: 0 <= i < |rs| ==> rs[i].personId != newId(k)
  }

  /** `rs'` is `rs` with some rows marked responded: no row is added, removed, moved to
      another pair or put back to "not responded". */
  predicate OnlyMarked(rs: seq<Response>, rs': seq<Response>) {
    |rs'| == |rs| &&
    forall i :: 0 <= i < |rs| ==>
      rs'[i].id == rs[i].id && rs'[i].formId == rs[i].formId && rs'[i].personId == rs[i].personId &&
      (rs[i].hasResponded ==> rs'[i].hasResponded)
  }

  /** Marking a pair only marks rows, and so keeps every row away from the drawn ids. */
  lemma SetRespondedOnlyMarks(rs: seq<Response>, formId: string, personId: string, date: Option<int>, now: int, newId: nat -> string)
    ensures OnlyMarked(rs, SetResponded(rs, formId, personId, date, now))
    ensures NoRowsFor(rs, newId) ==> NoRowsFor(SetResponded(rs, formId, personId, date, now), newId)
  {
    var u := SetResponded(rs, formId, personId, date, now);
    assert forall i :: 0 <= i < |u| ==> u[i].personId == rs[i].personId;
  }

  /** Marking twice is marking. */
  lemma OnlyMarkedTransitive(a: seq<Response>, b: seq<Response>, c: seq<Response>)
    requires OnlyMarked(a, b) && OnlyMarked(b, c)
    ensures OnlyMarked(a, c)
  {
  }

  datatype PlainHealth = PlainHealth(healthy: bool, peopleCount: nat, formsCount: nat, responsesCount: nat,
                                     orphanedResponses: nat, databaseVersion: string)

  /** `get_health_check()`: healthy exactly when every response has its person and its form. */
  function PlainHealthCheck(people: seq<Person>, forms: seq<Form>, rs: seq<Response>): (h: PlainHealth)
    ensures h.healthy <==> forall i :: 0 <= i < |rs| ==> !Orphan(people, forms, rs[i])
    ensures h.orphanedResponses == Orphans(people, forms, rs)
  {
    OrphansZeroIff(people, forms, rs);
    var orphaned := Orphans(people, forms, rs);
    PlainHealth(orphaned == 0, |people|, |forms|, |rs|, orphaned, "2.0-sqlite-fixed")
  }

  /** What the sync did with one submission. */
  datatype PlainOutcome = Ignored | NotCreated | Credited(personId: string, created: bool, marked: bool)

  // ----- the sync as a function of the tables -----

  /** What the sync carries from one submission to the next: the tables it writes and how
      many fresh ids it has drawn. */
  datatype PlainSync = PlainSync(people: seq<Person>, responses: seq<Response>, ids: nat)

  /** The credit of one submission: nobody without an email; the first person with the email
      ignoring case; else a person created for it, unless `add_person` refuses them. */
  function PlainCreditFor(s: PlainSync, entry: GoogleForms.Submission, now: int, newId: nat -> string): Credit {
    var email := GoogleForms.Normalize(entry.email);
    if email == [] then NoEmail
    else
      var found := PersonByEmailIgnoringCase(s.people, email);
      if found.Some? then Known(found.value.id)
      else
        var created := Person(newId(s.ids), PlainSyncName(entry, email), email, "", now, now);
        if AcceptsPerson(s.people, created) then Newcomer(created) else Refused
  }

  /** The person a credit goes to, if any. */
  function CreditedId(c: Credit): Option<string> {
    match c
    case Known(pid) => Some(pid)
    case Newcomer(p) => Some(p.id)
    case _ => None
  }

  /** What the sync reports for a credit on form `formId`: a credited person is marked
      exactly when their pair already has a row. */
  function PlainOutcomeOf(formId: string, s: PlainSync, c: Credit): PlainOutcome {
    match c
    case NoEmail => Ignored
    case Refused => NotCreated
    case Known(pid) => Credited(pid, false, HasPair(s.responses, formId, pid))
    case Newcomer(p) => Credited(p.id, true, HasPair(s.responses, formId, p.id))
  }

  /** One submission on form `formId` (one id drawn whatever happens): a created person joins
      the people, and the credited person's rows for the form are marked when there are any. */
  function PlainStep(formId: string, s: PlainSync, entry: GoogleForms.Submission, now: int, newId: nat -> string): PlainSync {
    var c := PlainCreditFor(s, entry, now, newId);
    var date := SyncDate(entry.timestamp, now);
    match c
    case NoEmail => s.(ids := s.ids + 1)
    case Refused => s.(ids := s.ids + 1)
    case Known(pid) => s.(responses := MarkedIfRow(s.responses, formId, pid, date, now), ids := s.ids + 1)
    case Newcomer(p) => PlainSync(s.people + [p], MarkedIfRow(s.responses, formId, p.id, date, now), s.ids + 1)
  }

  /** The submissions of one form, in order. */
  function PlainEntriesFold(formId: string, s: PlainSync, entries: seq<GoogleForms.Submission>, now: int, newId: nat -> string): PlainSync {
    if entries == [] then s
    else PlainStep(formId, PlainEntriesFold(formId, s, entries[..|entries| - 1], now, newId), entries[|entries| - 1], now, newId)
  }

  lemma PlainEntriesFoldSnoc(formId: string, s: PlainSync, entries: seq<GoogleForms.Submission>, j: nat, now: int, newId: nat -> string)
    requires j < |entries|
    ensures PlainEntriesFold(formId, s, entries[..j + 1], now, newId) ==
      PlainStep(formId, PlainEntriesFold(formId, s, entries[..j], now, newId), entries[j], now, newId)
  {
    assert entries[..j + 1][..j] == entries[..j];
  }

  /** The whole collection: an unknown Google id is skipped. */
  function PlainSyncFold(forms: seq<Form>, s: PlainSync, data: GoogleForms.Collected, now: int, newId: nat -> string): PlainSync {
    if data == [] then s
    else
      var before := PlainSyncFold(forms, s, data[..|data| - 1], now, newId);
      var last := data[|data| - 1];
      var form := FormByGoogleId(forms, last.0);
      if form.Some? then PlainEntriesFold(form.value.id, before, last.1, now, newId) else before
  }

  /** What one outcome adds to `sync_stats`: an update for a marked row, an error for a
      refused person or a failed mark, and a creation for a created person. */
  function PlainTally(o: PlainOutcome): SyncStats {
    match o
    case Ignored => SyncStats(0, 0, 0)
    case NotCreated => SyncStats(0, 0, 1)
    case Credited(_, created, marked) => SyncStats(if marked then 1 else 0, if created then 1 else 0, if marked then 0 else 1)
  }

  /** The counts of one form's submissions, in order. */
  function PlainEntriesTally(formId: string, s: PlainSync, entries: seq<GoogleForms.Submission>, now: int, newId: nat -> string): SyncStats {
    if entries == [] then SyncStats(0, 0, 0)
    else
      var n := |entries| - 1;
      var before := PlainEntriesFold(formId, s, entries[..n], now, newId);
      Plus(PlainEntriesTally(formId, s, entries[..n], now, newId),
           PlainTally(PlainOutcomeOf(formId, before, PlainCreditFor(before, entries[n], now, newId))))
  }

  lemma PlainEntriesTallySnoc(formId: string, s: PlainSync, entries: seq<GoogleForms.Submission>, j: nat, now: int, newId: nat -> string)
    requires j < |entries|
    ensures var before := PlainEntriesFold(formId, s, entries[..j], now, newId);
      PlainEntriesTally(formId, s, entries[..j + 1], now, newId) ==
      Plus(PlainEntriesTally(formId, s, entries[..j], now, newId),
           PlainTally(PlainOutcomeOf(formId, before, PlainCreditFor(before, entries[j], now, newId))))
  {
    assert entries[..j + 1][..j] == entries[..j];
  }

  /** The counts of the whole collection: an unknown Google id counts nothing. */
  function PlainSyncTally(forms: seq<Form>, s: PlainSync, data: GoogleForms.Collected, now: int, newId: nat -> string): SyncStats {
    if data == [] then SyncStats(0, 0, 0)
    else
      var n := |data| - 1;
      var form := FormByGoogleId(forms, data[n].0);
      var rest := PlainSyncTally(forms, s, data[..n], now, newId);
      if form.Some? then Plus(rest, PlainEntriesTally(form.value.id, PlainSyncFold(forms, s, data[..n], now, newId), data[n].1, now, newId))
      else rest
  }

  /** One submission: with an email it counts one update or one error; a created person
      has no row (its id is fresh), so it counts an error; rows are only marked and stay
      away from the fresh ids; people are only appended. */
  lemma PlainStepCounts(formId: string, s: PlainSync, entry: GoogleForms.Submission, now: int, newId: nat -> string)
    requires NoRowsFor(s.responses, newId)
    ensures var c := PlainCreditFor(s, entry, now, newId);
      var n := PlainTally(PlainOutcomeOf(formId, s, c));
      var t := PlainStep(formId, s, entry, now, newId);
      n.updated + n.errors == (if HasSyncEmail(entry) then 1 else 0) && n.created <= n.errors &&
      |t.people| == |s.people| + n.created && s.people <= t.people && t.ids == s.ids + 1 &&
      NoRowsFor(t.responses, newId) && OnlyMarked(s.responses, t.responses)
  {
    SyncEmailIff(entry);
    var c := PlainCreditFor(s, entry, now, newId);
    var date := SyncDate(entry.timestamp, now);
    match c
    case Known(pid) =>
      SetRespondedOnlyMarks(s.responses, formId, pid, date, now, newId);
    case Newcomer(p) =>
      assert p.id == newId(s.ids);
      assert !HasPair(s.responses, formId, p.id);
    case NoEmail =>
    case Refused =>
  }

  /** The counts of one form: updates plus errors are the submissions with an email, created
      people never exceed errors and are the people appended; rows are only marked. */
  lemma {:induction false} PlainEntriesCounts(formId: string, s: PlainSync, entries: seq<GoogleForms.Submission>, now: int, newId: nat -> string)
    requires NoRowsFor(s.responses, newId)
    ensures var n := PlainEntriesTally(formId, s, entries, now, newId);
      var t := PlainEntriesFold(formId, s, entries, now, newId);
      n.updated + n.errors == WithSyncEmail(entries) && n.created <= n.errors &&
      |t.people| == |s.people| + n.created && s.people <= t.people && t.ids == s.ids + |entries| &&
      NoRowsFor(t.responses, newId) && OnlyMarked(s.responses, t.responses)
  {
    if entries != [] {
      var init := entries[..|entries| - 1];
      var before := PlainEntriesFold(formId, s, init, now, newId);
      PlainEntriesCounts(formId, s, init, now, newId);
      PlainStepCounts(formId, before, entries[|entries| - 1], now, newId);
      OnlyMarkedTransitive(s.responses, before.responses, PlainEntriesFold(formId, s, entries, now, newId).responses);
    }
  }

  /** The counts of the whole collection, as `PlainEntriesCounts` for every known form. */
  lemma {:induction false} PlainSyncCounts(forms: seq<Form>, s: PlainSync, data: GoogleForms.Collected, now: int, newId: nat -> string)
    requires NoRowsFor(s.responses, newId)
    ensures var n := PlainSyncTally(forms, s, data, now, newId);
      var t := PlainSyncFold(forms, s, data, now, newId);
      n.updated + n.errors == Markable(forms, data) && n.created <= n.errors &&
      |t.people| == |s.people| + n.created && s.people <= t.people &&
      NoRowsFor(t.responses, newId) && OnlyMarked(s.responses, t.responses)
  {
    if data != [] {
      var init := data[..|data| - 1];
      var before := PlainSyncFold(forms, s, init, now, newId);
      PlainSyncCounts(forms, s, init, now, newId);
      var form := FormByGoogleId(forms, data[|data| - 1].0);
      if form.Some? {
        PlainEntriesCounts(form.value.id, before, data[|data| - 1].1, now, newId);
        OnlyMarkedTransitive(s.responses, before.responses, PlainSyncFold(forms, s, data, now, newId).responses);
      }
    }
  }

  /** The person the `j`-th submission of a form marks: the credited person, when their
      pair has a row in the tables the earlier submissions leave. */
  function PlainMarkedAt(formId: string, s: PlainSync, entries: seq<GoogleForms.Submission>, j: nat, now: int, newId: nat -> string): Option<string>
    requires j < |entries|
  {
    var before := PlainEntriesFold(formId, s, entries[..j], now, newId);
    var who := CreditedId(PlainCreditFor(before, entries[j], now, newId));
    if who.Some? && HasPair(before.responses, formId, who.value) then who else None
  }

  /** One step leaves the person it marks fully responded, and un-marks nobody. */
  lemma PlainStepMarks(formId: string, s: PlainSync, entry: GoogleForms.Submission, now: int, newId: nat -> string)
    ensures var who := CreditedId(PlainCreditFor(s, entry, now, newId));
      who.Some? && HasPair(s.responses, formId, who.value) ==>
      AllResponded(PlainStep(formId, s, entry, now, newId).responses, formId, who.value)
    ensures forall f, q :: AllResponded(s.responses, f, q) ==> AllResponded(PlainStep(formId, s, entry, now, newId).responses, f, q)
  {
    var who := CreditedId(PlainCreditFor(s, entry, now, newId));
    if who.Some? {
      SetRespondedMarks(s.responses, formId, who.value, SyncDate(entry.timestamp, now), now);
    }
  }

  /** After a form's submissions, every person one of them marked has all their rows for the
      form responded, and every pair that was fully responded still is. */
  lemma {:induction false} PlainFoldMarks(formId: string, s: PlainSync, entries: seq<GoogleForms.Submission>, now: int, newId: nat -> string)
    ensures forall j :: 0 <= j < |entries| && PlainMarkedAt(formId, s, entries, j, now, newId).Some? ==>
      AllResponded(PlainEntriesFold(formId, s, entries, now, newId).responses, formId, PlainMarkedAt(formId, s, entries, j, now, newId).value)
    ensures forall f, q :: AllResponded(s.responses, f, q) ==> AllResponded(PlainEntriesFold(formId, s, entries, now, newId).responses, f, q)
  {
    if entries != [] {
      var n := |entries| - 1;
      var init := entries[..n];
      var mid := PlainEntriesFold(formId, s, init, now, newId);
      var t := PlainEntriesFold(formId, s, entries, now, newId);
      assert t == PlainStep(formId, mid, entries[n], now, newId);
      PlainFoldMarks(formId, s, init, now, newId);
      PlainStepMarks(formId, mid, entries[n], now, newId);
      forall j | 0 <= j < |entries| && PlainMarkedAt(formId, s, entries, j, now, newId).Some?
        ensures AllResponded(t.responses, formId, PlainMarkedAt(formId, s, entries, j, now, newId).value)
      {
        if j < n {
          assert entries[..j] == init[..j];
          assert PlainMarkedAt(formId, s, entries, j, now, newId) == PlainMarkedAt(formId, s, init, j, now, newId);
        } else {
          assert entries[..j] == init;
        }
      }
    }
  }

  /** After the whole sync, every person a submission to a known form marked still has all
      their rows for that form responded: no later form un-marks them. */
  lemma {:induction false} PlainSyncMarks(forms: seq<Form>, s: PlainSync, data: GoogleForms.Collected, now: int, newId: nat -> string)
    ensures forall i, j :: (0 <= i < |data| && FormByGoogleId(forms, data[i].0).Some? && 0 <= j < |data[i].1| &&
      PlainMarkedAt(FormByGoogleId(forms, data[i].0).value.id, PlainSyncFold(forms, s, data[..i], now, newId), data[i].1, j, now, newId).Some?) ==>
      AllResponded(PlainSyncFold(forms, s, data, now, newId).responses, FormByGoogleId(forms, data[i].0).value.id,
                   PlainMarkedAt(FormByGoogleId(forms, data[i].0).value.id, PlainSyncFold(forms, s, data[..i], now, newId), data[i].1, j, now, newId).value)
    ensures forall f, q :: AllResponded(s.responses, f, q) ==> AllResponded(PlainSyncFold(forms, s, data, now, newId).responses, f, q)
  {
    if data != [] {
      var n := |data| - 1;
      var init := data[..n];
      var mid := PlainSyncFold(forms, s, init, now, newId);
      var t := PlainSyncFold(forms, s, data, now, newId);
      PlainSyncMarks(forms, s, init, now, newId);
      var form := FormByGoogleId(forms, data[n].0);
      if form.Some? {
        assert t == PlainEntriesFold(form.value.id, mid, data[n].1, now, newId);
        PlainFoldMarks(form.value.id, mid, data[n].1, now, newId);
      } else {
        assert t == mid;
      }
      forall i, j | 0 <= i < |data| && FormByGoogleId(forms, data[i].0).Some? && 0 <= j < |data[i].1| &&
          PlainMarkedAt(FormByGoogleId(forms, data[i].0).value.id, PlainSyncFold(forms, s, data[..i], now, newId), data[i].1, j, now, newId).Some?
        ensures AllResponded(t.responses, FormByGoogleId(forms, data[i].0).value.id,
                             PlainMarkedAt(FormByGoogleId(forms, data[i].0).value.id, PlainSyncFold(forms, s, data[..i], now, newId), data[i].1, j, now, newId).value)
      {
        if i < n {
          assert data[..i] == init[..i];
          assert data[i] == init[i];
        } else {
          assert data[..i] == init;
        }
      }
    }
  }

  class SQLiteDatabase {
    var people: seq<Person>
    var forms: seq<Form>
    /** The `expected_people_ids` column, by form id. */
    var expected: map<string, seq<string>>
    var responses: seq<Response>
    /** The `last_sync` metadata row. */
    var lastSync: Option<int>

    /** `__init__` on a new database file. */
    constructor()
      ensures people == [] && forms == [] && expected == map[] && responses == [] && lastSync == None
    {
      people, forms, expected, responses, lastSync := [], [], map[], [], None;
    }

    /** The expected people of a form (`json.loads` of the column, [] when it is empty). */
    function ExpectedOf(formId: string): seq<string>
      reads this
    {
      if formId in expected then expected[formId] else []
    }

    /** `add_person`: the email check ignores case, the psid check is exact, and the primary
        key refuses a reused id. */
    method AddPerson(person: Person) returns (ok: bool)
      modifies this`people
      ensures ok == AcceptsPerson(old(people), person)
      ensures people == if ok then old(people) + [person] else old(people)
    {
      if person.email != [] && PersonByEmailIgnoringCase(people, person.email).Some? {
        return false;
      }
      if person.psid != [] && PersonByPsid(people, person.psid).Some? {
        return false;
      }
      if PersonById(people, person.id).Some? {
        return false;
      }
      people := people + [person];
      return true;
    }

    /** `delete_person`: only the people row goes, whatever the comment about cascades says. */
    method DeletePerson(personId: string) returns (deleted: bool)
      modifies this`people
      ensures people == Filter(old(people), (p: Person) => p.id != personId)
      ensures deleted <==> exists i :: 0 <= i < |old(people)| && old(people)[i].id == personId
    {
      var before := |people|;
      FilterShrinks(people, (p: Person) => p.id != personId);
      people := Filter(people, (p: Person) => p.id != personId);
      deleted := |people| < before;
    }

    /** `add_form(form, expected_people_ids)`; `newId(k)` is the uuid of the k-th row. */
    method AddForm(form: Form, expectedIds: seq<string>, newId: nat -> string, now: int) returns (ok: bool)
      modifies this`forms, this`expected, this`responses
      ensures ok == AcceptsForm(old(forms), old(responses), form, expectedIds)
      ensures forms == if ok then old(forms) + [form] else old(forms)
      ensures expected == if ok then old(expected)[form.id := expectedIds] else old(expected)
      ensures responses == if ok then old(responses) + UnrespondedRows(form.id, expectedIds, newId, now) else old(responses)
    {
      if FormByGoogleId(forms, form.googleFormId).Some? {
        return false;
      }
      if !AcceptsForm(forms, responses, form, expectedIds) {
        // an INSERT raises and nothing is committed
        return false;
      }
      var rows: seq<Response> := [];
      for k := 0 to |expectedIds|
        invariant rows == UnrespondedRows(form.id, expectedIds[..k], newId, now)
      {
        assert expectedIds[..k + 1][..k] == expectedIds[..k];
        rows := rows + [NewResponse(newId(k), form.id, expectedIds[k], now)];
      }
      assert expectedIds[..|expectedIds|] == expectedIds;
      forms := forms + [form];
      expected := expected[form.id := expectedIds];
      responses := responses + rows;
      return true;
    }

    /** `get_form_stats(form_id)`. */
    function FormStatsOf(formId: string): FormStats
      reads this
    {
      GetFormStats(responses, formId)
    }

    /** `mark_as_responded`: updates the pair's row, and fails without changing anything when
        there is none. */
    method MarkAsResponded(formId: string, personId: string, date: Option<int>, now: int) returns (ok: bool)
      modifies this`responses
      ensures ok == HasPair(old(responses), formId, personId)
      ensures responses == if ok then SetResponded(old(responses), formId, personId, date, now) else old(responses)
    {
      ok := HasPair(responses, formId, personId);
      if ok {
        responses := SetResponded(responses, formId, personId, date, now);
      }
    }

    /** `record_reminder_sent`: succeeds exactly when the pair has a row. */
    method RecordReminderSent(formId: string, personId: string, now: int) returns (ok: bool)
      modifies this`responses
      ensures ok == HasPair(old(responses), formId, personId)
      ensures responses == SetReminded(old(responses), formId, personId, now)
    {
      ok := HasPair(responses, formId, personId);
      responses := SetReminded(responses, formId, personId, now);
    }

    /** `get_non_responders_for_form(form_id)`. */
    function NonRespondersFor(formId: string): seq<(Person, Response)>
      reads this
    {
      NonResponders(people, responses, formId)
    }

    /** `get_people_needing_reminders(form_id, cooldown_hours)` at time `now`. */
    function PeopleNeedingReminders(formId: string, cooldownHours: int, now: int): seq<(Person, Response)>
      reads this
    {
      NeedingReminders(people, responses, formId, cooldownHours, now)
    }

    /** `get_health_check()`. */
    function GetHealthCheck(): PlainHealth
      reads this
    {
      PlainHealthCheck(people, forms, responses)
    }

    /** `clear_all_data()`. */
    method ClearAllData() returns (ok: bool)
      modifies this
      ensures ok
      ensures people == [] && forms == [] && expected == map[] && responses == [] && lastSync == None
    {
      people, forms, expected, responses, lastSync := [], [], map[], [], None;
      return true;
    }

    /** `sync_google_forms_responses(google_responses)` at time `now`; `newId(n)` is the n-th
        fresh uuid, and no row belongs to any of them. An unknown Google id is skipped; every
        submission with an email counts one update or one error; a person the sync creates
        has no row, so it always counts an error too. */
    method SyncGoogleFormsResponses(data: GoogleForms.Collected, now: int, newId: nat -> string)
      returns (stats: SyncStats)
      modifies this`people, this`responses, this`lastSync
      requires NoRowsFor(responses, newId)
      ensures people == PlainSyncFold(forms, PlainSync(old(people), old(responses), 0), data, now, newId).people
      ensures responses == PlainSyncFold(forms, PlainSync(old(people), old(responses), 0), data, now, newId).responses
      ensures stats == PlainSyncTally(forms, PlainSync(old(people), old(responses), 0), data, now, newId)
      ensures stats.updated + stats.errors == Markable(forms, data)
      ensures stats.created <= stats.errors
      ensures OnlyMarked(old(responses), responses)
      ensures |people| == |old(people)| + stats.created && old(people) <= people
      ensures lastSync == Some(now)
    {
      ghost var s0 := PlainSync(people, responses, 0);
      stats := SyncStats(0, 0, 0);
      var ids: nat := 0;
      for i := 0 to |data|
        invariant PlainSync(people, responses, ids) == PlainSyncFold(forms, s0, data[..i], now, newId)
        invariant stats == PlainSyncTally(forms, s0, data[..i], now, newId)
        invariant NoRowsFor(responses, newId)
      {
        assert data[..i + 1][..i] == data[..i];
        var form := FormByGoogleId(forms, data[i].0);
        if form.Some? {
          var counts;
          counts, ids := SyncEntries(form.value.id, data[i].1, now, newId, ids);
          stats := Plus(stats, counts);
        }
      }
      assert data[..|data|] == data;
      PlainSyncCounts(forms, s0, data, now, newId);
      lastSync := Some(now);
    }

    /** The submissions of one known form. */
    method SyncEntries(formId: string, entries: seq<GoogleForms.Submission>, now: int, newId: nat -> string, ids: nat)
      returns (counts: SyncStats, nextIds: nat)
      modifies this`people, this`responses
      requires NoRowsFor(responses, newId)
      ensures PlainSync(people, responses, nextIds) == PlainEntriesFold(formId, PlainSync(old(people), old(responses), ids), entries, now, newId)
      ensures counts == PlainEntriesTally(formId, PlainSync(old(people), old(responses), ids), entries, now, newId)
      ensures counts.updated + counts.errors == WithSyncEmail(entries)
      ensures counts.created <= counts.errors
      ensures |people| == |old(people)| + counts.created && old(people) <= people
      ensures NoRowsFor(responses, newId) && OnlyMarked(old(responses), responses)
    {
      ghost var s0 := PlainSync(people, responses, ids);
      counts, nextIds := SyncStats(0, 0, 0), ids;
      for j := 0 to |entries|
        invariant PlainSync(people, responses, nextIds) == PlainEntriesFold(formId, s0, entries[..j], now, newId)
        invariant counts == PlainEntriesTally(formId, s0, entries[..j], now, newId)
        invariant NoRowsFor(responses, newId)
      {
        var outcome;
        outcome, nextIds := SyncSubmission(formId, entries[j], now, newId, nextIds);
        counts := Plus(counts, PlainTally(outcome));
        assert counts == PlainEntriesTally(formId, s0, entries[..j + 1], now, newId) by {
          PlainEntriesTallySnoc(formId, s0, entries, j, now, newId);
        }
        assert PlainSync(people, responses, nextIds) == PlainEntriesFold(formId, s0, entries[..j + 1], now, newId) by {
          PlainEntriesFoldSnoc(formId, s0, entries, j, now, newId);
        }
      }
      assert entries[..|entries|] == entries;
      PlainEntriesCounts(formId, s0, entries, now, newId);
    }

    /** One submission: ignored without an email; otherwise credited to the first person with
        that email ignoring case, or to a person created for it, whose row is then marked. */
    method SyncSubmission(formId: string, entry: GoogleForms.Submission, now: int, newId: nat -> string, ids: nat)
      returns (outcome: PlainOutcome, nextIds: nat)
      modifies this`people, this`responses
      requires NoRowsFor(responses, newId)
      ensures outcome.Ignored? <==> !HasSyncEmail(entry)
      ensures outcome.Ignored? || outcome.NotCreated? ==> people == old(people) && responses == old(responses)
      ensures outcome.Credited? ==>
        var email := GoogleForms.Normalize(entry.email);
        var found := PersonByEmailIgnoringCase(old(people), email);
        (if outcome.created
         then found.None? && outcome.personId == newId(ids) &&
              people == old(people) + [Person(newId(ids), PlainSyncName(entry, email), email, "", now, now)]
         else found.Some? && found.value.id == outcome.personId && people == old(people)) &&
        outcome.marked == HasPair(old(responses), formId, outcome.personId) &&
        responses == (if outcome.marked then SetResponded(old(responses), formId, outcome.personId, SyncDate(entry.timestamp, now), now)
                      else old(responses))
      ensures outcome.Credited? && outcome.created ==> !outcome.marked
      ensures |people| == |old(people)| + (if outcome.Credited? && outcome.created then 1 else 0) && old(people) <= people
      ensures NoRowsFor(responses, newId) && OnlyMarked(old(responses), responses)
      ensures nextIds == ids + 1
      ensures outcome == PlainOutcomeOf(formId, PlainSync(old(people), old(responses), ids),
                                        PlainCreditFor(PlainSync(old(people), old(responses), ids), entry, now, newId))
      ensures PlainSync(people, responses, nextIds) == PlainStep(formId, PlainSync(old(people), old(responses), ids), entry, now, newId)
    {
      nextIds := ids + 1;
      var email := GoogleForms.Normalize(entry.email);
      SyncEmailIff(entry);
      if email == [] {
        return Ignored, nextIds;
      }
      var person := PersonByEmailIgnoringCase(people, email);
      var createdOne := false;
      if person.None? {
        var newcomer := Person(newId(ids), PlainSyncName(entry, email), email, "", now, now);
        var added := AddPerson(newcomer);
        if !added {
          return NotCreated, nextIds;
        }
        createdOne := true;
        person := Some(newcomer);
      }
      var ok := MarkAsResponded(formId, person.value.id, SyncDate(entry.timestamp, now), now);
      if ok {
        SetRespondedOnlyMarks(old(responses), formId, person.value.id, SyncDate(entry.timestamp, now), now, newId);
      }
      return Credited(person.value.id, createdOne, ok), nextIds;
    }
  }
}
