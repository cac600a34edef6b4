/**
 * STN-botv2/database/managers.py: `StreamlitDatabase`, the session-state store
 * that keeps people, forms and responses as Python lists. Every operation is a
 * method on a class whose fields are those lists; deleting a person or a form
 * removes its responses; marking a response or recording a reminder creates the
 * missing row; the sync loop creates unknown people. Dict records are the
 * ModelsV2 datatypes; `now` and fresh ids are parameters.
 */
module MemoryStore {
  import opened Wrappers
  import opened Text
  import opened Seqs
  import opened ModelsV2
  import opened Relations
  import GoogleForms

  // ----- people -----

  /** `get_person_by_email`: compares normalised emails. */
  function PersonByEmail(people: seq<Person>, email: string): Option<Person> {
    First(people, (p: Person) => NormalizeEmail(p.email) == Strip(Lower(email)))
  }


  /** The duplicate checks of `add_person`. */
  predicate AcceptsPerson(people: seq<Person>, person: Person) {
    !(person.email != [] && PersonByEmail(people, person.email).Some?) &&
    !(person.psid != [] && PersonByPsid(people, person.psid).Some?)
  }

  /** A person is accepted exactly when no stored person has the same normalised email
      (for a non-empty email) nor the same psid (for a non-empty psid). */
  lemma AcceptsPersonIff(people: seq<Person>, person: Person)
    ensures AcceptsPerson(people, person) <==>
      (person.email == [] || forall i :: 0 <= i < |people| ==> NormalizeEmail(people[i].email) != NormalizeEmail(person.email)) &&
      (person.psid == [] || forall i :: 0 <= i < |people| ==> people[i].psid != person.psid)
  {
  }

  function PeopleWithoutId(people: seq<Person>, id: string): seq<Person> {
    Filter(people, (p: Person) => p.id != id)
  }

  function ResponsesWithoutPerson(rs: seq<Response>, personId: string): seq<Response> {
    Filter(rs, (r: Response) => r.personId != personId)
  }

  function FormsWithoutId(forms: seq<Form>, id: string): seq<Form> {
    Filter(forms, (f: Form) => f.id != id)
  }

  function ResponsesWithoutForm(rs: seq<Response>, formId: string): seq<Response> {
    Filter(rs, (r: Response) => r.formId != formId)
  }

  // ----- responses keyed by (form, person) -----

  /** The shared shape of `add_or_update_response`, `mark_as_responded` and
      `record_reminder_sent`: the row of the pair, if any, is rewritten by `change`
      (through `update_response`, which finds it again by id), otherwise `newRow` is appended. */
  function UpsertPair(rs: seq<Response>, formId: string, personId: string, change: Response -> Response, newRow: Response): seq<Response> {
    var existing := ResponseByPair(rs, formId, personId);
    if existing.Some? then ReplaceFirst(rs, (r: Response) => r.id == existing.value.id, change(existing.value))
    else rs + [newRow]
  }

  /** The pair's row after an upsert that rewrote row `k` (or appended at `k == |rs|`) with `row`. */
  lemma PairRowAt(rs: seq<Response>, formId: string, personId: string, k: nat, row: Response, u: seq<Response>)
    requires k <= |rs| && row.formId == formId && row.personId == personId
    requires forall j :: 0 <= j < k ==> !(rs[j].formId == formId && rs[j].personId == personId)
    requires u == if k < |rs| then rs[k := row] else rs + [row]
    ensures ResponseByPair(u, formId, personId) == Some(row)
  {
    FirstIndexUnique(u, (r: Response) => r.formId == formId && r.personId == personId, k);
  }

  /** Rewriting a row without touching its id or its pair keeps the table valid. */
  lemma RewriteKeepsValid(rs: seq<Response>, k: nat, row: Response)
    requires ResponsesValid(rs) && k < |rs|
    requires row.id == rs[k].id && row.formId == rs[k].formId && row.personId == rs[k].personId
    ensures ResponsesValid(rs[k := row])
  {
    var u := rs[k := row];
    assert forall i :: 0 <= i < |u| ==> u[i].id == rs[i].id && u[i].formId == rs[i].formId && u[i].personId == rs[i].personId;
  }

  /** Appending a row with a new id and a new pair keeps the table valid. */
  lemma AppendKeepsValid(rs: seq<Response>, row: Response)
    requires ResponsesValid(rs)
    requires forall i :: 0 <= i < |rs| ==> rs[i].id != row.id
    requires forall i :: 0 <= i < |rs| ==> !(rs[i].formId == row.formId && rs[i].personId == row.personId)
    ensures ResponsesValid(rs + [row])
  {
  }

  /** In a valid table, the upsert keeps the table valid, never adds a row for a pair that
      has one, and leaves exactly one row for the pair: the changed one or the new one. */
  lemma UpsertPairSpec(rs: seq<Response>, formId: string, personId: string, change: Response -> Response, newRow: Response)
    requires ResponsesValid(rs)
    requires var e := ResponseByPair(rs, formId, personId);
      e.Some? ==> change(e.value).id == e.value.id && change(e.value).formId == formId && change(e.value).personId == personId
    requires newRow.formId == formId && newRow.personId == personId
    requires forall i :: 0 <= i < |rs| ==> rs[i].id != newRow.id
    ensures ResponsesValid(UpsertPair(rs, formId, personId, change, newRow))
    ensures var existing := ResponseByPair(rs, formId, personId);
      ResponseByPair(UpsertPair(rs, formId, personId, change, newRow), formId, personId) ==
        (if existing.Some? then Some(change(existing.value)) else Some(newRow))
    ensures |UpsertPair(rs, formId, personId, change, newRow)| == |rs| + (if ResponseByPair(rs, formId, personId).Some? then 0 else 1)
  {
    var existing := ResponseByPair(rs, formId, personId);
    var u := UpsertPair(rs, formId, personId, change, newRow);
    var k := FirstIndex(rs, (r: Response) => r.formId == formId && r.personId == personId);
    if existing.Some? {
      var e := existing.value;
      FirstIndexUnique(rs, (r: Response) => r.id == e.id, k);
      assert u == rs[k := change(e)];
      RewriteKeepsValid(rs, k, change(e));
      PairRowAt(rs, formId, personId, k, change(e), u);
    } else {
      AppendKeepsValid(rs, newRow);
      PairRowAt(rs, formId, personId, k, newRow, u);
    }
  }

  /** `add_or_update_response(response)` at time `now`. */
  function AddOrUpdated(rs: seq<Response>, response: Response, now: int): seq<Response> {
    UpsertPair(rs, response.formId, response.personId,
               (e: Response) => response.(id := e.id, createdAt := e.createdAt, updatedAt := now),
               response.(updatedAt := now))
  }

  /** `mark_as_responded(form_id, person_id, response_date)` at time `now`. */
  function MarkedResponded(rs: seq<Response>, formId: string, personId: string, date: Option<int>, now: int, freshId: string): seq<Response> {
    UpsertPair(rs, formId, personId,
               (e: Response) => Responded(e, date, now).(updatedAt := now),
               Response(freshId, formId, personId, true, Some(date.GetOr(now)), None, 0, "", now, now))
  }

  /** `record_reminder_sent(form_id, person_id)` at time `now`. */
  function ReminderLogged(rs: seq<Response>, formId: string, personId: string, now: int, freshId: string): seq<Response> {
    UpsertPair(rs, formId, personId,
               (e: Response) => ReminderRecorded(e, now).(updatedAt := now),
               Response(freshId, formId, personId, false, None, Some(now), 1, "", now, now))
  }

  /** An upsert keeps the existing row's id and creation time. */
  lemma AddOrUpdateKeepsIdentity(rs: seq<Response>, response: Response, now: int)
    requires ResponsesValid(rs)
    requires forall i :: 0 <= i < |rs| ==> rs[i].id != response.id
    ensures ResponsesValid(AddOrUpdated(rs, response, now))
    ensures var existing := ResponseByPair(rs, response.formId, response.personId);
      var row := ResponseByPair(AddOrUpdated(rs, response, now), response.formId, response.personId);
      row.Some? && (existing.Some? ==> row.value.id == existing.value.id && row.value.createdAt == existing.value.createdAt)
    ensures |AddOrUpdated(rs, response, now)| == |rs| + (if ResponseByPair(rs, response.formId, response.personId).Some? then 0 else 1)
  {
    UpsertPairSpec(rs, response.formId, response.personId,
                   (e: Response) => response.(id := e.id, createdAt := e.createdAt, updatedAt := now),
                   response.(updatedAt := now));
  }

  /** After marking, the pair has exactly one row, it is responded, and its reminder count
      is the one it had (0 for a created row); marking again changes no count. */
  lemma MarkedRespondedSpec(rs: seq<Response>, formId: string, personId: string, date: Option<int>, now: int, freshId: string)
    requires ResponsesValid(rs)
    requires forall i :: 0 <= i < |rs| ==> rs[i].id != freshId
    ensures ResponsesValid(MarkedResponded(rs, formId, personId, date, now, freshId))
    ensures var row := ResponseByPair(MarkedResponded(rs, formId, personId, date, now, freshId), formId, personId);
      var existing := ResponseByPair(rs, formId, personId);
      row.Some? && row.value.hasResponded && row.value.responseDate == Some(date.GetOr(now)) &&
      row.value.reminderCount == (if existing.Some? then existing.value.reminderCount else 0) &&
      row.value.lastReminder == (if existing.Some? then existing.value.lastReminder else None)
  {
    UpsertPairSpec(rs, formId, personId,
                   (e: Response) => Responded(e, date, now).(updatedAt := now),
                   Response(freshId, formId, personId, true, Some(date.GetOr(now)), None, 0, "", now, now));
  }

  /** Recording a reminder adds one to the pair's count, or creates its row with a count of 1. */
  lemma ReminderLoggedSpec(rs: seq<Response>, formId: string, personId: string, now: int, freshId: string)
    requires ResponsesValid(rs)
    requires forall i :: 0 <= i < |rs| ==> rs[i].id != freshId
    ensures ResponsesValid(ReminderLogged(rs, formId, personId, now, freshId))
    ensures var row := ResponseByPair(ReminderLogged(rs, formId, personId, now, freshId), formId, personId);
      var existing := ResponseByPair(rs, formId, personId);
      row.Some? && row.value.lastReminder == Some(now) &&
      row.value.reminderCount == (if existing.Some? then existing.value.reminderCount + 1 else 1) &&
      row.value.hasResponded == (existing.Some? && existing.value.hasResponded)
  {
    UpsertPairSpec(rs, formId, personId,
                   (e: Response) => ReminderRecorded(e, now).(updatedAt := now),
                   Response(freshId, formId, personId, false, None, Some(now), 1, "", now, now));
  }

  // ----- health -----

  /** Deleting a person with its responses never creates an orphan. */
  lemma DeletePersonKeepsHealthy(people: seq<Person>, forms: seq<Form>, rs: seq<Response>, personId: string)
    requires Orphans(people, forms, rs) == 0
    ensures Orphans(PeopleWithoutId(people, personId), forms, ResponsesWithoutPerson(rs, personId)) == 0
  {
    var people', rs' := PeopleWithoutId(people, personId), ResponsesWithoutPerson(rs, personId);
    OrphansZeroIff(people, forms, rs);
    forall i | 0 <= i < |rs'| ensures !Orphan(people', forms, rs'[i]) {
      var r := rs'[i];
      FilterMembership(rs, (x: Response) => x.personId != personId, r);
      var j :| 0 <= j < |rs| && rs[j] == r;
      assert !Orphan(people, forms, rs[j]);
      var p := PersonById(people, r.personId).value;
      FilterMembership(people, (x: Person) => x.id != personId, p);
    }
    OrphansZeroIff(people', forms, rs');
  }

  /** Deleting a form with its responses never creates an orphan. */
  lemma DeleteFormKeepsHealthy(people: seq<Person>, forms: seq<Form>, rs: seq<Response>, formId: string)
    requires Orphans(people, forms, rs) == 0
    ensures Orphans(people, FormsWithoutId(forms, formId), ResponsesWithoutForm(rs, formId)) == 0
  {
    var forms', rs' := FormsWithoutId(forms, formId), ResponsesWithoutForm(rs, formId);
    OrphansZeroIff(people, forms, rs);
    forall i | 0 <= i < |rs'| ensures !Orphan(people, forms', rs'[i]) {
      var r := rs'[i];
      FilterMembership(rs, (x: Response) => x.formId != formId, r);
      var j :| 0 <= j < |rs| && rs[j] == r;
      assert !Orphan(people, forms, rs[j]);
      var f := FormById(forms, r.formId).value;
      FilterMembership(forms, (x: Form) => x.id != formId, f);
    }
    OrphansZeroIff(people, forms', rs');
  }

  datatype HealthReport = HealthReport(healthy: bool, peopleCount: nat, formsCount: nat, responsesCount: nat,
                                       orphanedResponses: nat, lastSync: Option<int>, databaseVersion: string)

  // ----- joins with people -----

  /** `get_all_non_responders`: form name to its non-responders; a later form with the same name wins. */
  function NonRespondersByName(activeForms: seq<Form>, people: seq<Person>, rs: seq<Response>): map<string, seq<(Person, Response)>> {
    if activeForms == [] then map[]
    else
      var f := activeForms[|activeForms| - 1];
      NonRespondersByName(activeForms[..|activeForms| - 1], people, rs)[f.name := JoinPeople(people, GetNonResponders(FilterResponsesByForm(rs, f.id)))]
  }

  // ----- synchronisation -----

  datatype SyncStats = SyncStats(updated: nat, created: nat, errors: nat)

  /** `full_name`, falling back to the part of the email before the first '@'. */
  function SyncName(sub: GoogleForms.Submission, email: string): string {
    var fullName := Strip(sub.firstName + " " + sub.lastName);
    if fullName != [] then fullName else email[..Find(email, '@')]
  }

  /** What the sync carries from one submission to the next: the people, the response rows
      and how many fresh ids it has drawn. */
  datatype SyncState = SyncState(people: seq<Person>, responses: seq<Response>, ids: nat)

  /** The submitter of a submission with normalised email `email`: the person with that
      email, or a new one appended with the next fresh id. Gives the people, the person's id
      and the ids drawn so far. */
  function Submitter(s: SyncState, entry: GoogleForms.Submission, email: string, now: int, newId: nat -> string): (seq<Person>, string, nat) {
    var found := PersonByEmail(s.people, email);
    if found.Some? then (s.people, found.value.id, s.ids)
    else (s.people + [Person(newId(s.ids), SyncName(entry, email), email, "", now, now)], newId(s.ids), s.ids + 1)
  }

  /** One submission of the sync on `form`: skipped when its normalised email is empty;
      otherwise its submitter is found or created, then its row is marked as responded with
      one more fresh id. */
  function EntryStep(form: Form, s: SyncState, entry: GoogleForms.Submission, now: int, newId: nat -> string): SyncState {
    var email := Strip(Lower(entry.email));
    if email == [] then s
    else
      var who := Submitter(s, entry, email, now, newId);
      SyncState(who.0, MarkedResponded(s.responses, form.id, who.1, SyncDate(entry.timestamp, now), now, newId(who.2)), who.2 + 1)
  }

  /** The submissions of one form, in order. */
  function EntriesFold(form: Form, s: SyncState, entries: seq<GoogleForms.Submission>, now: int, newId: nat -> string): SyncState {
    if entries == [] then s
    else EntryStep(form, EntriesFold(form, s, entries[..|entries| - 1], now, newId), entries[|entries| - 1], now, newId)
  }

  /** The submissions of a form up to and including the `j`-th. */
  lemma EntriesFoldSnoc(form: Form, s: SyncState, entries: seq<GoogleForms.Submission>, j: nat, now: int, newId: nat -> string)
    requires j < |entries|
    ensures EntriesFold(form, s, entries[..j + 1], now, newId) ==
      EntryStep(form, EntriesFold(form, s, entries[..j], now, newId), entries[j], now, newId)
  {
    assert entries[..j + 1][..j] == entries[..j];
  }

  /** The whole collection, in order; a Google id that no stored form carries is skipped. */
  function SyncFold(forms: seq<Form>, s: SyncState, data: GoogleForms.Collected, now: int, newId: nat -> string): SyncState {
    if data == [] then s
    else
      var before := SyncFold(forms, s, data[..|data| - 1], now, newId);
      var last := data[|data| - 1];
      var form := FormByGoogleId(forms, last.0);
      if form.Some? then EntriesFold(form.value, before, last.1, now, newId) else before
  }

  /** The pair has a row and it is marked as responded. */
  predicate RespondedPair(rs: seq<Response>, formId: string, personId: string) {
    var r := ResponseByPair(rs, formId, personId);
    r.Some? && r.value.hasResponded
  }

  /** No row of `rs` carries an id that `newId` draws from the `n`-th on. */
  ghost predicate FreshFrom(rs: seq<Response>, newId: nat -> string, n: nat) {
    forall i, k :: 0 <= i < |rs| && n <= k ==> rs[i].id != newId(k)
  }

  /** Distinct draws give distinct ids. */
  ghost predicate Injective(newId: nat -> string) {
    forall a, b :: a != b ==> newId(a) != newId(b)
  }

  /** Marking keeps every row's id, or adds the one row carrying `freshId`. */
  lemma MarkedRespondedIds(rs: seq<Response>, formId: string, personId: string, date: Option<int>, now: int, freshId: string)
    requires ResponsesValid(rs)
    ensures var u := MarkedResponded(rs, formId, personId, date, now, freshId);
      forall i :: 0 <= i < |u| ==> (i < |rs| && u[i].id == rs[i].id) || u[i].id == freshId
  {
    var existing := ResponseByPair(rs, formId, personId);
    if existing.Some? {
      var e := existing.value;
      var m := FirstIndex(rs, (r: Response) => r.formId == formId && r.personId == personId);
      FirstIndexUnique(rs, (r: Response) => r.id == e.id, m);
    }
  }

  /** Marking one pair leaves the row of every other pair as it was. */
  lemma MarkedRespondedFrame(rs: seq<Response>, formId: string, personId: string, date: Option<int>, now: int, freshId: string,
                             otherForm: string, otherPerson: string)
    requires ResponsesValid(rs)
    requires !(otherForm == formId && otherPerson == personId)
    ensures ResponseByPair(MarkedResponded(rs, formId, personId, date, now, freshId), otherForm, otherPerson) == ResponseByPair(rs, otherForm, otherPerson)
  {
    var u := MarkedResponded(rs, formId, personId, date, now, freshId);
    var other := (r: Response) => r.formId == otherForm && r.personId == otherPerson;
    var k := FirstIndex(rs, other);
    var existing := ResponseByPair(rs, formId, personId);
    if existing.Some? {
      var e := existing.value;
      var m := FirstIndex(rs, (r: Response) => r.formId == formId && r.personId == personId);
      FirstIndexUnique(rs, (r: Response) => r.id == e.id, m);
      assert m < |rs| && rs[m].formId == formId && rs[m].personId == personId;
      assert u == rs[m := Responded(e, date, now).(updatedAt := now)];
      assert k < |rs| ==> k != m && u[k] == rs[k] && other(rs[k]);
      forall j | 0 <= j < k ensures !other(u[j]) {
        assert j != m ==> u[j] == rs[j];
      }
      FirstIndexUnique(u, other, k);
    } else {
      assert u == rs + [Response(freshId, formId, personId, true, Some(date.GetOr(now)), None, 0, "", now, now)];
      FirstIndexUnique(u, other, if k < |rs| then k else |u|);
    }
  }

  /** The submission's email belongs to a person whose pair with the form is responded. */
  ghost predicate SubmitterResponded(t: SyncState, formId: string, entry: GoogleForms.Submission) {
    exists q :: q in t.people && NormalizeEmail(q.email) == Strip(Lower(entry.email)) && RespondedPair(t.responses, formId, q.id)
  }

  /** The sync only moves forward: people are appended and responded pairs stay responded. */
  ghost predicate Advances(s: SyncState, t: SyncState) {
    s.people <= t.people && forall f, p :: RespondedPair(s.responses, f, p) ==> RespondedPair(t.responses, f, p)
  }

  /** A submitter already responded stays so as the sync advances. */
  lemma SubmitterStaysResponded(s: SyncState, t: SyncState, formId: string, entry: GoogleForms.Submission)
    requires Advances(s, t) && SubmitterResponded(s, formId, entry)
    ensures SubmitterResponded(t, formId, entry)
  {
    var q :| q in s.people && NormalizeEmail(q.email) == Strip(Lower(entry.email)) && RespondedPair(s.responses, formId, q.id);
    assert q in t.people;
  }

  /** One step of the sync keeps the table valid and its fresh ids unused, advances, and
      leaves the submitter's pair responded. */
  lemma EntryStepSpec(form: Form, s: SyncState, entry: GoogleForms.Submission, now: int, newId: nat -> string)
    requires ResponsesValid(s.responses) && FreshFrom(s.responses, newId, s.ids) && Injective(newId)
    ensures var t := EntryStep(form, s, entry, now, newId);
      ResponsesValid(t.responses) && FreshFrom(t.responses, newId, t.ids) && s.ids <= t.ids && Advances(s, t)
    ensures HasSyncEmail(entry) ==> SubmitterResponded(EntryStep(form, s, entry, now, newId), form.id, entry)
  {
    var t := EntryStep(form, s, entry, now, newId);
    var email := Strip(Lower(entry.email));
    SyncEmailIff(entry);
    if email != [] {
      var found := PersonByEmail(s.people, email);
      var personId := if found.Some? then found.value.id else newId(s.ids);
      var ids := if found.Some? then s.ids else s.ids + 1;
      var date := SyncDate(entry.timestamp, now);
      assert t.responses == MarkedResponded(s.responses, form.id, personId, date, now, newId(ids));
      MarkedRespondedSpec(s.responses, form.id, personId, date, now, newId(ids));
      MarkedRespondedIds(s.responses, form.id, personId, date, now, newId(ids));
      forall f, p | RespondedPair(s.responses, f, p)
        ensures RespondedPair(t.responses, f, p)
      {
        if !(f == form.id && p == personId) {
          MarkedRespondedFrame(s.responses, form.id, personId, date, now, newId(ids), f, p);
        }
      }
      StripLowerIdempotent(entry.email);
      var q := if found.Some? then found.value else Person(newId(s.ids), SyncName(entry, email), email, "", now, now);
      assert q in t.people;
      assert NormalizeEmail(q.email) == email;
      assert RespondedPair(t.responses, form.id, q.id);
    }
  }

  /** The steps of one form compose: the table stays valid with its fresh ids unused, the
      sync advances, and every submission with an email has its person responded. */
  lemma {:induction false} EntriesFoldSpec(form: Form, s: SyncState, entries: seq<GoogleForms.Submission>, now: int, newId: nat -> string)
    requires ResponsesValid(s.responses) && FreshFrom(s.responses, newId, s.ids) && Injective(newId)
    ensures var t := EntriesFold(form, s, entries, now, newId);
      ResponsesValid(t.responses) && FreshFrom(t.responses, newId, t.ids) && s.ids <= t.ids && Advances(s, t)
    ensures forall j :: 0 <= j < |entries| && HasSyncEmail(entries[j]) ==>
      SubmitterResponded(EntriesFold(form, s, entries, now, newId), form.id, entries[j])
  {
    if entries != [] {
      var init := entries[..|entries| - 1];
      var mid := EntriesFold(form, s, init, now, newId);
      var t := EntriesFold(form, s, entries, now, newId);
      EntriesFoldSpec(form, s, init, now, newId);
      EntryStepSpec(form, mid, entries[|entries| - 1], now, newId);
      forall j | 0 <= j < |entries| - 1 && HasSyncEmail(entries[j])
        ensures SubmitterResponded(t, form.id, entries[j])
      {
        assert init[j] == entries[j];
        SubmitterStaysResponded(mid, t, form.id, entries[j]);
      }
    }
  }

  /** The sync over a whole collection keeps the table valid, advances, and leaves responded
      the person of every submission with an email whose form the store knows. */
  lemma {:induction false} SyncMarksEverySubmission(forms: seq<Form>, s: SyncState, data: GoogleForms.Collected, now: int, newId: nat -> string)
    requires ResponsesValid(s.responses) && FreshFrom(s.responses, newId, s.ids) && Injective(newId)
    ensures var t := SyncFold(forms, s, data, now, newId);
      ResponsesValid(t.responses) && FreshFrom(t.responses, newId, t.ids) && Advances(s, t)
    ensures forall i, j :: 0 <= i < |data| && FormByGoogleId(forms, data[i].0).Some? && 0 <= j < |data[i].1| && HasSyncEmail(data[i].1[j]) ==>
      SubmitterResponded(SyncFold(forms, s, data, now, newId), FormByGoogleId(forms, data[i].0).value.id, data[i].1[j])
  {
    if data != [] {
      var init := data[..|data| - 1];
      var last := data[|data| - 1];
      var mid := SyncFold(forms, s, init, now, newId);
      var t := SyncFold(forms, s, data, now, newId);
      SyncMarksEverySubmission(forms, s, init, now, newId);
      var form := FormByGoogleId(forms, last.0);
      if form.Some? {
        EntriesFoldSpec(form.value, mid, last.1, now, newId);
      }
      forall i, j | 0 <= i < |data| - 1 && FormByGoogleId(forms, data[i].0).Some? && 0 <= j < |data[i].1| && HasSyncEmail(data[i].1[j])
        ensures SubmitterResponded(t, FormByGoogleId(forms, data[i].0).value.id, data[i].1[j])
      {
        assert init[i] == data[i];
        SubmitterStaysResponded(mid, t, FormByGoogleId(forms, data[i].0).value.id, data[i].1[j]);
      }
    }
  }

  // ----- export / import -----

  datatype Tables = Tables(people: seq<Person>, forms: seq<Form>, responses: seq<Response>, lastSync: Option<int>)

  /** `export_to_dict()`. */
  datatype Export = Export(people: seq<Person>, forms: seq<Form>, responses: seq<Response>, lastSync: Option<int>,
                           databaseVersion: string, exportDate: int)

  /** The input of `import_from_dict`: `None` for a missing key. */
  datatype ImportData = ImportData(people: Option<seq<Person>>, forms: Option<seq<Form>>, responses: Option<seq<Response>>,
                                   lastSync: Option<int>)

  function Exported(t: Tables, now: int): Export {
    Export(t.people, t.forms, t.responses, t.lastSync, "2.0", now)
  }

  function AsImport(e: Export): ImportData {
    ImportData(Some(e.people), Some(e.forms), Some(e.responses), e.lastSync)
  }

  /** The tables after `import_from_dict(data)`: a missing list becomes empty, a missing
      `last_sync` keeps the previous one. */
  function Imported(t: Tables, data: ImportData): Tables {
    Tables(data.people.GetOr([]), data.forms.GetOr([]), data.responses.GetOr([]),
           if data.lastSync.Some? then data.lastSync else t.lastSync)
  }

  /** Importing an export restores every table; the last sync time is restored when the
      export had one and is otherwise left as it was before the import. */
  lemma ImportExportRoundTrip(t: Tables, before: Tables, now: int)
    ensures Imported(before, AsImport(Exported(t, now))) ==
      t.(lastSync := if t.lastSync.Some? then t.lastSync else before.lastSync)
  {
  }

  // ----- the store -----

  class StreamlitDatabase {
    var people: seq<Person>
    var forms: seq<Form>
    var responses: seq<Response>
    var lastSync: Option<int>

    /** `_initialize_database` on a fresh session. */
    constructor()
      ensures people == [] && forms == [] && responses == [] && lastSync == None
    {
      people, forms, responses, lastSync := [], [], [], None;
    }

    function State(): Tables
      reads this
    {
      Tables(people, forms, responses, lastSync)
    }

    /** `add_person`. */
    method AddPerson(person: Person, now: int) returns (ok: bool)
      modifies this`people
      ensures ok == AcceptsPerson(old(people), person)
      ensures people == if ok then old(people) + [person.(updatedAt := now)] else old(people)
    {
      if person.email != [] && PersonByEmail(people, person.email).Some? {
        return false;
      }
      if person.psid != [] && PersonByPsid(people, person.psid).Some? {
        return false;
      }
      people := people + [person.(updatedAt := now)];
      return true;
    }

    /** `update_person`: the first person with the same id is replaced. */
    method UpdatePerson(person: Person, now: int) returns (ok: bool)
      modifies this`people
      ensures ok <==> exists i :: 0 <= i < |old(people)| && old(people)[i].id == person.id
      ensures people == ReplaceFirst(old(people), (p: Person) => p.id == person.id, person.(updatedAt := now))
    {
      people, ok := ReplaceFirstLoop(people, (p: Person) => p.id == person.id, person.(updatedAt := now));
    }

    /** `delete_person`: the person's responses go first, then the person. */
    method DeletePerson(personId: string) returns (deleted: bool)
      modifies this`people, this`responses
      ensures responses == ResponsesWithoutPerson(old(responses), personId)
      ensures people == PeopleWithoutId(old(people), personId)
      ensures deleted <==> exists i :: 0 <= i < |old(people)| && old(people)[i].id == personId
    {
      responses := ResponsesWithoutPerson(responses, personId);
      var initialCount := |people|;
      FilterShrinks(people, (p: Person) => p.id != personId);
      people := PeopleWithoutId(people, personId);
      deleted := |people| < initialCount;
    }

    /** `add_form`: refused when a form already has the Google id (even an empty one). */
    method AddForm(form: Form, now: int) returns (ok: bool)
      modifies this`forms
      ensures ok <==> forall i :: 0 <= i < |old(forms)| ==> old(forms)[i].googleFormId != form.googleFormId
      ensures forms == if ok then old(forms) + [form.(updatedAt := now)] else old(forms)
    {
      if FormByGoogleId(forms, form.googleFormId).Some? {
        return false;
      }
      forms := forms + [form.(updatedAt := now)];
      return true;
    }

    /** `get_active_forms`. */
    function ActiveForms(): seq<Form>
      reads this
    {
      Filter(forms, (f: Form) => f.isActive)
    }

    /** `update_form`. */
    method UpdateForm(form: Form, now: int) returns (ok: bool)
      modifies this`forms
      ensures ok <==> exists i :: 0 <= i < |old(forms)| && old(forms)[i].id == form.id
      ensures forms == ReplaceFirst(old(forms), (f: Form) => f.id == form.id, form.(updatedAt := now))
    {
      forms, ok := ReplaceFirstLoop(forms, (f: Form) => f.id == form.id, form.(updatedAt := now));
    }

    /** `delete_form`: the form's responses go first, then the form. */
    method DeleteForm(formId: string) returns (deleted: bool)
      modifies this`forms, this`responses
      ensures responses == ResponsesWithoutForm(old(responses), formId)
      ensures forms == FormsWithoutId(old(forms), formId)
      ensures deleted <==> exists i :: 0 <= i < |old(forms)| && old(forms)[i].id == formId
    {
      responses := ResponsesWithoutForm(responses, formId);
      var initialCount := |forms|;
      FilterShrinks(forms, (f: Form) => f.id != formId);
      forms := FormsWithoutId(forms, formId);
      deleted := |forms| < initialCount;
    }

    /** `update_response`. */
    method UpdateResponse(response: Response, now: int) returns (ok: bool)
      modifies this`responses
      ensures ok <==> exists i :: 0 <= i < |old(responses)| && old(responses)[i].id == response.id
      ensures responses == ReplaceFirst(old(responses), (r: Response) => r.id == response.id, response.(updatedAt := now))
    {
      responses, ok := ReplaceFirstLoop(responses, (r: Response) => r.id == response.id, response.(updatedAt := now));
    }

    /** `add_or_update_response`. */
    method AddOrUpdateResponse(response: Response, now: int) returns (ok: bool)
      modifies this`responses
      ensures ok
      ensures responses == AddOrUpdated(old(responses), response, now)
    {
      var existing := ResponseByPair(responses, response.formId, response.personId);
      if existing.Some? {
        assert responses[FirstIndex(responses, (r: Response) => r.formId == response.formId && r.personId == response.personId)].id == existing.value.id;
        ok := UpdateResponse(response.(id := existing.value.id, createdAt := existing.value.createdAt), now);
      } else {
        responses := responses + [response.(updatedAt := now)];
        ok := true;
      }
    }

    /** `mark_as_responded`: the existing row is marked, or a responded row is created. */
    method MarkAsResponded(formId: string, personId: string, date: Option<int>, now: int, freshId: string) returns (ok: bool)
      modifies this`responses
      ensures ok
      ensures responses == MarkedResponded(old(responses), formId, personId, date, now, freshId)
    {
      var existing := ResponseByPair(responses, formId, personId);
      if existing.Some? {
        assert responses[FirstIndex(responses, (r: Response) => r.formId == formId && r.personId == personId)].id == existing.value.id;
        ok := UpdateResponse(Responded(existing.value, date, now), now);
      } else {
        ok := AddOrUpdateResponse(Response(freshId, formId, personId, true, Some(date.GetOr(now)), None, 0, "", now, now), now);
      }
    }

    /** `record_reminder_sent`: the existing row counts one more reminder, or a row with
        one reminder is created. */
    method RecordReminderSent(formId: string, personId: string, now: int, freshId: string) returns (ok: bool)
      modifies this`responses
      ensures ok
      ensures responses == ReminderLogged(old(responses), formId, personId, now, freshId)
    {
      var existing := ResponseByPair(responses, formId, personId);
      if existing.Some? {
        assert responses[FirstIndex(responses, (r: Response) => r.formId == formId && r.personId == personId)].id == existing.value.id;
        ok := UpdateResponse(ReminderRecorded(existing.value, now), now);
      } else {
        ok := AddOrUpdateResponse(Response(freshId, formId, personId, false, None, Some(now), 1, "", now, now), now);
      }
    }

    /** `get_responses_with_people_for_form`. */
    method ResponsesWithPeopleForForm(formId: string) returns (result: seq<(Person, Response)>)
      ensures result == JoinPeople(people, FilterResponsesByForm(responses, formId))
    {
      result := JoinLoop(FilterResponsesByForm(responses, formId));
    }

    /** `get_non_responders_for_form`. */
    method NonRespondersForForm(formId: string) returns (result: seq<(Person, Response)>)
      ensures result == JoinPeople(people, GetNonResponders(FilterResponsesByForm(responses, formId)))
    {
      result := JoinLoop(GetNonResponders(FilterResponsesByForm(responses, formId)));
    }

    /** `get_people_needing_reminders(form_id, cooldown_hours)` at time `now`. */
    method PeopleNeedingReminders(formId: string, cooldownHours: int, now: int) returns (result: seq<(Person, Response)>)
      ensures result == JoinPeople(people, GetPeopleNeedingReminders(FilterResponsesByForm(responses, formId), cooldownHours, now))
    {
      result := JoinLoop(GetPeopleNeedingReminders(FilterResponsesByForm(responses, formId), cooldownHours, now));
    }

    /** The loop shared by the three joins above. */
    method JoinLoop(rs: seq<Response>) returns (result: seq<(Person, Response)>)
      ensures result == JoinPeople(people, rs)
    {
      result := [];
      var i := 0;
      while i < |rs|
        invariant 0 <= i <= |rs|
        invariant result == JoinPeople(people, rs[..i])
      {
        assert rs[..i + 1][..i] == rs[..i];
        var person := PersonById(people, rs[i].personId);
        if person.Some? {
          result := result + [(person.value, rs[i])];
        }
        i := i + 1;
      }
      assert rs[..|rs|] == rs;
    }

    /** `get_all_non_responders`. */
    method AllNonResponders() returns (result: map<string, seq<(Person, Response)>>)
      ensures result == NonRespondersByName(ActiveForms(), people, responses)
    {
      var active := ActiveForms();
      result := map[];
      var i := 0;
      while i < |active|
        invariant 0 <= i <= |active|
        invariant result == NonRespondersByName(active[..i], people, responses)
      {
        assert active[..i + 1][..i] == active[..i];
        var nonResponders := NonRespondersForForm(active[i].id);
        result := result[active[i].name := nonResponders];
        i := i + 1;
      }
      assert active[..|active|] == active;
    }

    /** `get_statistics()` at time `now`. */
    function Statistics(now: int): ReminderStats
      reads this
    {
      CalculateStats(responses, people, now).(lastSync := lastSync)
    }

    /** `sync_google_forms_responses(google_responses)` at time `now`; `newId(n)` is the
        n-th fresh uuid. Unknown Google ids are skipped, blank emails are skipped, an
        unknown email creates its person, and every remaining submission marks its row. */
    method SyncGoogleFormsResponses(data: GoogleForms.Collected, now: int, newId: nat -> string) returns (stats: SyncStats)
      modifies this`people, this`responses, this`lastSync
      ensures stats.errors == 0
      ensures stats.updated == Markable(forms, data)
      ensures |people| == |old(people)| + stats.created
      ensures old(people) <= people
      ensures var t := SyncFold(forms, SyncState(old(people), old(responses), 0), data, now, newId);
        people == t.people && responses == t.responses
      ensures lastSync == Some(now)
    {
      stats := SyncStats(0, 0, 0);
      var ids: nat := 0;
      var i := 0;
      while i < |data|
        invariant 0 <= i <= |data|
        invariant stats.errors == 0
        invariant stats.updated == Markable(forms, data[..i])
        invariant |people| == |old(people)| + stats.created
        invariant old(people) <= people
        invariant SyncState(people, responses, ids) == SyncFold(forms, SyncState(old(people), old(responses), 0), data[..i], now, newId)
      {
        assert data[..i + 1][..i] == data[..i];
        var form := FormByGoogleId(forms, data[i].0);
        if form.Some? {
          var updated, created;
          updated, created, ids := SyncFormEntries(form.value, data[i].1, now, newId, ids);
          stats := stats.(updated := stats.updated + updated, created := stats.created + created);
        }
        i := i + 1;
      }
      assert data[..|data|] == data;
      lastSync := Some(now);
    }

    /** The inner loop over one form's submissions. */
    method SyncFormEntries(form: Form, entries: seq<GoogleForms.Submission>, now: int, newId: nat -> string, ids: nat)
      returns (updated: nat, created: nat, nextIds: nat)
      modifies this`people, this`responses
      ensures updated == WithSyncEmail(entries)
      ensures |people| == |old(people)| + created
      ensures old(people) <= people
      ensures SyncState(people, responses, nextIds) == EntriesFold(form, SyncState(old(people), old(responses), ids), entries, now, newId)
    {
      updated, created, nextIds := 0, 0, ids;
      var j := 0;
      while j < |entries|
        invariant 0 <= j <= |entries|
        invariant updated == WithSyncEmail(entries[..j])
        invariant |people| == |old(people)| + created
        invariant old(people) <= people
        invariant SyncState(people, responses, nextIds) == EntriesFold(form, SyncState(old(people), old(responses), ids), entries[..j], now, newId)
      {
        var entry := entries[j];
        EntriesFoldSnoc(form, SyncState(old(people), old(responses), ids), entries, j, now, newId);
        WithSyncEmailSnoc(entries, j);
        assert WithSyncEmail(entries[..j + 1]) == updated + (if HasSyncEmail(entry) then 1 else 0);
        var marked, createdOne;
        marked, createdOne, nextIds := SyncEntry(form, entry, now, newId, nextIds);
        if marked {
          updated := updated + 1;
        }
        if createdOne {
          created := created + 1;
        }
        j := j + 1;
      }
      assert entries[..|entries|] == entries;
    }

    /** One submission of the sync: skipped without an email; otherwise its person is found
        or created (never refused, so no error is counted) and its row is marked. */
    method SyncEntry(form: Form, entry: GoogleForms.Submission, now: int, newId: nat -> string, ids: nat)
      returns (marked: bool, createdOne: bool, nextIds: nat)
      modifies this`people, this`responses
      ensures marked == HasSyncEmail(entry)
      ensures |people| == |old(people)| + (if createdOne then 1 else 0) && old(people) <= people
      ensures !marked ==> responses == old(responses)
      ensures nextIds == ids + (if createdOne then 1 else 0) + (if marked then 1 else 0)
      ensures SyncState(people, responses, nextIds) == EntryStep(form, SyncState(old(people), old(responses), ids), entry, now, newId)
    {
      nextIds := ids;
      createdOne := false;
      var email := Strip(Lower(entry.email));
      SyncEmailIff(entry);
      if email == [] {
        return false, false, nextIds;
      }
      var person := PersonByEmail(people, email);
      ghost var who := Submitter(SyncState(people, responses, ids), entry, email, now, newId);
      if person.None? {
        var newPerson := Person(newId(nextIds), SyncName(entry, email), email, "", now, now);
        nextIds := nextIds + 1;
        var added := AddPerson(newPerson, now);
        assert added;
        createdOne := true;
        person := Some(newPerson);
      }
      assert people == who.0 && person.value.id == who.1 && nextIds == who.2;
      var ok := MarkAsResponded(form.id, person.value.id, SyncDate(entry.timestamp, now), now, newId(nextIds));
      nextIds := nextIds + 1;
      marked := true;
    }

    /** `export_to_dict()` at time `now`. */
    function ExportToDict(now: int): Export
      reads this
    {
      Exported(State(), now)
    }

    /** `import_from_dict(data)`. */
    method ImportFromDict(data: ImportData) returns (ok: bool)
      modifies this
      ensures ok
      ensures State() == Imported(old(State()), data)
    {
      people := data.people.GetOr([]);
      forms := data.forms.GetOr([]);
      responses := data.responses.GetOr([]);
      if data.lastSync.Some? {
        lastSync := data.lastSync;
      }
      return true;
    }

    /** `clear_all_data()`. */
    method ClearAllData() returns (ok: bool)
      modifies this
      ensures ok
      ensures State() == Tables([], [], [], None)
    {
      people, forms, responses, lastSync := [], [], [], None;
      return true;
    }

    /** `get_health_check()`: the status is healthy exactly when no response lacks its
        person or its form. */
    method GetHealthCheck() returns (report: HealthReport)
      ensures report.orphanedResponses == Orphans(people, forms, responses)
      ensures report.healthy <==> report.orphanedResponses == 0
      ensures report.peopleCount == |people| && report.formsCount == |forms| && report.responsesCount == |responses|
    {
      var rs, ps, fs := responses, people, forms;
      var orphaned := 0;
      var i := 0;
      while i < |rs|
        invariant 0 <= i <= |rs|
        invariant orphaned == Orphans(ps, fs, rs[..i])
      {
        assert rs[..i + 1][..i] == rs[..i];
        if Orphan(ps, fs, rs[i]) {
          orphaned := orphaned + 1;
        }
        i := i + 1;
      }
      assert rs[..|rs|] == rs;
      report := HealthReport(orphaned == 0, |people|, |forms|, |responses|, orphaned, lastSync, "2.0");
    }
  }
}
