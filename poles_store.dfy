/**
 * STN-botv2/database/sqlite_manager.py: `SQLiteDatabase`, the SQLite store
 * with poles. Each table is a sequence of rows in a class field; every method
 * is one atomic step over those tables. The duplicate checks are the
 * `SELECT`s the source runs before an `INSERT`; the UNIQUE indexes and
 * primary keys turn a clashing `INSERT` into a refusal; an `UPDATE` touches
 * every matching row and succeeds when it touched one. Foreign keys are never
 * switched on, so nothing cascades. `now` and fresh uuids are parameters.
 */
module PolesStore {
  import opened Wrappers
  import opened Text
  import opened Seqs
  import opened ModelsV2
  import opened Relations
  import GoogleForms

  // ----- poles -----

  /** The pole `_create_tables` inserts into an empty poles table. */
  function DefaultPole(id: string, now: int): Pole {
    Pole(id, "Général", "Pôle par défaut", "#2196F3", true, now, now)
  }

  /** A form whose `pole_id` is NULL or ''. */
  predicate WithoutPole(f: Form) {
    f.poleId == []
  }

  /** `UPDATE forms SET pole_id = ? WHERE pole_id IS NULL OR pole_id = ''`. */
  function AssignPole(forms: seq<Form>, poleId: string): seq<Form> {
    Map(forms, (f: Form) => if WithoutPole(f) then f.(poleId := poleId) else f)
  }

  /** Assigning a non-empty pole id leaves no form without a pole and keeps every form
      that had a pole as it was. */
  lemma AssignPoleSpec(forms: seq<Form>, poleId: string)
    requires poleId != []
    ensures Count(AssignPole(forms, poleId), WithoutPole) == 0
    ensures |AssignPole(forms, poleId)| == |forms|
    ensures forall i :: 0 <= i < |forms| ==>
      AssignPole(forms, poleId)[i] == (if WithoutPole(forms[i]) then forms[i].(poleId := poleId) else forms[i])
  {
    CountZeroIff(AssignPole(forms, poleId), WithoutPole);
  }

  /** The duplicate checks of `add_pole`: no pole has the same name ignoring case; the
      primary key refuses a reused id. */
  predicate AcceptsPole(poles: seq<Pole>, pole: Pole) {
    (forall i :: 0 <= i < |poles| ==> Lower(poles[i].name) != Lower(pole.name)) &&
    (forall i :: 0 <= i < |poles| ==> poles[i].id != pole.id)
  }

  /** No two poles have the same name ignoring case. */
  predicate PoleNamesDistinct(poles: seq<Pole>) {
    forall i, j :: 0 <= i < j < |poles| ==> Lower(poles[i].name) != Lower(poles[j].name)
  }

  /** A pole `add_pole` accepts keeps pole names distinct ignoring case. */
  lemma AddPoleKeepsNamesDistinct(poles: seq<Pole>, pole: Pole)
    requires PoleNamesDistinct(poles) && AcceptsPole(poles, pole)
    ensures PoleNamesDistinct(poles + [pole])
  {
    var ps := poles + [pole];
    forall i, j | 0 <= i < j < |ps| ensures Lower(ps[i].name) != Lower(ps[j].name) {
      if j == |poles| {
        assert ps[i] == poles[i];
      } else {
        assert ps[i] == poles[i] && ps[j] == poles[j];
      }
    }
  }

  /** `update_pole`: the UNIQUE name column refuses a name another pole already has. */
  predicate NameTakenByOther(poles: seq<Pole>, id: string, name: string) {
    exists i :: 0 <= i < |poles| && poles[i].id != id && poles[i].name == name
  }

  /** The poles after `UPDATE poles SET ... WHERE id = ?`. */
  function PolesUpdated(poles: seq<Pole>, id: string, name: string, description: string, color: string,
                        isActive: bool, now: int): seq<Pole> {
    Map(poles, (p: Pole) => if p.id == id then p.(name := name, description := description, color := color,
                                                   isActive := isActive, updatedAt := now) else p)
  }

  /** The forms after `UPDATE forms SET pole_id = ? WHERE pole_id = ?` of `delete_pole`. */
  function FormsMoved(forms: seq<Form>, from: string, to: string, now: int): seq<Form> {
    Map(forms, (f: Form) => if f.poleId == from then f.(poleId := to, updatedAt := now) else f)
  }

  /** Moving the forms of a pole leaves none of them on it (when the target differs) and
      touches no other form. */
  lemma FormsMovedSpec(forms: seq<Form>, from: string, to: string, now: int)
    requires from != to
    ensures forall i :: 0 <= i < |forms| ==> FormsMoved(forms, from, to, now)[i].poleId != from
    ensures forall i :: 0 <= i < |forms| && forms[i].poleId != from ==> FormsMoved(forms, from, to, now)[i] == forms[i]
  {
  }

  // ----- people -----

  /** The duplicate checks of `add_person`: a non-empty email equal to a stored one ignoring
      case, or a non-empty psid already stored, is refused; so is a reused id. */
  predicate AcceptsPerson(people: seq<Person>, person: Person) {
    (person.email == [] || forall i :: 0 <= i < |people| ==> Lower(people[i].email) != Lower(person.email)) &&
    (person.psid == [] || forall i :: 0 <= i < |people| ==> people[i].psid != person.psid) &&
    (forall i :: 0 <= i < |people| ==> people[i].id != person.id)
  }

  /** `get_person_by_email`: `LOWER(email) = LOWER(?)`, with no stripping. */
  function PersonByEmailIgnoringCase(people: seq<Person>, email: string): Option<Person> {
    First(people, (p: Person) => Lower(p.email) == Lower(email))
  }

  /** Deleting a person who still has a response leaves that response orphaned: the
      schema's cascade never runs. */
  lemma DeletePersonLeavesOrphan(people: seq<Person>, forms: seq<Form>, rs: seq<Response>, personId: string)
    requires exists i :: 0 <= i < |rs| && rs[i].personId == personId
    ensures Orphans(Filter(people, (p: Person) => p.id != personId), forms, rs) > 0
  {
    var people' := Filter(people, (p: Person) => p.id != personId);
    var i :| 0 <= i < |rs| && rs[i].personId == personId;
    assert Orphan(people', forms, rs[i]);
    OrphansZeroIff(people', forms, rs);
  }

  // ----- forms and their rows -----

  /** The rows `add_form` inserts: one unresponded row per expected id, the k-th with id `newId(k)`. */
  function UnrespondedRows(formId: string, expectedIds: seq<string>, newId: nat -> string, now: int): (rows: seq<Response>)
    ensures |rows| == |expectedIds|
    ensures forall k :: 0 <= k < |rows| ==> rows[k] == NewResponse(newId(k), formId, expectedIds[k], now)
  {
    if expectedIds == [] then []
    else UnrespondedRows(formId, expectedIds[..|expectedIds| - 1], newId, now) +
         [NewResponse(newId(|expectedIds| - 1), formId, expectedIds[|expectedIds| - 1], now)]
  }

  /** The pair (form, person) has a row. */
  predicate HasPair(rs: seq<Response>, formId: string, personId: string) {
    exists i :: 0 <= i < |rs| && rs[i].formId == formId && rs[i].personId == personId
  }

  /** What makes `add_form` insert: an unused Google id (the explicit check), an unused form
      id (the primary key) and no (form, person) pair twice (the UNIQUE index); otherwise the
      transaction rolls back. */
  predicate AcceptsForm(forms: seq<Form>, rs: seq<Response>, form: Form, expectedIds: seq<string>) {
    (forall i :: 0 <= i < |forms| ==> forms[i].googleFormId != form.googleFormId) &&
    (forall i :: 0 <= i < |forms| ==> forms[i].id != form.id) &&
    (forall j, k :: 0 <= j < k < |expectedIds| ==> expectedIds[j] != expectedIds[k]) &&
    (forall k :: 0 <= k < |expectedIds| ==> !HasPair(rs, form.id, expectedIds[k]))
  }

  /** Uuid freshness of the row ids `add_form` draws. */
  predicate FreshRowIds(rs: seq<Response>, newId: nat -> string, n: nat) {
    (forall j, k :: 0 <= j < k < n ==> newId(j) != newId(k)) &&
    (forall k, i :: 0 <= k < n && 0 <= i < |rs| ==> newId(k) != rs[i].id)
  }

  /** An accepted form keeps the table valid and gives every expected person exactly one
      row for the form, unresponded and never reminded. */
  lemma AddFormRowsSpec(forms: seq<Form>, rs: seq<Response>, form: Form, expectedIds: seq<string>, newId: nat -> string, now: int)
    requires ResponsesValid(rs) && AcceptsForm(forms, rs, form, expectedIds)
    requires FreshRowIds(rs, newId, |expectedIds|)
    ensures ResponsesValid(rs + UnrespondedRows(form.id, expectedIds, newId, now))
    ensures forall k :: 0 <= k < |expectedIds| ==>
      ResponseByPair(rs + UnrespondedRows(form.id, expectedIds, newId, now), form.id, expectedIds[k]) ==
        Some(NewResponse(newId(k), form.id, expectedIds[k], now))
  {
    var rows := UnrespondedRows(form.id, expectedIds, newId, now);
    var u := rs + rows;
    forall i, j | 0 <= i < j < |u|
      ensures u[i].id != u[j].id && !(u[i].formId == u[j].formId && u[i].personId == u[j].personId)
    {
      if |rs| <= j {
        var k := j - |rs|;
        assert u[j] == rows[k];
        if i < |rs| {
          assert u[i] == rs[i];
          assert !HasPair(rs, form.id, expectedIds[k]);
        } else {
          assert u[i] == rows[i - |rs|];
        }
      } else {
        assert u[i] == rs[i] && u[j] == rs[j];
      }
    }
    forall k | 0 <= k < |expectedIds|
      ensures ResponseByPair(u, form.id, expectedIds[k]) == Some(NewResponse(newId(k), form.id, expectedIds[k], now))
    {
      AddedRowFound(forms, rs, form, expectedIds, newId, now, k);
    }
  }

  /** The k-th inserted row is the first row of its pair. */
  lemma AddedRowFound(forms: seq<Form>, rs: seq<Response>, form: Form, expectedIds: seq<string>, newId: nat -> string,
                      now: int, k: nat)
    requires AcceptsForm(forms, rs, form, expectedIds) && k < |expectedIds|
    ensures ResponseByPair(rs + UnrespondedRows(form.id, expectedIds, newId, now), form.id, expectedIds[k]) ==
      Some(NewResponse(newId(k), form.id, expectedIds[k], now))
  {
    var rows := UnrespondedRows(form.id, expectedIds, newId, now);
    var u := rs + rows;
    var p := (r: Response) => r.formId == form.id && r.personId == expectedIds[k];
    assert u[|rs| + k] == rows[k];
    forall j | 0 <= j < |rs| + k ensures !p(u[j]) {
      if j < |rs| {
        assert u[j] == rs[j];
        assert !HasPair(rs, form.id, expectedIds[k]);
      } else {
        assert u[j] == rows[j - |rs|];
      }
    }
    assert p(u[|rs| + k]);
    assert forall j :: 0 <= j < |rs| + k ==> !p(u[j]);
    FirstIndexUnique(u, p, |rs| + k);
  }

  // ----- responses -----

  /** `UPDATE responses SET has_responded = 1, response_date = ? ... WHERE form_id = ? AND person_id = ?`. */
  function SetResponded(rs: seq<Response>, formId: string, personId: string, date: Option<int>, now: int): seq<Response> {
    Map(rs, (r: Response) => if r.formId == formId && r.personId == personId then Responded(r, date, now) else r)
  }

  /** `UPDATE responses SET last_reminder = ?, reminder_count = reminder_count + 1 ...`. */
  function SetReminded(rs: seq<Response>, formId: string, personId: string, now: int): seq<Response> {
    Map(rs, (r: Response) => if r.formId == formId && r.personId == personId then ReminderRecorded(r, now) else r)
  }

  /** Marking rewrites only the pair's rows, sets them responded with the given date (else
      now), leaves their reminder count and last reminder alone, and keeps the table valid. */
  lemma SetRespondedSpec(rs: seq<Response>, formId: string, personId: string, date: Option<int>, now: int)
    requires ResponsesValid(rs)
    ensures ResponsesValid(SetResponded(rs, formId, personId, date, now))
    ensures HasPair(rs, formId, personId) ==>
      var row := ResponseByPair(SetResponded(rs, formId, personId, date, now), formId, personId);
      var was := ResponseByPair(rs, formId, personId);
      row.Some? && row.value.hasResponded && row.value.responseDate == Some(date.GetOr(now)) &&
      row.value.reminderCount == was.value.reminderCount && row.value.lastReminder == was.value.lastReminder
    ensures forall i :: 0 <= i < |rs| && !(rs[i].formId == formId && rs[i].personId == personId) ==>
      SetResponded(rs, formId, personId, date, now)[i] == rs[i]
  {
    var u := SetResponded(rs, formId, personId, date, now);
    assert forall i :: 0 <= i < |u| ==> u[i].id == rs[i].id && u[i].formId == rs[i].formId && u[i].personId == rs[i].personId;
    if HasPair(rs, formId, personId) {
      var k := FirstIndex(rs, (r: Response) => r.formId == formId && r.personId == personId);
      FirstIndexUnique(u, (r: Response) => r.formId == formId && r.personId == personId, k);
    }
  }

  /** Recording a reminder adds exactly one to the pair's count, sets its last reminder,
      leaves its responded flag alone, and keeps the table valid. */
  lemma SetRemindedSpec(rs: seq<Response>, formId: string, personId: string, now: int)
    requires ResponsesValid(rs)
    ensures ResponsesValid(SetReminded(rs, formId, personId, now))
    ensures HasPair(rs, formId, personId) ==>
      var row := ResponseByPair(SetReminded(rs, formId, personId, now), formId, personId);
      var was := ResponseByPair(rs, formId, personId);
      row.Some? && row.value.reminderCount == was.value.reminderCount + 1 &&
      row.value.lastReminder == Some(now) && row.value.hasResponded == was.value.hasResponded
    ensures !HasPair(rs, formId, personId) ==> SetReminded(rs, formId, personId, now) == rs
  {
    var u := SetReminded(rs, formId, personId, now);
    assert forall i :: 0 <= i < |u| ==> u[i].id == rs[i].id && u[i].formId == rs[i].formId && u[i].personId == rs[i].personId;
    if HasPair(rs, formId, personId) {
      var k := FirstIndex(rs, (r: Response) => r.formId == formId && r.personId == personId);
      FirstIndexUnique(u, (r: Response) => r.formId == formId && r.personId == personId, k);
    }
  }

  datatype FormStats = FormStats(total: nat, responded: nat, pending: int)

  /** `get_form_stats(form_id)`: the form's rows, the responded ones, and the rest. */
  function GetFormStats(rs: seq<Response>, formId: string): (stats: FormStats)
    ensures stats.total == |FilterResponsesByForm(rs, formId)|
    ensures stats.pending == Count(FilterResponsesByForm(rs, formId), NeedsReminder)
    ensures 0 <= stats.pending && stats.responded <= stats.total
  {
    var mine := FilterResponsesByForm(rs, formId);
    var responded := Count(mine, HasResponded);
    CountSplit(mine, HasResponded, NeedsReminder);
    FormStats(|mine|, responded, |mine| - responded)
  }

  // ----- reminder eligibility -----

  /** The WHERE clause of `get_people_needing_reminders`. */
  predicate SqlEligible(pr: (Person, Response), cooldownHours: int, now: int) {
    !pr.1.hasResponded && (pr.1.lastReminder.None? || pr.1.lastReminder.value < now - cooldownHours * 3600) &&
    pr.0.psid != []
  }

  /** `get_people_needing_reminders(form_id, cooldown_hours)` at time `now`. */
  function NeedingReminders(people: seq<Person>, rs: seq<Response>, formId: string, cooldownHours: int, now: int): seq<(Person, Response)> {
    Filter(JoinPeople(people, FilterResponsesByForm(rs, formId)), (pr: (Person, Response)) => SqlEligible(pr, cooldownHours, now))
  }

  /** The SQL eligibility is the in-memory cooldown rule plus a non-empty psid. */
  lemma SqlEligibleIff(pr: (Person, Response), cooldownHours: int, now: int)
    ensures SqlEligible(pr, cooldownHours, now) <==> CanSendReminder(pr.1, cooldownHours, now) && pr.0.psid != []
  {
  }

  /** A pair is listed exactly when it is one of the form's joined rows and it is eligible. */
  lemma NeedingRemindersIff(people: seq<Person>, rs: seq<Response>, formId: string, cooldownHours: int, now: int, pr: (Person, Response))
    ensures pr in NeedingReminders(people, rs, formId, cooldownHours, now) <==>
      pr in JoinPeople(people, FilterResponsesByForm(rs, formId)) && CanSendReminder(pr.1, cooldownHours, now) && pr.0.psid != []
  {
    FilterMembership(JoinPeople(people, FilterResponsesByForm(rs, formId)), (x: (Person, Response)) => SqlEligible(x, cooldownHours, now), pr);
  }

  /** `get_non_responders_for_form(form_id)`. */
  function NonResponders(people: seq<Person>, rs: seq<Response>, formId: string): seq<(Person, Response)> {
    JoinPeople(people, GetNonResponders(FilterResponsesByForm(rs, formId)))
  }

  // ----- health -----

  datatype HealthReport = HealthReport(healthy: bool, peopleCount: nat, polesCount: nat, formsCount: nat,
                                       responsesCount: nat, orphanedResponses: nat, formsWithoutPole: nat,
                                       databaseVersion: string)

  /** `get_health_check()`: healthy exactly when every response has its person and its form
      and every form has a pole. */
  function HealthCheck(poles: seq<Pole>, people: seq<Person>, forms: seq<Form>, rs: seq<Response>): (h: HealthReport)
    ensures h.healthy <==> (forall i :: 0 <= i < |rs| ==> !Orphan(people, forms, rs[i])) &&
                           (forall i :: 0 <= i < |forms| ==> forms[i].poleId != [])
  {
    var orphaned := Orphans(people, forms, rs);
    var withoutPole := Count(forms, WithoutPole);
    OrphansZeroIff(people, forms, rs);
    CountZeroIff(forms, WithoutPole);
    HealthReport(orphaned == 0 && withoutPole == 0, |people|, |poles|, |forms|, |rs|, orphaned, withoutPole, "2.0-sqlite-poles")
  }

  // ----- synchronisation -----

  datatype SyncStats = SyncStats(updated: nat, created: nat, errors: nat)

  /** What the sync did with one submission. */
  datatype Outcome = Skipped | CreateFailed | Matched(personId: string, created: bool, marked: bool)

  /** The expected person `pid` exists, has an email, and it normalises to `email`. */
  predicate EmailMatches(people: seq<Person>, pid: string, email: string) {
    var c := PersonById(people, pid);
    c.Some? && c.value.email != [] && Strip(Lower(c.value.email)) == email
  }

  /** The first expected person whose email normalises to `email`. */
  function ExpectedMatch(people: seq<Person>, expectedIds: seq<string>, email: string): Option<Person> {
    var k := FirstIndex(expectedIds, (pid: string) => EmailMatches(people, pid, email));
    if k < |expectedIds| then PersonById(people, expectedIds[k]) else None
  }

  /** The person a submitted (normalised) email is credited to: among the expected people
      first, then anyone with that email ignoring case. */
  function MatchFor(people: seq<Person>, expectedIds: seq<string>, email: string): Option<Person> {
    var expectedMatch := ExpectedMatch(people, expectedIds, email);
    if expectedMatch.Some? then expectedMatch else PersonByEmailIgnoringCase(people, email)
  }

  /** The name of a person the sync creates: `fullName`, else the stripped first and last
      names, else the part of the email before the first '@'. */
  function SyncName(sub: GoogleForms.Submission, email: string): string {
    var fullName := Strip(sub.fullName);
    var first := Strip(sub.firstName);
    var last := Strip(sub.lastName);
    if fullName != [] then fullName
    else if first != [] || last != [] then Strip(first + " " + last)
    else email[..Find(email, '@')]
  }

  /** The emails of a form's submissions, normalised, without the blank ones. */
  function SubmittedEmails(entries: seq<GoogleForms.Submission>): set<string> {
    if entries == [] then {}
    else
      var email := GoogleForms.Normalize(entries[|entries| - 1].email);
      SubmittedEmails(entries[..|entries| - 1]) + (if email != [] then {email} else {})
  }

  /** The emails of one more submission. */
  lemma SubmittedEmailsSnoc(entries: seq<GoogleForms.Submission>, j: nat)
    requires j < |entries|
    ensures var email := GoogleForms.Normalize(entries[j].email);
      SubmittedEmails(entries[..j + 1]) == SubmittedEmails(entries[..j]) + (if email != [] then {email} else {})
  {
    assert entries[..j + 1][..j] == entries[..j];
  }

  /** An expected person the revert step puts back to "not responded": present, with an
      email, and that email absent from the submissions. */
  predicate ShouldRevert(people: seq<Person>, submitted: set<string>, pid: string) {
    var p := PersonById(people, pid);
    p.Some? && p.value.email != [] && Strip(Lower(p.value.email)) !in submitted
  }

  /** No row of the pair is marked responded. */
  predicate NoRespondedRow(rs: seq<Response>, formId: string, personId: string) {
    forall i :: 0 <= i < |rs| && rs[i].formId == formId && rs[i].personId == personId ==> !rs[i].hasResponded
  }

  /** `UPDATE responses SET has_responded = 0, response_date = NULL ... AND has_responded = 1`. */
  function Unmarked(r: Response, now: int): Response {
    r.(hasResponded := false, responseDate := None, updatedAt := now)
  }

  function Reverted(rs: seq<Response>, formId: string, personId: string, now: int): seq<Response> {
    Map(rs, (r: Response) => if r.formId == formId && r.personId == personId && r.hasResponded then Unmarked(r, now) else r)
  }

  /** Reverting a pair leaves it no responded row, keeps every pair that had none that way,
      and changes only the pair's responded rows, which it unmarks. */
  lemma RevertedSpec(rs: seq<Response>, formId: string, personId: string, now: int)
    ensures NoRespondedRow(Reverted(rs, formId, personId, now), formId, personId)
    ensures forall q :: NoRespondedRow(rs, formId, q) ==> NoRespondedRow(Reverted(rs, formId, personId, now), formId, q)
    ensures |Reverted(rs, formId, personId, now)| == |rs|
    ensures forall k :: 0 <= k < |rs| ==>
      (Reverted(rs, formId, personId, now)[k] == rs[k] ||
       (rs[k].formId == formId && rs[k].personId == personId && rs[k].hasResponded &&
        Reverted(rs, formId, personId, now)[k] == Unmarked(rs[k], now)))
  {
  }

  /** A row after the revert step of a form: unchanged, or a responded row of the form for an
      expected person the step reverts, now unmarked. */
  predicate RevertedOrSame(before: Response, after: Response, formId: string, expectedIds: seq<string>,
                           people: seq<Person>, submitted: set<string>, now: int) {
    after == before ||
    (before.formId == formId && before.personId in expectedIds && before.hasResponded &&
     ShouldRevert(people, submitted, before.personId) && after == Unmarked(before, now))
  }

  // ----- the sync as a function of the tables -----

  /** The expected people of a form in the `expected_people_ids` column ([] when absent). */
  function ExpectedIn(expected: map<string, seq<string>>, formId: string): seq<string> {
    if formId in expected then expected[formId] else []
  }

  /** What the sync carries from one submission to the next: the tables it writes and how
      many fresh ids it has drawn. */
  datatype PoleSync = PoleSync(people: seq<Person>, expected: map<string, seq<string>>, responses: seq<Response>, ids: nat)

  /** Whom the sync credits a submission to: nobody without an email; the matching person;
      else a person created for it, unless `add_person` refuses them. */
  datatype Credit = NoEmail | Known(personId: string) | Refused | Newcomer(person: Person)

  /** The credit of one submission on form `formId`, from the tables before it. */
  function CreditFor(formId: string, s: PoleSync, entry: GoogleForms.Submission, now: int, newId: nat -> string): Credit {
    var email := GoogleForms.Normalize(entry.email);
    if email == [] then NoEmail
    else
      var found := MatchFor(s.people, ExpectedIn(s.expected, formId), email);
      if found.Some? then Known(found.value.id)
      else
        var created := Person(newId(s.ids), SyncName(entry, email), email, "", now, now);
        if AcceptsPerson(s.people, created) then Newcomer(created) else Refused
  }

  /** What a credit does to the tables (two ids drawn whatever happens): the matching
      person's rows for the form are marked; a created person joins the people and the
      form's expected people with an unresponded row, which is then marked. */
  function ApplyCredit(formId: string, s: PoleSync, credit: Credit, date: Option<int>, now: int, newId: nat -> string): PoleSync {
    match credit
    case NoEmail => s.(ids := s.ids + 2)
    case Refused => s.(ids := s.ids + 2)
    case Known(personId) => s.(responses := MarkedIfRow(s.responses, formId, personId, date, now), ids := s.ids + 2)
    case Newcomer(p) =>
      PoleSync(s.people + [p], s.expected[formId := ExpectedIn(s.expected, formId) + [p.id]],
               NewcomerRows(s.responses, formId, p.id, newId(s.ids + 1), date, now), s.ids + 2)
  }

  /** One submission on form `formId`. */
  function SubmissionStep(formId: string, s: PoleSync, entry: GoogleForms.Submission, now: int, newId: nat -> string): PoleSync {
    ApplyCredit(formId, s, CreditFor(formId, s, entry, now, newId), SyncDate(entry.timestamp, now), now, newId)
  }

  /** The tables `t` are those a credit leaves when each of its cases is as `ApplyCredit` says. */
  lemma CreditApplied(formId: string, s: PoleSync, c: Credit, date: Option<int>, now: int, newId: nat -> string, t: PoleSync)
    requires t.ids == s.ids + 2
    requires c.NoEmail? || c.Refused? ==> t.people == s.people && t.expected == s.expected && t.responses == s.responses
    requires c.Known? ==> (t.people == s.people && t.expected == s.expected &&
                           t.responses == MarkedIfRow(s.responses, formId, c.personId, date, now))
    requires c.Newcomer? ==> (t.people == s.people + [c.person] &&
                              t.expected == s.expected[formId := ExpectedIn(s.expected, formId) + [c.person.id]] &&
                              t.responses == NewcomerRows(s.responses, formId, c.person.id, newId(s.ids + 1), date, now))
    ensures t == ApplyCredit(formId, s, c, date, now, newId)
  {
  }

  /** `mark_as_responded` on the rows: the pair's rows are marked when it has any. */
  function MarkedIfRow(rs: seq<Response>, formId: string, personId: string, date: Option<int>, now: int): seq<Response> {
    if HasPair(rs, formId, personId) then SetResponded(rs, formId, personId, date, now) else rs
  }

  /** The rows after a created person's unresponded row is inserted and then marked. */
  function NewcomerRows(rs: seq<Response>, formId: string, personId: string, rowId: string, date: Option<int>, now: int): seq<Response> {
    SetResponded(rs + [NewResponse(rowId, formId, personId, now)], formId, personId, date, now)
  }

  /** The submissions of one form, in order. */
  function SubmissionsFold(formId: string, s: PoleSync, entries: seq<GoogleForms.Submission>, now: int, newId: nat -> string): PoleSync {
    if entries == [] then s
    else SubmissionStep(formId, SubmissionsFold(formId, s, entries[..|entries| - 1], now, newId), entries[|entries| - 1], now, newId)
  }

  /** The submissions of a form up to and including the `j`-th. */
  lemma SubmissionsFoldSnoc(formId: string, s: PoleSync, entries: seq<GoogleForms.Submission>, j: nat, now: int, newId: nat -> string)
    requires j < |entries|
    ensures SubmissionsFold(formId, s, entries[..j + 1], now, newId) ==
      SubmissionStep(formId, SubmissionsFold(formId, s, entries[..j], now, newId), entries[j], now, newId)
  {
    assert entries[..j + 1][..j] == entries[..j];
  }

  /** The revert step over the expected ids `exp`, in order. */
  function RevertAll(rs: seq<Response>, formId: string, exp: seq<string>, people: seq<Person>, submitted: set<string>, now: int): seq<Response> {
    if exp == [] then rs
    else
      var before := RevertAll(rs, formId, exp[..|exp| - 1], people, submitted, now);
      var pid := exp[|exp| - 1];
      if ShouldRevert(people, submitted, pid) then Reverted(before, formId, pid, now) else before
  }

  /** How many expected ids of `exp` the revert step counts: those it reverts while they
      still have a responded row (`cursor.rowcount > 0`). */
  function RevertCount(rs: seq<Response>, formId: string, exp: seq<string>, people: seq<Person>, submitted: set<string>, now: int): nat {
    if exp == [] then 0
    else
      var before := RevertAll(rs, formId, exp[..|exp| - 1], people, submitted, now);
      var pid := exp[|exp| - 1];
      RevertCount(rs, formId, exp[..|exp| - 1], people, submitted, now) +
      (if ShouldRevert(people, submitted, pid) && !NoRespondedRow(before, formId, pid) then 1 else 0)
  }

  /** One form of the sync: every submission, then the revert step over the form's expected
      people as they stand after the submissions. */
  function FormSynced(form: Form, s: PoleSync, entries: seq<GoogleForms.Submission>, now: int, newId: nat -> string): PoleSync {
    var t := SubmissionsFold(form.id, s, entries, now, newId);
    t.(responses := RevertAll(t.responses, form.id, ExpectedIn(t.expected, form.id), t.people, SubmittedEmails(entries), now))
  }

  /** The rows the revert step of one form counts. */
  function FormReverts(form: Form, s: PoleSync, entries: seq<GoogleForms.Submission>, now: int, newId: nat -> string): nat {
    var t := SubmissionsFold(form.id, s, entries, now, newId);
    RevertCount(t.responses, form.id, ExpectedIn(t.expected, form.id), t.people, SubmittedEmails(entries), now)
  }

  /** The whole collection, in order; a Google id that no stored form carries is skipped. */
  function PolesSyncFold(forms: seq<Form>, s: PoleSync, data: GoogleForms.Collected, now: int, newId: nat -> string): PoleSync {
    if data == [] then s
    else
      var before := PolesSyncFold(forms, s, data[..|data| - 1], now, newId);
      var form := FormByGoogleId(forms, data[|data| - 1].0);
      if form.Some? then FormSynced(form.value, before, data[|data| - 1].1, now, newId) else before
  }

  /** The reverted rows the whole sync counts. */
  function SyncReverts(forms: seq<Form>, s: PoleSync, data: GoogleForms.Collected, now: int, newId: nat -> string): nat {
    if data == [] then 0
    else
      var before := PolesSyncFold(forms, s, data[..|data| - 1], now, newId);
      var form := FormByGoogleId(forms, data[|data| - 1].0);
      SyncReverts(forms, s, data[..|data| - 1], now, newId) +
      (if form.Some? then FormReverts(form.value, before, data[|data| - 1].1, now, newId) else 0)
  }

  // ----- the counts of `sync_stats` -----

  /** The outcome the sync reports for a credit. */
  function OutcomeOf(formId: string, s: PoleSync, c: Credit): Outcome {
    match c
    case NoEmail => Skipped
    case Refused => CreateFailed
    case Known(personId) => Matched(personId, false, HasPair(s.responses, formId, personId))
    case Newcomer(p) => Matched(p.id, true, true)
  }

  /** The outcome of one submission on form `formId`, from the tables before it. */
  function StepOutcome(formId: string, s: PoleSync, entry: GoogleForms.Submission, now: int, newId: nat -> string): Outcome {
    OutcomeOf(formId, s, CreditFor(formId, s, entry, now, newId))
  }

  /** What one outcome adds to `sync_stats`: an update for a marked row, an error for a
      refused person or a failed mark, and a creation for a created person. */
  function Tally(o: Outcome): SyncStats {
    match o
    case Skipped => SyncStats(0, 0, 0)
    case CreateFailed => SyncStats(0, 0, 1)
    case Matched(_, created, marked) => SyncStats(if marked then 1 else 0, if created then 1 else 0, if marked then 0 else 1)
  }

  function Plus(a: SyncStats, b: SyncStats): SyncStats {
    SyncStats(a.updated + b.updated, a.created + b.created, a.errors + b.errors)
  }

  /** The counts of one form's submissions, in order. */
  function SubmissionsTally(formId: string, s: PoleSync, entries: seq<GoogleForms.Submission>, now: int, newId: nat -> string): SyncStats {
    if entries == [] then SyncStats(0, 0, 0)
    else
      var n := |entries| - 1;
      Plus(SubmissionsTally(formId, s, entries[..n], now, newId),
           Tally(StepOutcome(formId, SubmissionsFold(formId, s, entries[..n], now, newId), entries[n], now, newId)))
  }

  /** The counts of one more submission. */
  lemma SubmissionsTallySnoc(formId: string, s: PoleSync, entries: seq<GoogleForms.Submission>, j: nat, now: int, newId: nat -> string)
    requires j < |entries|
    ensures SubmissionsTally(formId, s, entries[..j + 1], now, newId) ==
      Plus(SubmissionsTally(formId, s, entries[..j], now, newId),
           Tally(StepOutcome(formId, SubmissionsFold(formId, s, entries[..j], now, newId), entries[j], now, newId)))
  {
    assert entries[..j + 1][..j] == entries[..j];
  }

  /** The counts of the whole collection: an unknown Google id counts one error, and the
      rows a form's revert step counts are updates too. */
  function SyncTally(forms: seq<Form>, s: PoleSync, data: GoogleForms.Collected, now: int, newId: nat -> string): SyncStats {
    if data == [] then SyncStats(0, 0, 0)
    else
      var n := |data| - 1;
      var before := PolesSyncFold(forms, s, data[..n], now, newId);
      var form := FormByGoogleId(forms, data[n].0);
      var t := SyncTally(forms, s, data[..n], now, newId);
      if form.None? then t.(errors := t.errors + 1)
      else
        var f := SubmissionsTally(form.value.id, before, data[n].1, now, newId);
        Plus(t, f.(updated := f.updated + FormReverts(form.value, before, data[n].1, now, newId)))
  }

  /** One submission counts one update or one error exactly when it has an email, counts
      a creation only with an update, and adds as many people as it counts creations. */
  lemma StepTally(formId: string, s: PoleSync, entry: GoogleForms.Submission, now: int, newId: nat -> string)
    ensures var t := Tally(StepOutcome(formId, s, entry, now, newId));
      t.updated + t.errors == (if HasSyncEmail(entry) then 1 else 0) && t.created <= t.updated &&
      |SubmissionStep(formId, s, entry, now, newId).people| == |s.people| + t.created
  {
    SyncEmailIff(entry);
  }

  /** The counts of a form's submissions add up: updates and errors are the submissions with
      an email, every creation is an update, and the people grow by the creations. */
  lemma {:induction false} SubmissionsTallyCounts(formId: string, s: PoleSync, entries: seq<GoogleForms.Submission>, now: int, newId: nat -> string)
    ensures var t := SubmissionsTally(formId, s, entries, now, newId);
      t.updated + t.errors == WithSyncEmail(entries) && t.created <= t.updated &&
      |SubmissionsFold(formId, s, entries, now, newId).people| == |s.people| + t.created
  {
    if entries != [] {
      var n := |entries| - 1;
      SubmissionsTallyCounts(formId, s, entries[..n], now, newId);
      StepTally(formId, SubmissionsFold(formId, s, entries[..n], now, newId), entries[n], now, newId);
    }
  }

  /** The counts of the whole sync add up: updates and errors are the submissions with an
      email to a known form, the unknown Google ids and the reverted rows; every creation
      is an update, and the people grow by the creations. */
  lemma {:induction false} SyncTallyCounts(forms: seq<Form>, s: PoleSync, data: GoogleForms.Collected, now: int, newId: nat -> string)
    ensures var t := SyncTally(forms, s, data, now, newId);
      t.updated + t.errors == Markable(forms, data) + UnknownForms(forms, data) + SyncReverts(forms, s, data, now, newId) &&
      t.created <= t.updated &&
      |PolesSyncFold(forms, s, data, now, newId).people| == |s.people| + t.created
  {
    if data != [] {
      var n := |data| - 1;
      SyncTallyCounts(forms, s, data[..n], now, newId);
      var form := FormByGoogleId(forms, data[n].0);
      if form.Some? {
        SubmissionsTallyCounts(form.value.id, PolesSyncFold(forms, s, data[..n], now, newId), data[n].1, now, newId);
      }
    }
  }

  /** The revert step un-marks only responded rows of the form for expected people it
      reverts, and keeps the table's length. */
  lemma {:induction false} RevertAllSpec(rs: seq<Response>, formId: string, exp: seq<string>, people: seq<Person>, submitted: set<string>, now: int)
    ensures |RevertAll(rs, formId, exp, people, submitted, now)| == |rs|
    ensures forall k :: 0 <= k < |rs| ==>
      RevertedOrSame(rs[k], RevertAll(rs, formId, exp, people, submitted, now)[k], formId, exp, people, submitted, now)
  {
    if exp != [] {
      var init := exp[..|exp| - 1];
      var pid := exp[|exp| - 1];
      var before := RevertAll(rs, formId, init, people, submitted, now);
      var after := RevertAll(rs, formId, exp, people, submitted, now);
      assert exp == init + [pid];
      RevertAllSpec(rs, formId, init, people, submitted, now);
      if ShouldRevert(people, submitted, pid) {
        RevertedSpec(before, formId, pid, now);
      }
      forall k | 0 <= k < |rs| ensures RevertedOrSame(rs[k], after[k], formId, exp, people, submitted, now) {
        assert RevertedOrSame(rs[k], before[k], formId, init, people, submitted, now);
        if after[k] != before[k] {
          assert before[k] == rs[k];
        }
      }
    }
  }

  /** One more expected id in the revert step. */
  lemma RevertSnoc(rs: seq<Response>, formId: string, exp: seq<string>, i: nat, people: seq<Person>, submitted: set<string>, now: int)
    requires i < |exp|
    ensures var before := RevertAll(rs, formId, exp[..i], people, submitted, now);
      var revert := ShouldRevert(people, submitted, exp[i]);
      RevertAll(rs, formId, exp[..i + 1], people, submitted, now) == (if revert then Reverted(before, formId, exp[i], now) else before) &&
      RevertCount(rs, formId, exp[..i + 1], people, submitted, now) ==
        RevertCount(rs, formId, exp[..i], people, submitted, now) + (if revert && !NoRespondedRow(before, formId, exp[i]) then 1 else 0)
  {
    assert exp[..i + 1][..i] == exp[..i];
  }

  /** Reverting a pair with no responded row changes nothing. */
  lemma RevertedNoop(rs: seq<Response>, formId: string, personId: string, now: int)
    requires NoRespondedRow(rs, formId, personId)
    ensures Reverted(rs, formId, personId, now) == rs
  {
    RevertedSpec(rs, formId, personId, now);
  }

  /** After the revert step, no expected person it reverts has a responded row, and every
      pair outside the step's reach keeps its rows. */
  lemma {:induction false} RevertAllClears(rs: seq<Response>, formId: string, exp: seq<string>, people: seq<Person>, submitted: set<string>, now: int)
    ensures forall k :: 0 <= k < |exp| && ShouldRevert(people, submitted, exp[k]) ==>
      NoRespondedRow(RevertAll(rs, formId, exp, people, submitted, now), formId, exp[k])
    ensures RevertCount(rs, formId, exp, people, submitted, now) <= |exp|
  {
    if exp != [] {
      var init := exp[..|exp| - 1];
      var before := RevertAll(rs, formId, init, people, submitted, now);
      var pid := exp[|exp| - 1];
      RevertAllClears(rs, formId, init, people, submitted, now);
      if ShouldRevert(people, submitted, pid) {
        RevertedSpec(before, formId, pid, now);
      }
      forall k | 0 <= k < |exp| && ShouldRevert(people, submitted, exp[k])
        ensures NoRespondedRow(RevertAll(rs, formId, exp, people, submitted, now), formId, exp[k])
      {
        if k < |exp| - 1 {
          assert init[k] == exp[k];
        }
      }
    }
  }

  /** Once every person a revert step would revert has no responded row, the step changes
      nothing and counts nothing. */
  lemma {:induction false} RevertAllQuiet(rs: seq<Response>, formId: string, exp: seq<string>, people: seq<Person>, submitted: set<string>, now: int)
    requires forall k :: 0 <= k < |exp| && ShouldRevert(people, submitted, exp[k]) ==> NoRespondedRow(rs, formId, exp[k])
    ensures RevertAll(rs, formId, exp, people, submitted, now) == rs
    ensures RevertCount(rs, formId, exp, people, submitted, now) == 0
  {
    if exp != [] {
      var init := exp[..|exp| - 1];
      assert forall k :: 0 <= k < |init| ==> init[k] == exp[k];
      RevertAllQuiet(rs, formId, init, people, submitted, now);
      if ShouldRevert(people, submitted, exp[|exp| - 1]) {
        RevertedNoop(rs, formId, exp[|exp| - 1], now);
      }
    }
  }

  /** Running the revert step a second time with the same submissions changes nothing and
      counts nothing. */
  lemma RevertAllIdempotent(rs: seq<Response>, formId: string, exp: seq<string>, people: seq<Person>, submitted: set<string>, now: int)
    ensures var once := RevertAll(rs, formId, exp, people, submitted, now);
      RevertAll(once, formId, exp, people, submitted, now) == once &&
      RevertCount(once, formId, exp, people, submitted, now) == 0
  {
    RevertAllClears(rs, formId, exp, people, submitted, now);
    RevertAllQuiet(RevertAll(rs, formId, exp, people, submitted, now), formId, exp, people, submitted, now);
  }

  /** The pair has a row, and every row of the pair is marked responded. */
  predicate AllResponded(rs: seq<Response>, formId: string, personId: string) {
    HasPair(rs, formId, personId) &&
    forall i :: 0 <= i < |rs| && rs[i].formId == formId && rs[i].personId == personId ==> rs[i].hasResponded
  }

  /** Marking a pair that has a row leaves all its rows responded, and un-marks nothing. */
  lemma SetRespondedMarks(rs: seq<Response>, formId: string, personId: string, date: Option<int>, now: int)
    ensures HasPair(rs, formId, personId) ==> AllResponded(SetResponded(rs, formId, personId, date, now), formId, personId)
    ensures forall f, q :: AllResponded(rs, f, q) ==> AllResponded(SetResponded(rs, formId, personId, date, now), f, q)
  {
    var u := SetResponded(rs, formId, personId, date, now);
    assert forall i :: 0 <= i < |u| ==>
      u[i].formId == rs[i].formId && u[i].personId == rs[i].personId && (rs[i].hasResponded ==> u[i].hasResponded);
  }

  /** The person whose rows a credit marks: the matched person when they have a row for the
      form, or the person created for the submission. */
  function MarkedBy(formId: string, s: PoleSync, c: Credit): Option<string> {
    match c
    case Known(pid) => if HasPair(s.responses, formId, pid) then Some(pid) else None
    case Newcomer(p) => Some(p.id)
    case _ => None
  }

  /** The person the `j`-th submission of a form marks, from the tables the earlier
      submissions leave. */
  function MarkedAt(formId: string, s: PoleSync, entries: seq<GoogleForms.Submission>, j: nat, now: int, newId: nat -> string): Option<string>
    requires j < |entries|
  {
    var before := SubmissionsFold(formId, s, entries[..j], now, newId);
    MarkedBy(formId, before, CreditFor(formId, before, entries[j], now, newId))
  }

  /** A credit leaves the person it marks fully responded, and un-marks nobody. */
  lemma CreditMarks(formId: string, s: PoleSync, c: Credit, date: Option<int>, now: int, newId: nat -> string)
    ensures MarkedBy(formId, s, c).Some? ==>
      AllResponded(ApplyCredit(formId, s, c, date, now, newId).responses, formId, MarkedBy(formId, s, c).value)
    ensures forall f, q :: AllResponded(s.responses, f, q) ==> AllResponded(ApplyCredit(formId, s, c, date, now, newId).responses, f, q)
  {
    match c
    case Known(pid) =>
      SetRespondedMarks(s.responses, formId, pid, date, now);
    case Newcomer(p) =>
      var rows := s.responses + [NewResponse(newId(s.ids + 1), formId, p.id, now)];
      assert rows[|rows| - 1].formId == formId && rows[|rows| - 1].personId == p.id;
      forall f, q | AllResponded(s.responses, f, q) && (f != formId || q != p.id) ensures AllResponded(rows, f, q) {
        var i :| 0 <= i < |s.responses| && s.responses[i].formId == f && s.responses[i].personId == q;
        assert rows[i] == s.responses[i];
      }
      SetRespondedMarks(rows, formId, p.id, date, now);
    case NoEmail =>
    case Refused =>
  }

  /** After a form's submissions, every person one of them credited has all their rows for
      the form responded, and every pair that was fully responded still is. */
  lemma {:induction false} FoldMarks(formId: string, s: PoleSync, entries: seq<GoogleForms.Submission>, now: int, newId: nat -> string)
    ensures forall j :: 0 <= j < |entries| && MarkedAt(formId, s, entries, j, now, newId).Some? ==>
      AllResponded(SubmissionsFold(formId, s, entries, now, newId).responses, formId, MarkedAt(formId, s, entries, j, now, newId).value)
    ensures forall f, q :: AllResponded(s.responses, f, q) ==> AllResponded(SubmissionsFold(formId, s, entries, now, newId).responses, f, q)
  {
    if entries != [] {
      var n := |entries| - 1;
      var init := entries[..n];
      var before := SubmissionsFold(formId, s, init, now, newId);
      FoldMarks(formId, s, init, now, newId);
      CreditMarks(formId, before, CreditFor(formId, before, entries[n], now, newId), SyncDate(entries[n].timestamp, now), now, newId);
      forall j | 0 <= j < n
        ensures MarkedAt(formId, s, entries, j, now, newId) == MarkedAt(formId, s, init, j, now, newId)
      {
        assert entries[..j] == init[..j];
      }
    }
  }

  /** After one form of the sync, a person one of its submissions credited has all their rows
      for the form responded, unless the revert step reverts them (absent from the
      submissions by their stored email); the tables' other columns are those the
      submissions leave. */
  lemma FormSyncedMarks(form: Form, s: PoleSync, entries: seq<GoogleForms.Submission>, now: int, newId: nat -> string, j: nat)
    requires j < |entries|
    ensures var t := SubmissionsFold(form.id, s, entries, now, newId);
      var m := MarkedAt(form.id, s, entries, j, now, newId);
      m.Some? && !ShouldRevert(t.people, SubmittedEmails(entries), m.value) ==>
      AllResponded(FormSynced(form, s, entries, now, newId).responses, form.id, m.value)
  {
    var t := SubmissionsFold(form.id, s, entries, now, newId);
    var submitted := SubmittedEmails(entries);
    var exp := ExpectedIn(t.expected, form.id);
    var m := MarkedAt(form.id, s, entries, j, now, newId);
    FoldMarks(form.id, s, entries, now, newId);
    RevertAllSpec(t.responses, form.id, exp, t.people, submitted, now);
    if m.Some? && !ShouldRevert(t.people, submitted, m.value) {
      var u := FormSynced(form, s, entries, now, newId).responses;
      assert forall k :: 0 <= k < |u| && t.responses[k].personId == m.value ==> u[k] == t.responses[k];
    }
  }

  // ----- the store -----

  datatype Tables = Tables(poles: seq<Pole>, people: seq<Person>, forms: seq<Form>,
                           expected: map<string, seq<string>>, responses: seq<Response>, lastSync: Option<int>)

  class SQLiteDatabase {
    var poles: seq<Pole>
    var people: seq<Person>
    var forms: seq<Form>
    /** The `expected_people_ids` column, by form id. */
    var expected: map<string, seq<string>>
    var responses: seq<Response>
    /** The `last_sync` metadata row. */
    var lastSync: Option<int>

    /** `__init__` on a new database file: the tables are created and the default pole inserted. */
    constructor(poleId: string, now: int)
      ensures poles == [DefaultPole(poleId, now)]
      ensures people == [] && forms == [] && expected == map[] && responses == [] && lastSync == None
    {
      poles := [DefaultPole(poleId, now)];
      people, forms, expected, responses, lastSync := [], [], map[], [], None;
    }

    function State(): Tables
      reads this
    {
      Tables(poles, people, forms, expected, responses, lastSync)
    }

    /** The expected people of a form (`json.loads` of the column, [] when it is empty). */
    function ExpectedOf(formId: string): seq<string>
      reads this
    {
      ExpectedIn(expected, formId)
    }

    /** `_create_tables` on an existing database: with no pole, the default pole is inserted
        and every form without a pole is assigned to it. */
    method CreateTables(poleId: string, now: int)
      modifies this`poles, this`forms
      ensures poles == if old(poles) == [] then [DefaultPole(poleId, now)] else old(poles)
      ensures forms == if old(poles) == [] then AssignPole(old(forms), poleId) else old(forms)
    {
      if |poles| == 0 {
        poles := [DefaultPole(poleId, now)];
        forms := AssignPole(forms, poleId);
      }
    }

    /** `add_pole`. */
    method AddPole(pole: Pole) returns (ok: bool)
      modifies this`poles
      ensures ok == AcceptsPole(old(poles), pole)
      ensures poles == if ok then old(poles) + [pole] else old(poles)
    {
      var i := 0;
      while i < |poles|
        invariant 0 <= i <= |poles|
        invariant forall j :: 0 <= j < i ==> Lower(poles[j].name) != Lower(pole.name)
      {
        if Lower(poles[i].name) == Lower(pole.name) {
          return false;
        }
        i := i + 1;
      }
      if exists j :: 0 <= j < |poles| && poles[j].id == pole.id {
        return false;
      }
      poles := poles + [pole];
      return true;
    }

    /** `get_active_poles` (the ORDER BY name is not modelled). */
    function ActivePoles(): (active: seq<Pole>)
      reads this
      ensures forall p :: p in active <==> p in poles && p.isActive
    {
      FilterMembershipAll(poles, (p: Pole) => p.isActive);
      Filter(poles, (p: Pole) => p.isActive)
    }

    /** `update_pole`. */
    method UpdatePole(id: string, name: string, description: string, color: string, isActive: bool, now: int) returns (ok: bool)
      modifies this`poles
      ensures ok <==> (exists i :: 0 <= i < |old(poles)| && old(poles)[i].id == id) && !NameTakenByOther(old(poles), id, name)
      ensures poles == if ok then PolesUpdated(old(poles), id, name, description, color, isActive, now) else old(poles)
    {
      if NameTakenByOther(poles, id, name) {
        return false;
      }
      ok := exists i :: 0 <= i < |poles| && poles[i].id == id;
      poles := PolesUpdated(poles, id, name, description, color, isActive, now);
      if !ok {
        assert poles == old(poles);
      }
    }

    /** `delete_pole(pole_id, move_forms_to)`: the forms are moved first when a target is
        given; without one they keep pointing at the deleted pole. */
    method DeletePole(id: string, moveTo: string, now: int) returns (deleted: bool)
      modifies this`poles, this`forms
      ensures forms == if moveTo != [] then FormsMoved(old(forms), id, moveTo, now) else old(forms)
      ensures poles == Filter(old(poles), (p: Pole) => p.id != id)
      ensures deleted <==> exists i :: 0 <= i < |old(poles)| && old(poles)[i].id == id
    {
      if moveTo != [] {
        forms := FormsMoved(forms, id, moveTo, now);
      }
      var before := |poles|;
      FilterShrinks(poles, (p: Pole) => p.id != id);
      poles := Filter(poles, (p: Pole) => p.id != id);
      deleted := |poles| < before;
    }

    /** `get_forms_by_pole(pole_id)`. */
    function FormsByPole(poleId: string): (result: seq<(Form, seq<string>)>)
      reads this
      ensures forall k :: 0 <= k < |result| ==> result[k].0 in forms && result[k].0.poleId == poleId &&
                                                 result[k].1 == ExpectedOf(result[k].0.id)
      ensures forall f :: f in forms && f.poleId == poleId ==> exists k :: 0 <= k < |result| && result[k].0 == f
    {
      var mine := Filter(forms, (f: Form) => f.poleId == poleId);
      var e := expected;
      FilterMembershipAll(forms, (f: Form) => f.poleId == poleId);
      Map(mine, (f: Form) => (f, if f.id in e then e[f.id] else []))
    }

    /** `add_person`. */
    method AddPerson(person: Person) returns (ok: bool)
      modifies this`people
      ensures ok == AcceptsPerson(old(people), person)
      ensures people == if ok then old(people) + [person] else old(people)
    {
      if person.email != [] && PersonByEmailIgnoringCase(people, person.email).Some? {
        return false;
      }
      if person.psid != [] && PersonByPsid(people, person.psid).Some? {
        return false;
      }
      if PersonById(people, person.id).Some? {
        return false;
      }
      people := people + [person];
      return true;
    }

    /** `delete_person`: only the people row goes; the person's responses stay. */
    method DeletePerson(personId: string) returns (deleted: bool)
      modifies this`people
      ensures people == Filter(old(people), (p: Person) => p.id != personId)
      ensures deleted <==> exists i :: 0 <= i < |old(people)| && old(people)[i].id == personId
    {
      var before := |people|;
      FilterShrinks(people, (p: Person) => p.id != personId);
      people := Filter(people, (p: Person) => p.id != personId);
      deleted := |people| < before;
    }

    /** `add_form(form, expected_people_ids)`; `newId(k)` is the uuid of the k-th row. */
    method AddForm(form: Form, expectedIds: seq<string>, newId: nat -> string, now: int) returns (ok: bool)
      modifies this`forms, this`expected, this`responses
      ensures ok == AcceptsForm(old(forms), old(responses), form, expectedIds)
      ensures forms == if ok then old(forms) + [form] else old(forms)
      ensures expected == if ok then old(expected)[form.id := expectedIds] else old(expected)
      ensures responses == if ok then old(responses) + UnrespondedRows(form.id, expectedIds, newId, now) else old(responses)
    {
      if FormByGoogleId(forms, form.googleFormId).Some? {
        return false;
      }
      if !AcceptsForm(forms, responses, form, expectedIds) {
        // the INSERTs raise and the transaction is rolled back
        return false;
      }
      var rows: seq<Response> := [];
      var k := 0;
      while k < |expectedIds|
        invariant 0 <= k <= |expectedIds|
        invariant rows == UnrespondedRows(form.id, expectedIds[..k], newId, now)
      {
        assert expectedIds[..k + 1][..k] == expectedIds[..k];
        rows := rows + [NewResponse(newId(k), form.id, expectedIds[k], now)];
        k := k + 1;
      }
      assert expectedIds[..|expectedIds|] == expectedIds;
      forms := forms + [form];
      expected := expected[form.id := expectedIds];
      responses := responses + rows;
      return true;
    }

    /** `get_form_stats(form_id)`. */
    function FormStatsOf(formId: string): FormStats
      reads this
    {
      GetFormStats(responses, formId)
    }

    /** `mark_as_responded`: fails and changes nothing when the pair has no row. */
    method MarkAsResponded(formId: string, personId: string, date: Option<int>, now: int) returns (ok: bool)
      modifies this`responses
      ensures ok == HasPair(old(responses), formId, personId)
      ensures responses == if ok then SetResponded(old(responses), formId, personId, date, now) else old(responses)
    {
      if ResponseByPair(responses, formId, personId).None? {
        return false;
      }
      responses := SetResponded(responses, formId, personId, date, now);
      return true;
    }

    /** `record_reminder_sent`: succeeds exactly when the pair has a row. */
    method RecordReminderSent(formId: string, personId: string, now: int) returns (ok: bool)
      modifies this`responses
      ensures ok == HasPair(old(responses), formId, personId)
      ensures responses == SetReminded(old(responses), formId, personId, now)
    {
      ok := HasPair(responses, formId, personId);
      responses := SetReminded(responses, formId, personId, now);
    }

    /** `get_people_needing_reminders(form_id, cooldown_hours)` at time `now`. */
    function PeopleNeedingReminders(formId: string, cooldownHours: int, now: int): seq<(Person, Response)>
      reads this
    {
      NeedingReminders(people, responses, formId, cooldownHours, now)
    }

    /** `get_health_check()`. */
    function GetHealthCheck(): HealthReport
      reads this
    {
      HealthCheck(poles, people, forms, responses)
    }

    /** `get_statistics()` at time `now`. */
    function Statistics(now: int): ReminderStats
      reads this
    {
      CalculateStats(responses, people, now).(lastSync := lastSync)
    }

    /** `clear_all_data()`: every table is emptied, then `_create_tables` inserts the default
        pole again. */
    method ClearAllData(poleId: string, now: int) returns (ok: bool)
      modifies this
      ensures ok
      ensures State() == Tables([DefaultPole(poleId, now)], [], [], map[], [], None)
    {
      poles, people, forms, expected, responses, lastSync := [], [], [], map[], [], None;
      CreateTables(poleId, now);
      return true;
    }

    /** `sync_google_forms_responses(google_responses)` at time `now`; `newId(n)` is the n-th
        fresh uuid. An unknown Google id counts one error; every submission with an email
        counts one update or one error; every reverted row counts one more update. */
    method SyncGoogleFormsResponses(data: GoogleForms.Collected, now: int, newId: nat -> string)
      returns (stats: SyncStats)
      modifies this`people, this`expected, this`responses, this`lastSync
      ensures var t := PolesSyncFold(forms, PoleSync(old(people), old(expected), old(responses), 0), data, now, newId);
        people == t.people && expected == t.expected && responses == t.responses
      ensures stats.updated + stats.errors == Markable(forms, data) + UnknownForms(forms, data) +
        SyncReverts(forms, PoleSync(old(people), old(expected), old(responses), 0), data, now, newId)
      ensures stats == SyncTally(forms, PoleSync(old(people), old(expected), old(responses), 0), data, now, newId)
      ensures stats.created <= stats.updated
      ensures |people| == |old(people)| + stats.created && old(people) <= people
      ensures lastSync == Some(now)
    {
      stats := SyncStats(0, 0, 0);
      ghost var s0 := PoleSync(people, expected, responses, 0);
      var ids: nat := 0;
      var i := 0;
      while i < |data|
        invariant 0 <= i <= |data|
        invariant s0 == PoleSync(old(people), old(expected), old(responses), 0)
        invariant PoleSync(people, expected, responses, ids) == PolesSyncFold(forms, s0, data[..i], now, newId)
        invariant stats == SyncTally(forms, s0, data[..i], now, newId)
        invariant old(people) <= people
      {
        assert data[..i + 1][..i] == data[..i];
        var form := FormByGoogleId(forms, data[i].0);
        if form.None? {
          stats := stats.(errors := stats.errors + 1);
        } else {
          var marked, created, errors, back;
          marked, created, errors, back, ids := SyncForm(form.value, data[i].1, now, newId, ids);
          stats := SyncStats(stats.updated + marked + back, stats.created + created, stats.errors + errors);
        }
        i := i + 1;
      }
      assert data[..|data|] == data;
      SyncTallyCounts(forms, s0, data, now, newId);
      lastSync := Some(now);
    }

    /** One form of the sync: every submission, then the revert step over the expected people. */
    method SyncForm(form: Form, entries: seq<GoogleForms.Submission>, now: int, newId: nat -> string, ids: nat)
      returns (marked: nat, created: nat, errors: nat, reverted: nat, nextIds: nat)
      modifies this`people, this`expected, this`responses
      ensures SyncStats(marked, created, errors) ==
        SubmissionsTally(form.id, PoleSync(old(people), old(expected), old(responses), ids), entries, now, newId)
      ensures marked + errors == WithSyncEmail(entries)
      ensures created <= marked
      ensures |people| == |old(people)| + created && old(people) <= people
      ensures forall pid :: pid in ExpectedOf(form.id) && ShouldRevert(people, SubmittedEmails(entries), pid) ==>
        NoRespondedRow(responses, form.id, pid)
      ensures PoleSync(people, expected, responses, nextIds) ==
        FormSynced(form, PoleSync(old(people), old(expected), old(responses), ids), entries, now, newId)
      ensures reverted == FormReverts(form, PoleSync(old(people), old(expected), old(responses), ids), entries, now, newId)
    {
      var exp, submitted;
      marked, created, errors, exp, submitted, nextIds := SyncEntries(form.id, entries, now, newId, ids);
      reverted := RevertAbsent(form.id, exp, submitted, now);
    }

    /** The loop over one form's submissions; it also gathers the submitted emails. */
    method SyncEntries(formId: string, entries: seq<GoogleForms.Submission>, now: int, newId: nat -> string, ids: nat)
      returns (marked: nat, created: nat, errors: nat, exp: seq<string>, submitted: set<string>, nextIds: nat)
      modifies this`people, this`expected, this`responses
      ensures SyncStats(marked, created, errors) ==
        SubmissionsTally(formId, PoleSync(old(people), old(expected), old(responses), ids), entries, now, newId)
      ensures marked + errors == WithSyncEmail(entries)
      ensures created <= marked
      ensures |people| == |old(people)| + created && old(people) <= people
      ensures exp == ExpectedOf(formId)
      ensures submitted == SubmittedEmails(entries)
      ensures PoleSync(people, expected, responses, nextIds) ==
        SubmissionsFold(formId, PoleSync(old(people), old(expected), old(responses), ids), entries, now, newId)
    {
      ghost var s0 := PoleSync(old(people), old(expected), old(responses), ids);
      exp := ExpectedOf(formId);
      submitted := {};
      nextIds := ids;
      var tally := SyncStats(0, 0, 0);
      var j := 0;
      while j < |entries|
        invariant 0 <= j <= |entries|
        invariant tally == SubmissionsTally(formId, s0, entries[..j], now, newId)
        invariant old(people) <= people
        invariant submitted == SubmittedEmails(entries[..j])
        invariant exp == ExpectedOf(formId)
        invariant PoleSync(people, expected, responses, nextIds) == SubmissionsFold(formId, s0, entries[..j], now, newId)
      {
        var entry := entries[j];
        SubmittedEmailsSnoc(entries, j);
        var outcome, email;
        outcome, email, exp, nextIds := SyncSubmission(formId, exp, entry, now, newId, nextIds);
        if email != [] {
          submitted := submitted + {email};
        }
        tally := Plus(tally, Tally(outcome));
        assert tally == SubmissionsTally(formId, s0, entries[..j + 1], now, newId) by {
          SubmissionsTallySnoc(formId, s0, entries, j, now, newId);
        }
        assert PoleSync(people, expected, responses, nextIds) == SubmissionsFold(formId, s0, entries[..j + 1], now, newId) by {
          SubmissionsFoldSnoc(formId, s0, entries, j, now, newId);
        }
        j := j + 1;
      }
      assert entries[..|entries|] == entries;
      SubmissionsTallyCounts(formId, s0, entries, now, newId);
      marked, created, errors := tally.updated, tally.created, tally.errors;
    }

    /** One submission: skipped without an email; otherwise credited to the matching person,
        or to a person created for it (who joins the expected list with an unresponded row),
        whose row is then marked; marking fails when that person has no row for the form. */
    method SyncSubmission(formId: string, exp: seq<string>, entry: GoogleForms.Submission, now: int, newId: nat -> string, ids: nat)
      returns (outcome: Outcome, email: string, exp': seq<string>, nextIds: nat)
      modifies this`people, this`expected, this`responses
      requires exp == ExpectedOf(formId)
      ensures email == GoogleForms.Normalize(entry.email)
      ensures outcome.Skipped? <==> !HasSyncEmail(entry)
      ensures outcome.Skipped? <==> email == []
      ensures outcome.Matched? && outcome.created ==> outcome.marked
      ensures |people| == |old(people)| + (if outcome.Matched? && outcome.created then 1 else 0) && old(people) <= people
      ensures exp' == ExpectedOf(formId)
      ensures nextIds == ids + 2
      ensures PoleSync(people, expected, responses, nextIds) ==
        SubmissionStep(formId, PoleSync(old(people), old(expected), old(responses), ids), entry, now, newId)
      ensures outcome == StepOutcome(formId, PoleSync(old(people), old(expected), old(responses), ids), entry, now, newId)
    {
      nextIds := ids + 2;
      exp' := exp;
      email := GoogleForms.Normalize(entry.email);
      SyncEmailIff(entry);
      if email == [] {
        return Skipped, email, exp', nextIds;
      }
      ghost var credit;
      outcome, exp', credit := CreditSubmission(formId, exp, entry, email, now, newId, ids);
      CreditApplied(formId, PoleSync(old(people), old(expected), old(responses), ids), credit,
                    SyncDate(entry.timestamp, now), now, newId, PoleSync(people, expected, responses, nextIds));
    }

    /** A submission with an email: credited to the matching person, else to a person created
        for it. */
    method CreditSubmission(formId: string, exp: seq<string>, entry: GoogleForms.Submission, email: string, now: int, newId: nat -> string, ids: nat)
      returns (outcome: Outcome, exp': seq<string>, ghost credit: Credit)
      modifies this`people, this`expected, this`responses
      requires exp == ExpectedOf(formId)
      requires email == GoogleForms.Normalize(entry.email) && email != []
      ensures !outcome.Skipped? && !credit.NoEmail?
      ensures outcome.CreateFailed? <==> credit.Refused?
      ensures credit.Known? ==> outcome == Matched(credit.personId, false, HasPair(old(responses), formId, credit.personId))
      ensures credit.Newcomer? ==> outcome == Matched(credit.person.id, true, true)
      ensures |people| == |old(people)| + (if outcome.Matched? && outcome.created then 1 else 0) && old(people) <= people
      ensures exp' == ExpectedOf(formId)
      ensures credit == CreditFor(formId, PoleSync(old(people), old(expected), old(responses), ids), entry, now, newId)
      ensures credit.Refused? ==> people == old(people) && expected == old(expected) && responses == old(responses)
      ensures credit.Known? ==> (people == old(people) && expected == old(expected) &&
                                 responses == MarkedIfRow(old(responses), formId, credit.personId, SyncDate(entry.timestamp, now), now))
      ensures credit.Newcomer? ==> (people == old(people) + [credit.person] &&
                                    expected == old(expected)[formId := ExpectedIn(old(expected), formId) + [credit.person.id]] &&
                                    responses == NewcomerRows(old(responses), formId, credit.person.id, newId(ids + 1), SyncDate(entry.timestamp, now), now))
    {
      exp' := exp;
      var person := MatchPerson(exp, email);
      if person.Some? {
        var ok := MarkAsResponded(formId, person.value.id, SyncDate(entry.timestamp, now), now);
        return Matched(person.value.id, false, ok), exp', Known(person.value.id);
      }
      var created := Person(newId(ids), SyncName(entry, email), email, "", now, now);
      var added, ok;
      added, exp', ok := Enrol(formId, exp, created, newId(ids + 1), SyncDate(entry.timestamp, now), now);
      if !added {
        return CreateFailed, exp', Refused;
      }
      return Matched(created.id, true, ok), exp', Newcomer(created);
    }

    /** A person the sync creates for a submission: created (when `add_person` accepts) with
        an unresponded row, then marked as having responded. */
    method Enrol(formId: string, exp: seq<string>, person: Person, rowId: string, date: Option<int>, now: int)
      returns (added: bool, exp': seq<string>, marked: bool)
      modifies this`people, this`expected, this`responses
      requires exp == ExpectedOf(formId)
      ensures added == AcceptsPerson(old(people), person)
      ensures exp' == (if added then exp + [person.id] else exp) && exp' == ExpectedOf(formId)
      ensures marked == added
      ensures !added ==> people == old(people) && expected == old(expected) && responses == old(responses)
      ensures added ==> (people == old(people) + [person] && expected == old(expected)[formId := exp'] &&
                         responses == NewcomerRows(old(responses), formId, person.id, rowId, date, now))
    {
      marked := false;
      added, exp' := CreatePerson(formId, exp, person, rowId, now);
      if added {
        marked := MarkAsResponded(formId, person.id, date, now);
      }
    }

    /** The person a normalised email is credited to. */
    method MatchPerson(exp: seq<string>, email: string) returns (found: Option<Person>)
      ensures found == MatchFor(people, exp, email)
    {
      found := FindExpected(exp, email);
      if found.None? {
        found := PersonByEmailIgnoringCase(people, email);
      }
    }

    /** A person created by the sync: inserted (when `add_person` accepts), appended to the
        form's expected people, and given an unresponded row. */
    method CreatePerson(formId: string, exp: seq<string>, person: Person, rowId: string, now: int) returns (added: bool, exp': seq<string>)
      modifies this`people, this`expected, this`responses
      requires exp == ExpectedOf(formId)
      ensures added == AcceptsPerson(old(people), person)
      ensures people == if added then old(people) + [person] else old(people)
      ensures exp' == (if added then exp + [person.id] else exp) && exp' == ExpectedOf(formId)
      ensures expected == if added then old(expected)[formId := exp'] else old(expected)
      ensures responses == if added then old(responses) + [NewResponse(rowId, formId, person.id, now)] else old(responses)
      ensures added ==> HasPair(responses, formId, person.id)
    {
      exp' := exp;
      added := AddPerson(person);
      if added {
        exp' := exp + [person.id];
        expected := expected[formId := exp'];
        responses := responses + [NewResponse(rowId, formId, person.id, now)];
        assert responses[|responses| - 1].personId == person.id;
      }
    }

    /** The loop over the expected ids that looks for the submitted email. */
    method FindExpected(exp: seq<string>, email: string) returns (found: Option<Person>)
      ensures found == ExpectedMatch(people, exp, email)
    {
      var ps := people;
      var i := 0;
      while i < |exp|
        invariant 0 <= i <= |exp|
        invariant forall k :: 0 <= k < i ==> !EmailMatches(ps, exp[k], email)
      {
        if EmailMatches(ps, exp[i], email) {
          FirstIndexUnique(exp, (pid: string) => EmailMatches(ps, pid, email), i);
          return PersonById(ps, exp[i]);
        }
        i := i + 1;
      }
      FirstIndexUnique(exp, (pid: string) => EmailMatches(ps, pid, email), |exp|);
      return None;
    }

    /** The revert step: every expected person with an email that was not submitted gets their
        responded row put back to "not responded"; each reverted row counts once. */
    method RevertAbsent(formId: string, exp: seq<string>, submitted: set<string>, now: int) returns (reverted: nat)
      modifies this`responses
      ensures |responses| == |old(responses)|
      ensures forall k :: 0 <= k < |responses| ==>
        RevertedOrSame(old(responses)[k], responses[k], formId, exp, people, submitted, now)
      ensures forall pid :: pid in exp && ShouldRevert(people, submitted, pid) ==> NoRespondedRow(responses, formId, pid)
      ensures responses == RevertAll(old(responses), formId, exp, people, submitted, now)
      ensures reverted == RevertCount(old(responses), formId, exp, people, submitted, now)
      ensures reverted <= |exp|
    {
      var rs0, ps := responses, people;
      reverted := 0;
      var i := 0;
      while i < |exp|
        invariant 0 <= i <= |exp|
        invariant responses == RevertAll(rs0, formId, exp[..i], ps, submitted, now)
        invariant reverted == RevertCount(rs0, formId, exp[..i], ps, submitted, now)
      {
        var pid := exp[i];
        RevertSnoc(rs0, formId, exp, i, ps, submitted, now);
        if ShouldRevert(ps, submitted, pid) {
          var touched := exists k :: 0 <= k < |responses| && responses[k].formId == formId &&
                                     responses[k].personId == pid && responses[k].hasResponded;
          assert touched == !NoRespondedRow(responses, formId, pid);
          responses := Reverted(responses, formId, pid, now);
          if touched {
            reverted := reverted + 1;
          }
        }
        i := i + 1;
      }
      assert exp[..|exp|] == exp;
      RevertAllSpec(rs0, formId, exp, ps, submitted, now);
      RevertAllClears(rs0, formId, exp, ps, submitted, now);
      forall pid | pid in exp && ShouldRevert(ps, submitted, pid) ensures NoRespondedRow(responses, formId, pid) {
        var k :| 0 <= k < |exp| && exp[k] == pid;
      }
    }
  }
}
