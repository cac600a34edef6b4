/**
 * STN-botv2/modules/validation.py: the contact-validation helpers behind the
 * validation page, working on the people table of the SQLite store with poles. The
 * Streamlit widgets and the per-person log kept in the session are not modelled.
 */
module Validation {
  import opened Seqs
  import opened ModelsV2
  import PolesStore

  /** An entry of the list `get_pending_validations_simple` returns. */
  datatype Pending = Pending(id: string, name: string, email: string, psid: string, createdAt: int,
                             autoCaptured: bool, status: string)

  /** A person needs validation when it has a psid but no email. */
  predicate NeedsValidation(p: Person) {
    p.psid != [] && p.email == []
  }

  function AsPending(p: Person): Pending {
    Pending(p.id, p.name, p.email, p.psid, p.createdAt, p.psid != [] && p.email == [], "pending_validation")
  }

  /** The pending list as a comprehension over the people table. */
  function PendingOf(people: seq<Person>): seq<Pending> {
    Map(Filter(people, NeedsValidation), AsPending)
  }

  /** The pending entries are exactly the people with a psid and no email, each flagged
      auto-captured and with status "pending_validation". */
  lemma PendingOfSpec(people: seq<Person>)
    ensures forall e :: e in PendingOf(people) ==>
      e.psid != [] && e.email == [] && e.autoCaptured && e.status == "pending_validation"
    ensures forall p :: p in people ==> (NeedsValidation(p) <==> AsPending(p) in PendingOf(people))
  {
    var kept := Filter(people, NeedsValidation);
    FilterMembershipAll(people, NeedsValidation);
    forall p | p in people && AsPending(p) in PendingOf(people) ensures NeedsValidation(p) {
      var i :| 0 <= i < |kept| && AsPending(kept[i]) == AsPending(p);
      assert kept[i] in kept;
    }
    forall p | p in people && NeedsValidation(p) ensures AsPending(p) in PendingOf(people) {
      assert p in kept;
      var i :| 0 <= i < |kept| && kept[i] == p;
      assert PendingOf(people)[i] == AsPending(p);
    }
  }

  /** `get_pending_validations_simple(db)`: the people loop appending entries. */
  method GetPendingValidationsSimple(db: PolesStore.SQLiteDatabase) returns (pending: seq<Pending>)
    ensures pending == PendingOf(db.people)
  {
    var people := db.people;
    pending := [];
    for i := 0 to |people|
      invariant pending == Map(Filter(people[..i], NeedsValidation), AsPending)
    {
      assert people[..i + 1] == people[..i] + [people[i]];
      FilterSnoc(people[..i], people[i], NeedsValidation);
      MapSnoc(Filter(people[..i], NeedsValidation), people[i], NeedsValidation(people[i]), AsPending);
      if people[i].psid != [] && people[i].email == [] {
        pending := pending + [AsPending(people[i])];
      }
    }
    assert people[..|people|] == people;
  }

  lemma MapSnoc(s: seq<Person>, x: Person, keep: bool, f: Person -> Pending)
    ensures Map(s + (if keep then [x] else []), f) == Map(s, f) + (if keep then [f(x)] else [])
  {
    var t := s + (if keep then [x] else []);
    assert |Map(t, f)| == |Map(s, f) + (if keep then [f(x)] else [])|;
    forall i | 0 <= i < |t| ensures Map(t, f)[i] == (Map(s, f) + (if keep then [f(x)] else []))[i] {
      if i < |s| { assert t[i] == s[i]; }
    }
  }

  // ----- single validation and rejection -----

  predicate HasId(people: seq<Person>, id: string) {
    exists p :: p in people && p.id == id
  }

  /** The unique email index of the people table: another person already has this
      non-empty email. */
  predicate EmailTaken(people: seq<Person>, id: string, email: string) {
    email != [] && exists q :: q in people && q.id != id && q.email == email
  }

  /** A person row after `validate_single_person`: `updated_at` always, the email when one
      is given, the name when a new one differs from the entry's name. */
  function ValidatedRow(p: Person, entryName: string, email: string, newName: string, now: int): Person {
    p.(updatedAt := now,
       email := if email != [] then email else p.email,
       name := if newName != [] && newName != entryName then newName else p.name)
  }

  /** Validating with no email and the entry's own name changes only `updated_at`, even
      when the row's name has changed since the entry was read. */
  lemma ValidatedRowTouchOnly(p: Person, name: string, now: int)
    ensures ValidatedRow(p, name, [], name, now) == p.(updatedAt := now)
  {
  }

  /** The people table after the UPDATE of `validate_single_person`. */
  function ValidatedPeople(people: seq<Person>, entry: Pending, email: string, newName: string, now: int): seq<Person> {
    Map(people, (p: Person) => if p.id == entry.id then ValidatedRow(p, entry.name, email, newName, now) else p)
  }

  /** `validate_single_person(db, entry, user, email, new_name, notes)`: true iff a row
      has the entry's id; an email already used by another person breaks the unique
      index, so nothing changes and false is returned. An absent email is "". */
  method ValidateSinglePerson(db: PolesStore.SQLiteDatabase, entry: Pending, email: string, newName: string, now: int)
    returns (ok: bool)
    modifies db`people
    ensures var clash := EmailTaken(old(db.people), entry.id, email);
      (ok <==> !clash && HasId(old(db.people), entry.id)) &&
      db.people == if clash then old(db.people) else ValidatedPeople(old(db.people), entry, email, newName, now)
  {
    if EmailTaken(db.people, entry.id, email) {
      return false;
    }
    ok := HasId(db.people, entry.id);
    db.people := ValidatedPeople(db.people, entry, email, newName, now);
  }

  const InactivePrefix: string := "[INACTIF] "

  /** The name `reject_single_person` writes. */
  function RejectedName(name: string): (r: string)
    ensures |r| == |InactivePrefix| + |name| && r[..|InactivePrefix|] == InactivePrefix && r[|InactivePrefix|..] == name
  {
    InactivePrefix + name
  }

  /** Rejecting marks the name without losing it, and a second rejection stacks a second
      prefix instead of recognising the first. */
  lemma RejectStacks(name: string)
    ensures RejectedName(RejectedName(name)) == InactivePrefix + InactivePrefix + name
    ensures RejectedName(RejectedName(name)) != RejectedName(name)
    ensures RejectedName(name)[|InactivePrefix|..] == name
  {
    assert |RejectedName(RejectedName(name))| != |RejectedName(name)|;
  }

  function RejectedPeople(people: seq<Person>, entry: Pending, now: int): seq<Person> {
    Map(people, (p: Person) => if p.id == entry.id then p.(name := RejectedName(entry.name), updatedAt := now) else p)
  }

  /** `reject_single_person(db, entry)`: the name is rewritten from the entry's name. */
  method RejectSinglePerson(db: PolesStore.SQLiteDatabase, entry: Pending, now: int) returns (ok: bool)
    modifies db`people
    ensures ok <==> HasId(old(db.people), entry.id)
    ensures db.people == RejectedPeople(old(db.people), entry, now)
  {
    ok := HasId(db.people, entry.id);
    db.people := RejectedPeople(db.people, entry, now);
  }

  // ----- bulk actions -----

  /** The dict the bulk actions return. */
  datatype BulkResult = BulkResult(success: nat, failed: nat, errors: seq<string>)

  const ValidationFailure: string := "Échec validation "
  const RejectionFailure: string := "Échec rejet "

  /** The people table after every contact's row had its `updated_at` set. */
  function Touched(people: seq<Person>, ids: set<string>, now: int): seq<Person> {
    Map(people, (p: Person) => if p.id in ids then p.(updatedAt := now) else p)
  }

  function Ids(contacts: seq<Pending>): set<string> {
    set c | c in contacts :: c.id
  }

  /** Whether a contact's row is present; validating or rejecting never changes ids. */
  predicate Present(people: seq<Person>, c: Pending) {
    HasId(people, c.id)
  }

  /** Ids survive any per-row rewrite that keeps them. */
  lemma IdsKept(people: seq<Person>, f: Person -> Person, id: string)
    requires forall p :: f(p).id == p.id
    ensures HasId(Map(people, f), id) <==> HasId(people, id)
  {
    if HasId(people, id) {
      var p :| p in people && p.id == id;
      var i :| 0 <= i < |people| && people[i] == p;
      assert Map(people, f)[i].id == id;
    }
    if HasId(Map(people, f), id) {
      var q :| q in Map(people, f) && q.id == id;
      var i :| 0 <= i < |people| && Map(people, f)[i] == q;
      assert people[i].id == id;
    }
  }

  /** `bulk_validate_contacts(db, contacts, validator)`: each contact is validated with no
      email and its own name, so success and failure add up to the contacts, every
      failure leaves one error message, and only `updated_at` changes, on the rows of
      the contacts. */
  method BulkValidateContacts(db: PolesStore.SQLiteDatabase, contacts: seq<Pending>, now: int) returns (r: BulkResult)
    modifies db`people
    ensures r.success + r.failed == |contacts| && |r.errors| == r.failed
    ensures r.success == Count(contacts, (c: Pending) => Present(old(db.people), c))
    ensures forall i :: 0 <= i < |r.errors| ==> ValidationFailure <= r.errors[i]
    ensures db.people == Touched(old(db.people), Ids(contacts), now)
  {
    ghost var people0 := db.people;
    ghost var present := (c: Pending) => Present(people0, c);
    r := BulkResult(0, 0, []);
    for i := 0 to |contacts|
      invariant r.success + r.failed == i && |r.errors| == r.failed
      invariant r.success == Count(contacts[..i], present)
      invariant forall j :: 0 <= j < |r.errors| ==> ValidationFailure <= r.errors[j]
      invariant db.people == Touched(people0, Ids(contacts[..i]), now)
    {
      CountPrefixStep(contacts, i, present);
      ghost var before := db.people;
      TouchedPresent(people0, Ids(contacts[..i]), now, contacts[i].id);
      var ok := ValidateSinglePerson(db, contacts[i], [], contacts[i].name, now);
      TouchStep(people0, contacts, i, now);
      if ok {
        r := r.(success := r.success + 1);
      } else {
        r := r.(failed := r.failed + 1, errors := r.errors + [ValidationFailure + contacts[i].name]);
      }
    }
    assert contacts[..|contacts|] == contacts;
  }

  /** Validating one more contact with no email and its own name extends the set of
      touched rows by that contact's id. */
  lemma TouchStep(people: seq<Person>, contacts: seq<Pending>, i: nat, now: int)
    requires i < |contacts|
    ensures ValidatedPeople(Touched(people, Ids(contacts[..i]), now), contacts[i], [], contacts[i].name, now) ==
      Touched(people, Ids(contacts[..i + 1]), now)
  {
    assert Ids(contacts[..i + 1]) == Ids(contacts[..i]) + {contacts[i].id} by {
      assert contacts[..i + 1] == contacts[..i] + [contacts[i]];
    }
  }

  /** Touching rows keeps every id, and the unique email index is never hit without an
      email. */
  lemma TouchedPresent(people: seq<Person>, ids: set<string>, now: int, id: string)
    ensures HasId(Touched(people, ids, now), id) <==> HasId(people, id)
  {
    IdsKept(people, (p: Person) => if p.id in ids then p.(updatedAt := now) else p, id);
  }

  /** The people table after each contact in turn was rejected. */
  function RejectAll(people: seq<Person>, contacts: seq<Pending>, now: int): seq<Person>
    decreases |contacts|
  {
    if contacts == [] then people
    else RejectedPeople(RejectAll(people, contacts[..|contacts| - 1], now), contacts[|contacts| - 1], now)
  }

  /** Bulk rejection keeps every row and id, leaves the rows of people not listed
      untouched, and marks the name of every listed person's row. */
  lemma {:induction false} RejectAllSpec(people: seq<Person>, contacts: seq<Pending>, now: int)
    ensures |RejectAll(people, contacts, now)| == |people|
    ensures forall i :: 0 <= i < |people| ==> RejectAll(people, contacts, now)[i].id == people[i].id
    ensures forall i :: 0 <= i < |people| && people[i].id !in Ids(contacts) ==> RejectAll(people, contacts, now)[i] == people[i]
    ensures forall i :: 0 <= i < |people| && people[i].id in Ids(contacts) ==>
      InactivePrefix <= RejectAll(people, contacts, now)[i].name &&
      RejectAll(people, contacts, now)[i].updatedAt == now
    decreases |contacts|
  {
    if contacts != [] {
      var init := contacts[..|contacts| - 1];
      var last := contacts[|contacts| - 1];
      RejectAllSpec(people, init, now);
      assert contacts == init + [last];
      assert Ids(contacts) == Ids(init) + {last.id};
    }
  }

  /** `bulk_reject_contacts(db, contacts)`: success and failure add up to the contacts and
      every failure leaves one error message. */
  method BulkRejectContacts(db: PolesStore.SQLiteDatabase, contacts: seq<Pending>, now: int) returns (r: BulkResult)
    modifies db`people
    ensures r.success + r.failed == |contacts| && |r.errors| == r.failed
    ensures r.success == Count(contacts, (c: Pending) => Present(old(db.people), c))
    ensures forall i :: 0 <= i < |r.errors| ==> RejectionFailure <= r.errors[i]
    ensures db.people == RejectAll(old(db.people), contacts, now)
  {
    ghost var people0 := db.people;
    ghost var present := (c: Pending) => Present(people0, c);
    r := BulkResult(0, 0, []);
    for i := 0 to |contacts|
      invariant r.success + r.failed == i && |r.errors| == r.failed
      invariant r.success == Count(contacts[..i], present)
      invariant forall j :: 0 <= j < |r.errors| ==> RejectionFailure <= r.errors[j]
      invariant db.people == RejectAll(people0, contacts[..i], now)
      invariant forall id :: HasId(db.people, id) <==> HasId(people0, id)
    {
      CountPrefixStep(contacts, i, present);
      assert contacts[..i + 1][..i] == contacts[..i];
      ghost var before := db.people;
      var ok := RejectSinglePerson(db, contacts[i], now);
      forall id ensures HasId(db.people, id) <==> HasId(before, id) {
        IdsKept(before, (p: Person) => if p.id == contacts[i].id then p.(name := RejectedName(contacts[i].name), updatedAt := now) else p, id);
      }
      if ok {
        r := r.(success := r.success + 1);
      } else {
        r := r.(failed := r.failed + 1, errors := r.errors + [RejectionFailure + contacts[i].name]);
      }
    }
    assert contacts[..|contacts|] == contacts;
  }

  // ----- statistics -----

  /** `(now - created).days`: whole days elapsed, rounded down. */
  function DaysAgo(createdAt: int, now: int): int {
    (now - createdAt) / 86400
  }

  /** The counts `show_validation_statistics` shows. */
  datatype Stats = Stats(total: nat, autoCaptured: nat, withPsid: nat, today: nat, week: nat)

  /** `show_validation_statistics(pending)` at time `now`: the day and week counts are
      counted in one loop; today's entries are among the week's, and both among all. */
  method ValidationStatistics(pending: seq<Pending>, now: int) returns (st: Stats)
    ensures st.total == |pending|
    ensures st.autoCaptured == Count(pending, (e: Pending) => e.autoCaptured)
    ensures st.withPsid == Count(pending, (e: Pending) => e.psid != [])
    ensures st.today == Count(pending, (e: Pending) => DaysAgo(e.createdAt, now) == 0)
    ensures st.week == Count(pending, (e: Pending) => DaysAgo(e.createdAt, now) <= 7)
    ensures st.today <= st.week <= st.total
  {
    var isToday := (e: Pending) => DaysAgo(e.createdAt, now) == 0;
    var inWeek := (e: Pending) => DaysAgo(e.createdAt, now) <= 7;
    var today, week := 0, 0;
    for i := 0 to |pending|
      invariant today == Count(pending[..i], isToday) && week == Count(pending[..i], inWeek)
    {
      CountPrefixStep(pending, i, isToday);
      CountPrefixStep(pending, i, inWeek);
      var days := DaysAgo(pending[i].createdAt, now);
      if days == 0 {
        today := today + 1;
      }
      if days <= 7 {
        week := week + 1;
      }
    }
    assert pending[..|pending|] == pending;
    CountMonotone(pending, isToday, inWeek);
    st := Stats(|pending|, Count(pending, (e: Pending) => e.autoCaptured), Count(pending, (e: Pending) => e.psid != []),
                today, week);
  }

  /** On the list `get_pending_validations_simple` builds, every entry is auto-captured
      and has a psid, so those two counts equal the total. */
  lemma SimpleStatsAllFlagged(people: seq<Person>)
    ensures var pending := PendingOf(people);
      Count(pending, (e: Pending) => e.autoCaptured) == |pending| &&
      Count(pending, (e: Pending) => e.psid != []) == |pending|
  {
    var pending := PendingOf(people);
    PendingOfSpec(people);
    FilterAll(pending, (e: Pending) => e.autoCaptured);
    FilterAll(pending, (e: Pending) => e.psid != []);
  }
}
