/**
 * The lookups and integrity notions shared by the three stores of the v2
 * dashboard: find a row by key (the first match, as a `for` loop with an early
 * `return` or a keyed `SELECT` finds it), the orphan count of the health
 * checks, the join of responses with their people, and the per-submission tests
 * the synchronisation loops share.
 */
module Relations {
  import opened Wrappers
  import opened Seqs
  import opened Text
  import opened ModelsV2
  import GoogleForms

  // ----- lookups -----

  function PersonById(people: seq<Person>, id: string): Option<Person> {
    First(people, (p: Person) => p.id == id)
  }

  function PersonByPsid(people: seq<Person>, psid: string): Option<Person> {
    First(people, (p: Person) => p.psid == psid)
  }

  function FormById(forms: seq<Form>, id: string): Option<Form> {
    First(forms, (f: Form) => f.id == id)
  }

  function FormByGoogleId(forms: seq<Form>, googleId: string): Option<Form> {
    First(forms, (f: Form) => f.googleFormId == googleId)
  }

  function ResponseByPair(rs: seq<Response>, formId: string, personId: string): Option<Response> {
    First(rs, (r: Response) => r.formId == formId && r.personId == personId)
  }

  // ----- integrity -----

  /** Response ids are distinct and no (form, person) pair has two rows. */
  predicate ResponsesValid(rs: seq<Response>) {
    (forall i, j :: 0 <= i < j < |rs| ==> rs[i].id != rs[j].id) &&
    (forall i, j :: 0 <= i < j < |rs| ==> !(rs[i].formId == rs[j].formId && rs[i].personId == rs[j].personId))
  }

  /** A response whose person or form is missing. */
  predicate Orphan(people: seq<Person>, forms: seq<Form>, r: Response) {
    PersonById(people, r.personId).None? || FormById(forms, r.formId).None?
  }

  /** The orphan count of `get_health_check`, as its loop accumulates it. */
  function Orphans(people: seq<Person>, forms: seq<Form>, rs: seq<Response>): nat {
    if rs == [] then 0
    else Orphans(people, forms, rs[..|rs| - 1]) + (if Orphan(people, forms, rs[|rs| - 1]) then 1 else 0)
  }

  lemma {:induction false} OrphansZeroIff(people: seq<Person>, forms: seq<Form>, rs: seq<Response>)
    ensures Orphans(people, forms, rs) == 0 <==> forall i :: 0 <= i < |rs| ==> !Orphan(people, forms, rs[i])
  {
    if rs != [] {
      OrphansZeroIff(people, forms, rs[..|rs| - 1]);
      assert forall i :: 0 <= i < |rs| - 1 ==> rs[..|rs| - 1][i] == rs[i];
    }
  }

  // ----- joins with people -----

  /** The loops that pair each response with its person and skip responses whose person is gone. */
  function JoinPeople(people: seq<Person>, rs: seq<Response>): seq<(Person, Response)> {
    if rs == [] then []
    else
      var last := rs[|rs| - 1];
      var p := PersonById(people, last.personId);
      JoinPeople(people, rs[..|rs| - 1]) + (if p.Some? then [(p.value, last)] else [])
  }

  /** Every joined pair is a listed response with the person it names. */
  lemma {:induction false} JoinPeopleSpec(people: seq<Person>, rs: seq<Response>)
    ensures |JoinPeople(people, rs)| <= |rs|
    ensures forall i :: 0 <= i < |JoinPeople(people, rs)| ==>
      var pr := JoinPeople(people, rs)[i];
      pr.1 in rs && pr.0 in people && pr.0.id == pr.1.personId
  {
    if rs != [] {
      JoinPeopleSpec(people, rs[..|rs| - 1]);
      var init := JoinPeople(people, rs[..|rs| - 1]);
      forall i | 0 <= i < |init| ensures init[i].1 in rs {
        assert init[i].1 in rs[..|rs| - 1];
      }
    }
  }

  /** Every response whose person exists is joined. */
  lemma {:induction false} JoinPeopleComplete(people: seq<Person>, rs: seq<Response>, r: Response)
    requires r in rs && PersonById(people, r.personId).Some?
    ensures exists i :: 0 <= i < |JoinPeople(people, rs)| && JoinPeople(people, rs)[i].1 == r
  {
    var init := rs[..|rs| - 1];
    if r == rs[|rs| - 1] {
      assert JoinPeople(people, rs)[|JoinPeople(people, init)|].1 == r;
    } else {
      var k :| 0 <= k < |rs| && rs[k] == r;
      assert init[k] == r;
      JoinPeopleComplete(people, init, r);
      var i :| 0 <= i < |JoinPeople(people, init)| && JoinPeople(people, init)[i].1 == r;
      assert JoinPeople(people, rs)[i] == JoinPeople(people, init)[i];
    }
  }

  // ----- synchronisation -----

  /** The response date the sync passes: none without a timestamp, now for one that does not parse. */
  function SyncDate(stamp: GoogleForms.Stamp, now: int): Option<int> {
    match stamp
    case NoStamp => None
    case Iso(t) => Some(t)
    case Malformed => Some(now)
  }

  /** A submission whose email holds a non-whitespace character. */
  predicate HasSyncEmail(s: GoogleForms.Submission) {
    HasNonSpace(s.email)
  }

  /** The sync's test, an email that is not empty once lower-cased and stripped, holds
      exactly for the submissions with a non-whitespace character in their email. */
  lemma SyncEmailIff(s: GoogleForms.Submission)
    ensures Strip(Lower(s.email)) != [] <==> HasSyncEmail(s)
  {
    LowerSpec(s.email);
    BlankIffAllSpace(Lower(s.email));
    forall i | 0 <= i < |s.email| ensures IsSpace(Lower(s.email)[i]) <==> IsSpace(s.email[i]) {
      LowerKeepsSpaces(s.email[i]);
    }
  }

  /** How many of one form's submissions have an email. */
  function WithSyncEmail(entries: seq<GoogleForms.Submission>): nat {
    if entries == [] then 0
    else WithSyncEmail(entries[..|entries| - 1]) + (if HasSyncEmail(entries[|entries| - 1]) then 1 else 0)
  }

  lemma WithSyncEmailSnoc(entries: seq<GoogleForms.Submission>, j: nat)
    requires j < |entries|
    ensures WithSyncEmail(entries[..j + 1]) == WithSyncEmail(entries[..j]) + (if HasSyncEmail(entries[j]) then 1 else 0)
  {
    assert entries[..j + 1][..j] == entries[..j];
  }

  /** The submissions with an email that belong to a form the store knows. */
  function Markable(forms: seq<Form>, data: GoogleForms.Collected): nat {
    if data == [] then 0
    else
      var last := data[|data| - 1];
      Markable(forms, data[..|data| - 1]) +
      (if FormByGoogleId(forms, last.0).Some? then WithSyncEmail(last.1) else 0)
  }

  /** The Google ids of the collection that no stored form carries. */
  function UnknownForms(forms: seq<Form>, data: GoogleForms.Collected): nat {
    if data == [] then 0
    else UnknownForms(forms, data[..|data| - 1]) + (if FormByGoogleId(forms, data[|data| - 1].0).None? then 1 else 0)
  }
}
