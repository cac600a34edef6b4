/**
 * STN-botv3/services.py: the v3 services. The Apps Script reply and the
 * Messenger send are parameters: `fetched` is the reply's `emails` list, or
 * None when the request or its decoding raised; `deliver(psid, text)` is
 * whether the Graph API answered 200.
 */
module ServicesV3 {
  import opened Wrappers
  import opened Text
  import opened Seqs
  import opened ModelsV3
  import StoreV3
  import GoogleForms

  /** `GoogleFormsService.get_responses`: every non-empty email, lowercased and stripped, in
      input order; nothing when the request failed. */
  function GetResponses(fetched: Option<seq<string>>): (emails: seq<string>)
    ensures fetched.None? ==> emails == []
    ensures fetched.Some? ==> |emails| <= |fetched.value|
  {
    match fetched
    case None => []
    case Some(raw) =>
      FilterShrinks(raw, (e: string) => e != []);
      Map(Filter(raw, (e: string) => e != []), GoogleForms.Normalize)
  }

  /** An email is returned exactly when it is the normal form of a non-empty input email. */
  lemma GetResponsesMembership(raw: seq<string>, email: string)
    ensures email in GetResponses(Some(raw)) <==> exists e :: e in raw && e != [] && GoogleForms.Normalize(e) == email
  {
    var kept := Filter(raw, (e: string) => e != []);
    FilterMembershipAll(raw, (e: string) => e != []);
    var out := Map(kept, GoogleForms.Normalize);
    if email in out {
      var k :| 0 <= k < |out| && out[k] == email;
      assert kept[k] in kept;
    }
    if exists e :: e in raw && e != [] && GoogleForms.Normalize(e) == email {
      var e :| e in raw && e != [] && GoogleForms.Normalize(e) == email;
      assert e in kept;
      var k :| 0 <= k < |kept| && kept[k] == e;
      assert out[k] == email;
    }
  }

  /** An expected person `sync_form` counts: stored, with an email. */
  predicate Counted(people: seq<Person>, pid: string) {
    var p := First(people, (q: Person) => q.id == pid);
    p.Some? && p.value.email != []
  }

  /** How many of the listed ids `sync_form` counts. */
  function CountedIn(people: seq<Person>, ids: seq<string>): nat {
    if ids == [] then 0
    else CountedIn(people, ids[..|ids| - 1]) + (if Counted(people, ids[|ids| - 1]) then 1 else 0)
  }

  /** An expected person `sync_form` marks: counted, and its normalised email was submitted. */
  predicate ToMark(people: seq<Person>, submitted: seq<string>, pid: string) {
    var p := First(people, (q: Person) => q.id == pid);
    p.Some? && p.value.email != [] && GoogleForms.Normalize(p.value.email) in submitted
  }

  /** The pair has a row in the table. */
  predicate HasRow(rs: seq<Response>, formId: string, pid: string) {
    exists i :: 0 <= i < |rs| && StoreV3.IsPair(rs[i], formId, pid)
  }

  /** How many of the listed ids `sync_form` counts as updated: those to mark whose pair
      has a row (`mark_responded` returns `rowcount > 0`). */
  function MarkedIn(people: seq<Person>, submitted: seq<string>, rs: seq<Response>, formId: string, ids: seq<string>): nat {
    if ids == [] then 0
    else
      var pid := ids[|ids| - 1];
      MarkedIn(people, submitted, rs, formId, ids[..|ids| - 1]) + (if ToMark(people, submitted, pid) && HasRow(rs, formId, pid) then 1 else 0)
  }

  /** Every person `sync_form` counts as updated is one it counts in the total. */
  lemma {:induction false} MarkedWithinCounted(people: seq<Person>, submitted: seq<string>, rs: seq<Response>, formId: string, ids: seq<string>)
    ensures MarkedIn(people, submitted, rs, formId, ids) <= CountedIn(people, ids)
    decreases |ids|
  {
    if ids != [] {
      MarkedWithinCounted(people, submitted, rs, formId, ids[..|ids| - 1]);
    }
  }

  /** A row after `sync_form` has gone through the listed ids: marked when it belongs to the
      form and to one of them to mark. */
  function Synced(r: Response, formId: string, ids: seq<string>, people: seq<Person>, submitted: seq<string>): Response {
    if r.formId == formId && r.personId in ids && ToMark(people, submitted, r.personId)
    then r.(hasResponded := true) else r
  }

  /** One step of `sync_form`: the next id is counted when the person is stored with an
      email, and marked when it is one to mark. */
  lemma SyncStep(rs0: seq<Response>, before: seq<Response>, after: seq<Response>, formId: string, ids: seq<string>, j: nat,
                 people: seq<Person>, submitted: seq<string>)
    requires j < |ids| && |before| == |rs0|
    requires forall i :: 0 <= i < |before| ==> before[i] == Synced(rs0[i], formId, ids[..j], people, submitted)
    requires after == if ToMark(people, submitted, ids[j]) then StoreV3.MarkPair(before, formId, ids[j]) else before
    ensures |after| == |rs0|
    ensures forall i :: 0 <= i < |after| ==> after[i] == Synced(rs0[i], formId, ids[..j + 1], people, submitted)
    ensures CountedIn(people, ids[..j + 1]) == CountedIn(people, ids[..j]) + (if Counted(people, ids[j]) then 1 else 0)
    ensures HasRow(before, formId, ids[j]) == HasRow(rs0, formId, ids[j])
    ensures MarkedIn(people, submitted, rs0, formId, ids[..j + 1]) ==
      MarkedIn(people, submitted, rs0, formId, ids[..j]) + (if ToMark(people, submitted, ids[j]) && HasRow(rs0, formId, ids[j]) then 1 else 0)
  {
    assert ids[..j + 1][..j] == ids[..j];
    if HasRow(rs0, formId, ids[j]) {
      var i :| 0 <= i < |rs0| && StoreV3.IsPair(rs0[i], formId, ids[j]);
      assert StoreV3.IsPair(before[i], formId, ids[j]);
    }
    if HasRow(before, formId, ids[j]) {
      var i :| 0 <= i < |before| && StoreV3.IsPair(before[i], formId, ids[j]);
      assert StoreV3.IsPair(rs0[i], formId, ids[j]);
    }
    assert ids[..j + 1] == ids[..j] + [ids[j]];
    forall i | 0 <= i < |after| ensures after[i] == Synced(rs0[i], formId, ids[..j + 1], people, submitted) {
      assert rs0[i].personId in ids[..j + 1] <==> rs0[i].personId in ids[..j] || rs0[i].personId == ids[j];
    }
  }

  /** The `{name}` placeholder of the reminder text. */
  const NamePlaceholder: string := "{name}"

  /** What follows the greeting placeholder in the default reminder text. */
  function MessageBody(form: Form): (body: string)
    ensures body != [] && body[0] == ','
  {
    ",\n\nRappel pour remplir le formulaire \"" + form.name + "\".\n\nLien: " + FormUrl(form) + "\n\nMerci !"
  }

  /** The reminder text `send_reminders` uses when no custom message is given. */
  function DefaultMessage(form: Form): string {
    "Hello " + NamePlaceholder + MessageBody(form)
  }

  /** A greeting with no '{' followed by the placeholder and a comma becomes the greeting,
      the name and the comma. */
  lemma GreetingKept(hello: string, rest: string, name: string)
    requires forall i :: 0 <= i < |hello| ==> hello[i] != '{'
    requires rest != [] && rest[0] == ','
    ensures StartsWith(Replace(hello + NamePlaceholder + rest, NamePlaceholder, name), hello + name + ",")
  {
    var ph := NamePlaceholder;
    assert ph[0] == '{';
    forall i | 0 <= i < |hello| ensures !StartsWith(hello[i..] + (ph + rest), ph) {
      assert (hello[i..] + (ph + rest))[0] == hello[i];
    }
    assert hello + ph + rest == hello + (ph + rest);
    ReplaceConcat(hello, ph + rest, ph, name);
    ReplaceFront(rest, ph, name);
    assert !StartsWith(rest, ph);
    ReplaceStep(rest, ph, name);
    var out := hello + (name + ([','] + Replace(rest[1..], ph, name)));
    assert out[..|hello + name + ","|] == hello + name + ",";
  }

  /** The default text keeps the placeholder, so every reminder it makes greets the person
      by name. */
  lemma DefaultMessageGreets(form: Form, name: string)
    ensures StartsWith(Replace(DefaultMessage(form), NamePlaceholder, name), "Hello " + name + ",")
  {
    var hello := "Hello ";
    assert forall i :: 0 <= i < |hello| ==> hello[i] != '{';
    GreetingKept(hello, MessageBody(form), name);
  }

  /** The text one non-responder gets. */
  function Personalised(message: string, person: Person): string {
    Replace(message, NamePlaceholder, person.name)
  }

  /** A non-responder the send loop reaches: with a psid, and the send succeeded. */
  predicate Delivered(nr: (Person, Response), message: string, deliver: (string, string) -> bool) {
    nr.0.psid != [] && deliver(nr.0.psid, Personalised(message, nr.0))
  }

  /** The ids of the people reminded among the first `upTo` non-responders. */
  function RemindedIds(nrs: seq<(Person, Response)>, message: string, deliver: (string, string) -> bool, upTo: nat): set<string>
    requires upTo <= |nrs|
  {
    set k | 0 <= k < upTo && Delivered(nrs[k], message, deliver) :: nrs[k].0.id
  }

  /** A row after `send_reminders`: its last reminder is now when it belongs to the form and
      to a reminded person. */
  function Reminded(r: Response, formId: string, ids: set<string>, now: int): Response {
    if r.formId == formId && r.personId in ids then r.(lastReminder := Some(now)) else r
  }

  /** One step of `send_reminders`: a delivered reminder is recorded for that person. */
  lemma RemindStep(rs0: seq<Response>, before: seq<Response>, after: seq<Response>, formId: string,
                   nrs: seq<(Person, Response)>, message: string, deliver: (string, string) -> bool, j: nat, now: int)
    requires j < |nrs| && |before| == |rs0|
    requires forall i :: 0 <= i < |before| ==> before[i] == Reminded(rs0[i], formId, RemindedIds(nrs, message, deliver, j), now)
    requires after == if Delivered(nrs[j], message, deliver) then StoreV3.RemindPair(before, formId, nrs[j].0.id, now) else before
    ensures |after| == |rs0|
    ensures forall i :: 0 <= i < |after| ==> after[i] == Reminded(rs0[i], formId, RemindedIds(nrs, message, deliver, j + 1), now)
  {
    assert RemindedIds(nrs, message, deliver, j + 1) ==
      RemindedIds(nrs, message, deliver, j) + (if Delivered(nrs[j], message, deliver) then {nrs[j].0.id} else {});
  }

  class ReminderService {
    const db: StoreV3.Database

    constructor(db: StoreV3.Database)
      ensures this.db == db
    {
      this.db := db;
    }

    /** `sync_form(form)`: `total` counts the expected people that exist and have an email;
        each of them whose normalised email was submitted has its rows for the form marked,
        and `updated` counts those that had one. Nothing is ever unmarked. */
    method SyncForm(form: Form, fetched: Option<seq<string>>) returns (updated: nat, total: nat)
      modifies db`responses
      ensures total == CountedIn(db.people, form.peopleIds)
      ensures updated == MarkedIn(db.people, GetResponses(fetched), old(db.responses), form.id, form.peopleIds)
      ensures updated <= total
      ensures |db.responses| == |old(db.responses)|
      ensures forall i :: 0 <= i < |db.responses| ==>
        db.responses[i] == Synced(old(db.responses)[i], form.id, form.peopleIds, db.people, GetResponses(fetched))
      ensures forall i :: 0 <= i < |db.responses| && old(db.responses)[i].hasResponded ==> db.responses[i].hasResponded
    {
      var submitted := GetResponses(fetched);
      var ids := form.peopleIds;
      updated, total := 0, 0;
      for j := 0 to |ids|
        invariant total == CountedIn(db.people, ids[..j])
        invariant updated == MarkedIn(db.people, submitted, old(db.responses), form.id, ids[..j])
        invariant updated <= total
        invariant |db.responses| == |old(db.responses)|
        invariant forall i :: 0 <= i < |db.responses| ==>
          db.responses[i] == Synced(old(db.responses)[i], form.id, ids[..j], db.people, submitted)
      {
        ghost var before := db.responses;
        var counted, marked := SyncPerson(form.id, ids[j], submitted);
        if counted {
          total := total + 1;
        }
        if marked {
          updated := updated + 1;
        }
        SyncStep(old(db.responses), before, db.responses, form.id, ids, j, db.people, submitted);
        MarkedWithinCounted(db.people, submitted, old(db.responses), form.id, ids[..j + 1]);
      }
      assert ids[..|ids|] == ids;
    }

    /** The body of `sync_form`'s loop for one expected id: counted when the person is
        stored with an email; the person's rows for the form marked when that email,
        normalised, was submitted; `marked` when a row was there to mark. */
    method SyncPerson(formId: string, pid: string, submitted: seq<string>) returns (counted: bool, marked: bool)
      modifies db`responses
      ensures counted == Counted(db.people, pid)
      ensures marked == (ToMark(db.people, submitted, pid) && HasRow(old(db.responses), formId, pid))
      ensures marked ==> counted
      ensures db.responses == if ToMark(db.people, submitted, pid) then StoreV3.MarkPair(old(db.responses), formId, pid)
        else old(db.responses)
    {
      var person := db.GetPerson(pid);
      counted := person.Some? && person.value.email != [];
      marked := false;
      if counted && GoogleForms.Normalize(person.value.email) in submitted {
        marked := db.MarkResponded(formId, pid);
      }
    }

    /** `send_reminders(form, custom_message)` at time `now`: every non-responder counts as
        sent or failed; one without a psid fails without a send; a reminder is recorded
        exactly for the sends that succeeded. */
    method SendReminders(form: Form, customMessage: string, deliver: (string, string) -> bool, now: int)
      returns (sent: nat, failed: nat)
      modifies db`responses
      ensures var nrs := StoreV3.NonResponders(old(db.people), old(db.responses), form.id);
        var message := if customMessage != [] then customMessage else DefaultMessage(form);
        sent + failed == |nrs| &&
        sent == Count(nrs, (nr: (Person, Response)) => Delivered(nr, message, deliver)) &&
        |db.responses| == |old(db.responses)| &&
        forall i :: 0 <= i < |db.responses| ==>
          db.responses[i] == Reminded(old(db.responses)[i], form.id, RemindedIds(nrs, message, deliver, |nrs|), now)
    {
      var nrs := db.GetNonResponders(form.id);
      var message := if customMessage != [] then customMessage else DefaultMessage(form);
      sent, failed := 0, 0;
      for j := 0 to |nrs|
        invariant sent + failed == j
        invariant sent == Count(nrs[..j], (nr: (Person, Response)) => Delivered(nr, message, deliver))
        invariant |db.responses| == |old(db.responses)|
        invariant forall i :: 0 <= i < |db.responses| ==>
          db.responses[i] == Reminded(old(db.responses)[i], form.id, RemindedIds(nrs, message, deliver, j), now)
      {
        CountPrefixStep(nrs, j, (nr: (Person, Response)) => Delivered(nr, message, deliver));
        var person := nrs[j].0;
        ghost var before := db.responses;
        if person.psid == [] {
          failed := failed + 1;
        } else if deliver(person.psid, Personalised(message, person)) {
          db.RecordReminder(form.id, person.id, now);
          sent := sent + 1;
        } else {
          failed := failed + 1;
        }
        RemindStep(old(db.responses), before, db.responses, form.id, nrs, message, deliver, j, now);
      }
      assert nrs[..|nrs|] == nrs;
    }
  }
}
