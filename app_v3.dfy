/**
 * STN-botv3/app.py: the parts of the v3 dashboard that change the store behind its
 * pages: the repair of forms whose pole is gone, the form edit that rebuilds the
 * form's responses, the two-click confirmation before each deletion, and the checks
 * the add-person and edit-form inputs go through before anything is written.
 *
 * The confirmation flags live in Streamlit's session state; here they are the set of
 * flag keys that are currently set. Each `sqlite3.connect(...)` block is one
 * transaction: an exception inside it rolls every statement of the block back.
 */
module AppV3 {
  import opened Wrappers
  import opened Seqs
  import opened Text
  import opened ModelsV3
  import StoreV3

  // ----- orphaned forms -----

  /** A form the repair reassigns: it has no pole, or its pole is not among `poles`. */
  predicate OrphanedForm(f: Form, poles: seq<Pole>) {
    f.poleId == [] || forall i :: 0 <= i < |poles| ==> poles[i].id != f.poleId
  }

  /** `OrphanedForm` as a test on forms. */
  function OrphanIn(poles: seq<Pole>): Form -> bool {
    (f: Form) => OrphanedForm(f, poles)
  }

  /** A form after the repair: an orphan moves to the first pole, any other form stays. */
  function Reassigned(f: Form, poles: seq<Pole>): Form
    requires poles != []
  {
    if OrphanedForm(f, poles) then f.(poleId := poles[0].id) else f
  }

  /** All forms after `repair_orphaned_forms`, with `poles` the active poles; with no active
      pole nothing is written. */
  function Repaired(forms: seq<Form>, poles: seq<Pole>): (r: seq<Form>)
    ensures |r| == |forms|
  {
    if poles == [] then forms else Map(forms, f => Reassigned(f, poles))
  }

  /** The repair moves exactly the orphans, and only their pole: every other form is left
      as it was; when the first active pole has an id no form is an orphan afterwards; and
      repairing twice is repairing once. */
  lemma RepairedSpec(forms: seq<Form>, poles: seq<Pole>, i: nat)
    requires i < |forms|
    ensures poles == [] ==> Repaired(forms, poles) == forms
    ensures !OrphanedForm(forms[i], poles) ==> Repaired(forms, poles)[i] == forms[i]
    ensures poles != [] && OrphanedForm(forms[i], poles) ==> Repaired(forms, poles)[i] == forms[i].(poleId := poles[0].id)
    ensures poles != [] && poles[0].id != [] ==> !OrphanedForm(Repaired(forms, poles)[i], poles)
    ensures Repaired(Repaired(forms, poles), poles) == Repaired(forms, poles)
  {
    var r := Repaired(forms, poles);
    if poles != [] {
      assert forall k :: 0 <= k < |r| ==> r[k] == Reassigned(forms[k], poles);
      assert forall k :: 0 <= k < |r| ==> Reassigned(r[k], poles) == r[k] by {
        forall k | 0 <= k < |r| ensures Reassigned(r[k], poles) == r[k] {
          if OrphanedForm(forms[k], poles) {
            if OrphanedForm(r[k], poles) {
              assert r[k].poleId == poles[0].id;
            }
          }
        }
      }
    }
  }

  /** `repair_orphaned_forms`: with no active pole it writes nothing; otherwise every form
      of the snapshot taken before the loop that is an orphan is moved to the first active
      pole. The forms' id is their primary key, so the UPDATE by id touches exactly the
      row of the form at hand. Returns how many forms were moved. */
  method RepairOrphanedForms(db: StoreV3.Database) returns (repaired: nat)
    modifies db`forms
    ensures db.forms == Repaired(old(db.forms), old(db.GetPoles()))
    ensures repaired == if old(db.GetPoles()) == [] then 0 else Count(old(db.forms), OrphanIn(old(db.GetPoles())))
  {
    var poles := db.GetPoles();
    if poles == [] {
      return 0;
    }
    var all := db.forms;
    repaired := 0;
    var i := 0;
    while i < |all|
      invariant 0 <= i <= |all| && |db.forms| == |all|
      invariant forall k :: 0 <= k < i ==> db.forms[k] == Reassigned(all[k], poles)
      invariant forall k :: i <= k < |all| ==> db.forms[k] == all[k]
      invariant repaired == Count(all[..i], OrphanIn(poles))
    {
      CountPrefixStep(all, i, OrphanIn(poles));
      if OrphanedForm(all[i], poles) {
        db.forms := db.forms[i := all[i].(poleId := poles[0].id)];
        repaired := repaired + 1;
      }
      i := i + 1;
    }
    assert all[..i] == all;
  }

  // ----- editing a form -----

  /** The forms after `UPDATE forms SET name, google_id, pole_id, people_ids WHERE id`. */
  function EditForms(forms: seq<Form>, formId: string, name: string, googleId: string, poleId: string,
                     peopleIds: seq<string>): (r: seq<Form>)
    ensures |r| == |forms|
    ensures forall i :: 0 <= i < |forms| && forms[i].id != formId ==> r[i] == forms[i]
    ensures forall i :: 0 <= i < |forms| && forms[i].id == formId ==>
      r[i].id == formId && r[i].name == name && r[i].googleId == googleId && r[i].poleId == poleId &&
      r[i].peopleIds == peopleIds && r[i].createdAt == forms[i].createdAt
  {
    Map(forms, (f: Form) =>
      if f.id == formId then f.(name := name, googleId := googleId, poleId := poleId, peopleIds := peopleIds) else f)
  }

  /** The rows of one form, as a test on responses. */
  function OfForm(formId: string): Response -> bool {
    (r: Response) => r.formId == formId
  }

  /** The rows of every other form. */
  function OfOtherForms(formId: string): Response -> bool {
    (r: Response) => r.formId != formId
  }

  /** The rows the edit inserts: one unresponded, never reminded row per listed person, the
      k-th with id `newId(k)`. */
  function FreshRows(formId: string, peopleIds: seq<string>, newId: nat -> string): (rows: seq<Response>)
    ensures |rows| == |peopleIds|
    ensures forall k :: 0 <= k < |rows| ==> rows[k] == Response(newId(k), formId, peopleIds[k], false, None)
  {
    seq(|peopleIds|, k requires 0 <= k < |peopleIds| => Response(newId(k), formId, peopleIds[k], false, None))
  }

  /** The new Google id is the UNIQUE id of another form, and the UPDATE does touch a row. */
  predicate GoogleIdClash(forms: seq<Form>, formId: string, googleId: string) {
    (exists i :: 0 <= i < |forms| && forms[i].id == formId) &&
    (exists j :: 0 <= j < |forms| && forms[j].id != formId && forms[j].googleId == googleId)
  }

  /** What lets the edit commit: no UNIQUE clash on the Google id, and inserted row ids that
      clash neither with the rows kept nor with one another. */
  predicate EditCommits(forms: seq<Form>, rs: seq<Response>, formId: string, googleId: string,
                        peopleIds: seq<string>, newId: nat -> string) {
    !GoogleIdClash(forms, formId, googleId) && StoreV3.RowIdsFree(Filter(rs, OfOtherForms(formId)), newId, |peopleIds|)
  }

  /** After an edit the form's rows are exactly the fresh rows, so every earlier answer and
      reminder of that form is gone, and the rows of every other form are untouched. */
  lemma {:induction false} EditResetsResponses(rs: seq<Response>, formId: string, peopleIds: seq<string>,
                                               newId: nat -> string, other: string)
    ensures Filter(Filter(rs, OfOtherForms(formId)) + FreshRows(formId, peopleIds, newId), OfForm(formId)) ==
      FreshRows(formId, peopleIds, newId)
    ensures other != formId ==>
      Filter(Filter(rs, OfOtherForms(formId)) + FreshRows(formId, peopleIds, newId), OfForm(other)) ==
      Filter(rs, OfForm(other))
  {
    var kept := Filter(rs, OfOtherForms(formId));
    var inserted := FreshRows(formId, peopleIds, newId);
    FilterAppend(kept, inserted, OfForm(formId));
    CountZeroIff(kept, OfForm(formId));
    FilterAll(inserted, OfForm(formId));
    if other != formId {
      FilterAppend(kept, inserted, OfForm(other));
      FilterFilter(rs, OfOtherForms(formId), OfForm(other));
      CountZeroIff(inserted, OfForm(other));
      assert Filter(kept, OfForm(other)) + [] == Filter(kept, OfForm(other));
    }
  }

  /** `update_form`: the UPDATE of the form row, the DELETE of all its responses and one
      INSERT per listed person, committed together or rolled back together. A form id
      that matches no row still commits the DELETE and the INSERTs; only the result says
      the form row was not found. */
  method UpdateForm(db: StoreV3.Database, formId: string, name: string, googleId: string, poleId: string,
                    peopleIds: seq<string>, newId: nat -> string) returns (ok: bool)
    modifies db`forms, db`responses
    ensures ok <==> EditCommits(old(db.forms), old(db.responses), formId, googleId, peopleIds, newId) &&
                    exists i :: 0 <= i < |old(db.forms)| && old(db.forms)[i].id == formId
    ensures db.forms == if EditCommits(old(db.forms), old(db.responses), formId, googleId, peopleIds, newId)
      then EditForms(old(db.forms), formId, name, googleId, poleId, peopleIds) else old(db.forms)
    ensures db.responses == if EditCommits(old(db.forms), old(db.responses), formId, googleId, peopleIds, newId)
      then Filter(old(db.responses), OfOtherForms(formId)) + FreshRows(formId, peopleIds, newId) else old(db.responses)
  {
    if !EditCommits(db.forms, db.responses, formId, googleId, peopleIds, newId) {
      return false;
    }
    ok := exists i :: 0 <= i < |db.forms| && db.forms[i].id == formId;
    var rows: seq<Response> := [];
    for k := 0 to |peopleIds|
      invariant rows == FreshRows(formId, peopleIds, newId)[..k]
    {
      rows := rows + [Response(newId(k), formId, peopleIds[k], false, None)];
    }
    db.forms := EditForms(db.forms, formId, name, googleId, poleId, peopleIds);
    db.responses := Filter(db.responses, OfOtherForms(formId)) + rows;
  }

  // ----- input checks -----

  /** The outcome of the add-person form's checks. */
  datatype PersonCheck = NameRequired | ContactRequired | PersonAccepted

  /** The add-person form: a name is required, then an email or a psid. */
  function CheckNewPerson(name: string, email: string, psid: string): (r: PersonCheck)
    ensures r == PersonAccepted <==> name != [] && (email != [] || psid != [])
    ensures r == NameRequired <==> name == []
  {
    if name == [] then NameRequired
    else if email == [] && psid == [] then ContactRequired
    else PersonAccepted
  }

  /** The outcome of the edit-form checks: the cleaned values it saves, or the reason. */
  datatype FormCheck = NameAndIdRequired | PeopleRequired
                     | EditAccepted(name: string, googleId: string, poleId: string, peopleIds: seq<string>)

  /** The edit-form dialog: the name and the Google id are stripped and must not be empty,
      and at least one person must be selected; no pole selected saves an empty pole id. */
  function CheckEditedForm(name: string, googleId: string, pole: Option<Pole>, people: seq<Person>): (r: FormCheck)
    ensures r.EditAccepted? <==> NotBlank(name) && NotBlank(googleId) && people != []
    ensures r.EditAccepted? ==>
      r.name == Strip(name) && r.googleId == Strip(googleId) &&
      r.poleId == (if pole.Some? then pole.value.id else []) &&
      |r.peopleIds| == |people| && forall k :: 0 <= k < |people| ==> r.peopleIds[k] == people[k].id
  {
    var cleanName := Strip(name);
    var cleanId := Strip(googleId);
    if cleanName == [] || cleanId == [] then NameAndIdRequired
    else if people == [] then PeopleRequired
    else EditAccepted(cleanName, cleanId, if pole.Some? then pole.value.id else [], Map(people, (p: Person) => p.id))
  }

  /** What an accepted edit saves is non-empty and already stripped: stripping it again
      changes nothing. */
  lemma EditAcceptedIsClean(name: string, googleId: string, pole: Option<Pole>, people: seq<Person>)
    requires CheckEditedForm(name, googleId, pole, people).EditAccepted?
    ensures var r := CheckEditedForm(name, googleId, pole, people);
      r.name != [] && Strip(r.name) == r.name && r.googleId != [] && Strip(r.googleId) == r.googleId &&
      r.peopleIds != []
  {
    TrimIdempotent(name, IsSpace);
    TrimIdempotent(googleId, IsSpace);
  }

  // ----- two-click deletion -----

  datatype Kind = PersonKind | GroupKind | PoleKind | FormKind

  /** The session-state key of the confirmation flag of one deletion. */
  function ConfirmKey(kind: Kind, id: string): string {
    match kind
    case PersonKind => "confirm_delete_person_" + id
    case GroupKind => "confirm_delete_group_" + id
    case PoleKind => "confirm_delete_pole_" + id
    case FormKind => "confirm_delete_form_" + id
  }

  /** One click on a delete button: what `delete_*_safe` returns, whether it asked the store
      to delete, and the flags afterwards. */
  datatype Click = Click(result: bool, attempted: bool, flags: set<string>)

  /** `delete_*_safe` given the flags before the click and what the deletion would return:
      without the flag the click only sets it; with the flag it deletes, and a successful
      deletion clears the flag. */
  function ConfirmClick(flags: set<string>, key: string, deleted: bool): (c: Click)
    ensures c.result ==> c.attempted
    ensures c.flags - {key} == flags - {key}
    ensures c.attempted <==> key in flags
  {
    if key in flags then
      if deleted then Click(true, true, flags - {key}) else Click(false, true, flags)
    else Click(false, false, flags + {key})
  }

  /** From an unset flag, the first click deletes nothing, returns false and sets the flag;
      the second click deletes and returns what the deletion returned, leaving the flags as
      they were before the first click on success and keeping the flag set on failure. */
  lemma TwoClicks(flags: set<string>, key: string, first: bool, second: bool)
    requires key !in flags
    ensures var c1 := ConfirmClick(flags, key, first);
      !c1.result && !c1.attempted && c1.flags == flags + {key} &&
      var c2 := ConfirmClick(c1.flags, key, second);
      c2.attempted && c2.result == second && c2.flags == (if second then flags else flags + {key})
  {
    var c1 := ConfirmClick(flags, key, first);
    assert c1.flags - {key} == flags;
  }

  /** The id of a row is present in a table. */
  predicate HasPerson(people: seq<Person>, id: string) {
    exists i :: 0 <= i < |people| && people[i].id == id
  }

  /** The dashboard: the store and the confirmation flags of the session. */
  class App {
    const db: StoreV3.Database
    var confirm: set<string>

    constructor(db: StoreV3.Database)
      ensures this.db == db && confirm == {}
    {
      this.db := db;
      confirm := {};
    }

    /** `delete_group`: DELETE by id; true iff a row went. */
    method DeleteGroup(groupId: string) returns (deleted: bool)
      modifies db`groups
      ensures db.groups == Filter(old(db.groups), (g: Group) => g.id != groupId)
      ensures deleted <==> exists i :: 0 <= i < |old(db.groups)| && old(db.groups)[i].id == groupId
    {
      FilterShrinks(db.groups, (g: Group) => g.id != groupId);
      var before := |db.groups|;
      db.groups := Filter(db.groups, (g: Group) => g.id != groupId);
      deleted := |db.groups| < before;
    }

    /** `delete_pole`: DELETE by id; true iff a row went. */
    method DeletePole(poleId: string) returns (deleted: bool)
      modifies db`poles
      ensures db.poles == Filter(old(db.poles), (p: Pole) => p.id != poleId)
      ensures deleted <==> exists i :: 0 <= i < |old(db.poles)| && old(db.poles)[i].id == poleId
    {
      FilterShrinks(db.poles, (p: Pole) => p.id != poleId);
      var before := |db.poles|;
      db.poles := Filter(db.poles, (p: Pole) => p.id != poleId);
      deleted := |db.poles| < before;
    }

    /** `delete_form`: DELETE of the form row only; foreign keys are not enforced, so its
        responses stay. */
    method DeleteForm(formId: string) returns (deleted: bool)
      modifies db`forms
      ensures db.forms == Filter(old(db.forms), (f: Form) => f.id != formId)
      ensures deleted <==> exists i :: 0 <= i < |old(db.forms)| && old(db.forms)[i].id == formId
    {
      FilterShrinks(db.forms, (f: Form) => f.id != formId);
      var before := |db.forms|;
      db.forms := Filter(db.forms, (f: Form) => f.id != formId);
      deleted := |db.forms| < before;
    }

    /** `delete_person_safe`. */
    method DeletePersonSafe(personId: string) returns (ok: bool)
      modifies this`confirm, db`people
      ensures var c := ConfirmClick(old(confirm), ConfirmKey(PersonKind, personId), HasPerson(old(db.people), personId));
        ok == c.result && confirm == c.flags &&
        db.people == if c.attempted then Filter(old(db.people), (p: Person) => p.id != personId) else old(db.people)
    {
      var key := ConfirmKey(PersonKind, personId);
      if key in confirm {
        ok := db.DeletePerson(personId);
        if ok {
          confirm := confirm - {key};
        }
      } else {
        confirm := confirm + {key};
        ok := false;
      }
    }

    /** `delete_group_safe`. */
    method DeleteGroupSafe(groupId: string) returns (ok: bool)
      modifies this`confirm, db`groups
      ensures var c := ConfirmClick(old(confirm), ConfirmKey(GroupKind, groupId),
                                    exists i :: 0 <= i < |old(db.groups)| && old(db.groups)[i].id == groupId);
        ok == c.result && confirm == c.flags &&
        db.groups == if c.attempted then Filter(old(db.groups), (g: Group) => g.id != groupId) else old(db.groups)
    {
      var key := ConfirmKey(GroupKind, groupId);
      if key in confirm {
        ok := DeleteGroup(groupId);
        if ok {
          confirm := confirm - {key};
        }
      } else {
        confirm := confirm + {key};
        ok := false;
      }
    }

    /** `delete_pole_safe`. */
    method DeletePoleSafe(poleId: string) returns (ok: bool)
      modifies this`confirm, db`poles
      ensures var c := ConfirmClick(old(confirm), ConfirmKey(PoleKind, poleId),
                                    exists i :: 0 <= i < |old(db.poles)| && old(db.poles)[i].id == poleId);
        ok == c.result && confirm == c.flags &&
        db.poles == if c.attempted then Filter(old(db.poles), (p: Pole) => p.id != poleId) else old(db.poles)
    {
      var key := ConfirmKey(PoleKind, poleId);
      if key in confirm {
        ok := DeletePole(poleId);
        if ok {
          confirm := confirm - {key};
        }
      } else {
        confirm := confirm + {key};
        ok := false;
      }
    }

    /** `delete_form_safe`. */
    method DeleteFormSafe(formId: string) returns (ok: bool)
      modifies this`confirm, db`forms
      ensures var c := ConfirmClick(old(confirm), ConfirmKey(FormKind, formId),
                                    exists i :: 0 <= i < |old(db.forms)| && old(db.forms)[i].id == formId);
        ok == c.result && confirm == c.flags &&
        db.forms == if c.attempted then Filter(old(db.forms), (f: Form) => f.id != formId) else old(db.forms)
    {
      var key := ConfirmKey(FormKind, formId);
      if key in confirm {
        ok := DeleteForm(formId);
        if ok {
          confirm := confirm - {key};
        }
      } else {
        confirm := confirm + {key};
        ok := false;
      }
    }

    /** The delete button of a pole: refused while any form names the pole, otherwise the
        two-click deletion. A pole is therefore never deleted while a form points to it. */
    method PoleDeleteClicked(poleId: string) returns (ok: bool)
      modifies this`confirm, db`poles
      ensures |old(db.GetFormsByPole(poleId))| > 0 ==> !ok && confirm == old(confirm) && db.poles == old(db.poles)
      ensures |old(db.GetFormsByPole(poleId))| == 0 ==>
        var c := ConfirmClick(old(confirm), ConfirmKey(PoleKind, poleId),
                              exists i :: 0 <= i < |old(db.poles)| && old(db.poles)[i].id == poleId);
        ok == c.result && confirm == c.flags &&
        db.poles == if c.attempted then Filter(old(db.poles), (p: Pole) => p.id != poleId) else old(db.poles)
      ensures db.poles != old(db.poles) ==> forall i :: 0 <= i < |db.forms| ==> db.forms[i].poleId != poleId
    {
      var formsCount := |db.GetFormsByPole(poleId)|;
      if formsCount > 0 {
        return false;
      }
      CountZeroIff(db.forms, (f: Form) => f.poleId == poleId);
      ok := DeletePoleSafe(poleId);
    }

    /** The add-person form: the checks, then `add_person` of a person with the drawn id and
        the current time. */
    method AddPersonSubmitted(name: string, email: string, psid: string, id: string, now: int)
        returns (check: PersonCheck, added: bool)
      modifies db`people
      ensures check == CheckNewPerson(name, email, psid)
      ensures added <==> check == PersonAccepted && !HasPerson(old(db.people), id)
      ensures db.people == if added then old(db.people) + [Person(id, name, email, psid, now)] else old(db.people)
    {
      check := CheckNewPerson(name, email, psid);
      if check != PersonAccepted {
        return check, false;
      }
      added := db.AddPerson(Person(id, name, email, psid, now));
    }

    /** The save button of the edit-form dialog: the checks, then `update_form` with the
        cleaned values. */
    method SaveEditedForm(formId: string, name: string, googleId: string, pole: Option<Pole>, people: seq<Person>,
                          newId: nat -> string) returns (check: FormCheck, saved: bool)
      modifies db`forms, db`responses
      ensures check == CheckEditedForm(name, googleId, pole, people)
      ensures !check.EditAccepted? ==> !saved && db.forms == old(db.forms) && db.responses == old(db.responses)
      ensures check.EditAccepted? ==>
        (saved <==> EditCommits(old(db.forms), old(db.responses), formId, check.googleId, check.peopleIds, newId) &&
                    exists i :: 0 <= i < |old(db.forms)| && old(db.forms)[i].id == formId)
      ensures check.EditAccepted? && EditCommits(old(db.forms), old(db.responses), formId, check.googleId, check.peopleIds, newId) ==>
        db.forms == EditForms(old(db.forms), formId, check.name, check.googleId, check.poleId, check.peopleIds) &&
        db.responses == Filter(old(db.responses), OfOtherForms(formId)) + FreshRows(formId, check.peopleIds, newId)
      ensures check.EditAccepted? && !EditCommits(old(db.forms), old(db.responses), formId, check.googleId, check.peopleIds, newId) ==>
        db.forms == old(db.forms) && db.responses == old(db.responses)
    {
      check := CheckEditedForm(name, googleId, pole, people);
      if !check.EditAccepted? {
        return check, false;
      }
      saved := UpdateForm(db, formId, check.name, check.googleId, check.poleId, check.peopleIds, newId);
    }
  }
}
