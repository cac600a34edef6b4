/**
 * STN-botv3/database.py: the v3 `Database`, with poles and groups. Each table
 * is a sequence of rows in a class field and each method one atomic step. An
 * INSERT fails only on what the v3 schema declares: the primary keys, the
 * UNIQUE pole name and the UNIQUE Google id of a form. There is no email or
 * psid uniqueness and no (form, person) index, so a pair can have several
 * rows; an UPDATE touches all of them.
 */
module StoreV3 {
  import opened Wrappers
  import opened Seqs
  import opened ModelsV3

  /** The pole `_init_tables` inserts into an empty poles table. */
  function DefaultPole(id: string, now: int): Pole {
    Pole(id, "Général", "Pôle par défaut", "#FF6B6B", true, now)
  }

  /** The rows `add_form` inserts: one unresponded, never reminded row per listed person, the
      k-th with id `newId(k)`. */
  function FormRows(form: Form, newId: nat -> string): (rows: seq<Response>)
    ensures |rows| == |form.peopleIds|
    ensures forall k :: 0 <= k < |rows| ==>
      rows[k] == Response(newId(k), form.id, form.peopleIds[k], false, None)
  {
    var ids := form.peopleIds;
    seq(|ids|, k requires 0 <= k < |ids| => Response(newId(k), form.id, ids[k], false, None))
  }

  /** The rows `add_form` draws ids for clash with no stored row and with one another. */
  predicate RowIdsFree(rs: seq<Response>, newId: nat -> string, n: nat) {
    (forall j, k :: 0 <= j < k < n ==> newId(j) != newId(k)) &&
    (forall k, i :: 0 <= k < n && 0 <= i < |rs| ==> newId(k) != rs[i].id)
  }

  /** What makes `add_form` commit: an unused form id, an unused Google id and row ids that
      clash with nothing; otherwise an IntegrityError rolls everything back. */
  predicate AcceptsForm(forms: seq<Form>, rs: seq<Response>, form: Form, newId: nat -> string) {
    (forall i :: 0 <= i < |forms| ==> forms[i].id != form.id) &&
    (forall i :: 0 <= i < |forms| ==> forms[i].googleId != form.googleId) &&
    RowIdsFree(rs, newId, |form.peopleIds|)
  }

  /** The rows of the pair. */
  predicate IsPair(r: Response, formId: string, personId: string) {
    r.formId == formId && r.personId == personId
  }

  /** `UPDATE responses SET has_responded = 1 WHERE form_id = ? AND person_id = ?`. */
  function MarkPair(rs: seq<Response>, formId: string, personId: string): (rs': seq<Response>)
    ensures |rs'| == |rs|
    ensures forall i :: 0 <= i < |rs| ==>
      rs'[i] == if IsPair(rs[i], formId, personId) then rs[i].(hasResponded := true) else rs[i]
  {
    Map(rs, (r: Response) => if IsPair(r, formId, personId) then r.(hasResponded := true) else r)
  }

  /** `UPDATE responses SET last_reminder = ? WHERE form_id = ? AND person_id = ?`. */
  function RemindPair(rs: seq<Response>, formId: string, personId: string, now: int): (rs': seq<Response>)
    ensures |rs'| == |rs|
    ensures forall i :: 0 <= i < |rs| ==>
      rs'[i] == if IsPair(rs[i], formId, personId) then rs[i].(lastReminder := Some(now)) else rs[i]
  {
    Map(rs, (r: Response) => if IsPair(r, formId, personId) then r.(lastReminder := Some(now)) else r)
  }

  /** Marking the pair leaves it with no unresponded row and keeps every other row; recording
      a reminder touches only the pair's last reminder, never its responded flag. */
  lemma PairUpdatesSpec(rs: seq<Response>, formId: string, personId: string, now: int)
    ensures forall i :: 0 <= i < |rs| && IsPair(rs[i], formId, personId) ==> MarkPair(rs, formId, personId)[i].hasResponded
    ensures forall i :: 0 <= i < |rs| ==>
      RemindPair(rs, formId, personId, now)[i].hasResponded == rs[i].hasResponded &&
      RemindPair(rs, formId, personId, now)[i].(lastReminder := rs[i].lastReminder) == rs[i]
    ensures !(exists i :: 0 <= i < |rs| && IsPair(rs[i], formId, personId)) ==>
      MarkPair(rs, formId, personId) == rs && RemindPair(rs, formId, personId, now) == rs
  {
  }

  /** `get_non_responders(form_id)`: the form's unresponded rows joined to their people, in
      table order (the ORDER BY name is not modelled). */
  function NonResponders(people: seq<Person>, rs: seq<Response>, formId: string): (result: seq<(Person, Response)>)
    ensures forall k :: 0 <= k < |result| ==>
      result[k].1 in rs && result[k].1.formId == formId && !result[k].1.hasResponded &&
      result[k].0 in people && result[k].0.id == result[k].1.personId
  {
    if rs == [] then []
    else
      var r := rs[|rs| - 1];
      var init := NonResponders(people, rs[..|rs| - 1], formId);
      var matches := Filter(people, (p: Person) => p.id == r.personId);
      FilterMembershipAll(people, (p: Person) => p.id == r.personId);
      init + (if r.formId == formId && !r.hasResponded then Map(matches, (p: Person) => (p, r)) else [])
  }

  /** Every unresponded row of the form whose person exists is listed with that person. */
  lemma {:induction false} NonRespondersComplete(people: seq<Person>, rs: seq<Response>, formId: string, i: nat, p: Person)
    requires i < |rs| && rs[i].formId == formId && !rs[i].hasResponded
    requires p in people && p.id == rs[i].personId
    ensures (p, rs[i]) in NonResponders(people, rs, formId)
  {
    var init := rs[..|rs| - 1];
    if i < |rs| - 1 {
      assert rs[i] == init[i];
      NonRespondersComplete(people, init, formId, i, p);
    } else {
      var matches := Filter(people, (q: Person) => q.id == rs[i].personId);
      FilterMembershipAll(people, (q: Person) => q.id == rs[i].personId);
      var k :| 0 <= k < |matches| && matches[k] == p;
      assert Map(matches, (q: Person) => (q, rs[i]))[k] == (p, rs[i]);
    }
  }

  datatype Tables = Tables(poles: seq<Pole>, groups: seq<Group>, people: seq<Person>, forms: seq<Form>,
                           responses: seq<Response>)

  class Database {
    var poles: seq<Pole>
    var groups: seq<Group>
    var people: seq<Person>
    var forms: seq<Form>
    var responses: seq<Response>

    /** `__init__` on a new database file: the tables and the default pole. */
    constructor(poleId: string, now: int)
      ensures poles == [DefaultPole(poleId, now)]
      ensures groups == [] && people == [] && forms == [] && responses == []
    {
      poles := [DefaultPole(poleId, now)];
      groups, people, forms, responses := [], [], [], [];
    }

    function State(): Tables
      reads this
    {
      Tables(poles, groups, people, forms, responses)
    }

    /** `_init_tables` on an existing file: the default pole is inserted exactly when the
        poles table is empty. */
    method InitTables(poleId: string, now: int)
      modifies this`poles
      ensures poles == if old(poles) == [] then [DefaultPole(poleId, now)] else old(poles)
    {
      if |poles| == 0 {
        poles := [DefaultPole(poleId, now)];
      }
    }

    /** `add_person`: only a reused id makes the INSERT fail. */
    method AddPerson(person: Person) returns (ok: bool)
      modifies this`people
      ensures ok <==> forall i :: 0 <= i < |old(people)| ==> old(people)[i].id != person.id
      ensures people == if ok then old(people) + [person] else old(people)
    {
      ok := forall i :: 0 <= i < |people| ==> people[i].id != person.id;
      if ok {
        people := people + [person];
      }
    }

    /** `get_person(person_id)`. */
    function GetPerson(personId: string): (found: Option<Person>)
      reads this
      ensures found.Some? ==> found.value in people && found.value.id == personId
      ensures found.None? ==> forall i :: 0 <= i < |people| ==> people[i].id != personId
    {
      First(people, (p: Person) => p.id == personId)
    }

    /** `delete_person`: only the people row goes. */
    method DeletePerson(personId: string) returns (deleted: bool)
      modifies this`people
      ensures people == Filter(old(people), (p: Person) => p.id != personId)
      ensures deleted <==> exists i :: 0 <= i < |old(people)| && old(people)[i].id == personId
    {
      var before := |people|;
      FilterShrinks(people, (p: Person) => p.id != personId);
      people := Filter(people, (p: Person) => p.id != personId);
      deleted := |people| < before;
    }

    /** `add_pole`: a reused id or an existing name (exactly, case included) makes the INSERT fail. */
    method AddPole(pole: Pole) returns (ok: bool)
      modifies this`poles
      ensures ok <==> forall i :: 0 <= i < |old(poles)| ==> old(poles)[i].id != pole.id && old(poles)[i].name != pole.name
      ensures poles == if ok then old(poles) + [pole] else old(poles)
    {
      ok := forall i :: 0 <= i < |poles| ==> poles[i].id != pole.id && poles[i].name != pole.name;
      if ok {
        poles := poles + [pole];
      }
    }

    /** `get_poles()`: the active poles (the ORDER BY name is not modelled). */
    function GetPoles(): (active: seq<Pole>)
      reads this
      ensures forall p :: p in active <==> p in poles && p.isActive
    {
      FilterMembershipAll(poles, (p: Pole) => p.isActive);
      Filter(poles, (p: Pole) => p.isActive)
    }

    /** `get_pole(pole_id)`, active or not. */
    function GetPole(poleId: string): (found: Option<Pole>)
      reads this
      ensures found.Some? ==> found.value in poles && found.value.id == poleId
      ensures found.None? ==> forall i :: 0 <= i < |poles| ==> poles[i].id != poleId
    {
      First(poles, (p: Pole) => p.id == poleId)
    }

    /** `add_group`: only a reused id makes the INSERT fail. */
    method AddGroup(group: Group) returns (ok: bool)
      modifies this`groups
      ensures ok <==> forall i :: 0 <= i < |old(groups)| ==> old(groups)[i].id != group.id
      ensures groups == if ok then old(groups) + [group] else old(groups)
    {
      ok := forall i :: 0 <= i < |groups| ==> groups[i].id != group.id;
      if ok {
        groups := groups + [group];
      }
    }

    /** `get_groups()`: the active groups (the ORDER BY name is not modelled). */
    function GetGroups(): (active: seq<Group>)
      reads this
      ensures forall g :: g in active <==> g in groups && g.isActive
    {
      FilterMembershipAll(groups, (g: Group) => g.isActive);
      Filter(groups, (g: Group) => g.isActive)
    }

    /** `add_form(form)`: the form and one row per listed person, or nothing; `newId(k)` is
        the uuid of the k-th row. */
    method AddForm(form: Form, newId: nat -> string) returns (ok: bool)
      modifies this`forms, this`responses
      ensures ok == AcceptsForm(old(forms), old(responses), form, newId)
      ensures forms == if ok then old(forms) + [form] else old(forms)
      ensures responses == if ok then old(responses) + FormRows(form, newId) else old(responses)
    {
      if !AcceptsForm(forms, responses, form, newId) {
        return false;
      }
      var rows: seq<Response> := [];
      for k := 0 to |form.peopleIds|
        invariant rows == FormRows(form, newId)[..k]
      {
        rows := rows + [Response(newId(k), form.id, form.peopleIds[k], false, None)];
      }
      forms := forms + [form];
      responses := responses + rows;
      return true;
    }

    /** `get_forms_by_pole(pole_id)` (the ORDER BY created_at is not modelled). */
    function GetFormsByPole(poleId: string): (mine: seq<Form>)
      reads this
      ensures forall f :: f in mine <==> f in forms && f.poleId == poleId
    {
      FilterMembershipAll(forms, (f: Form) => f.poleId == poleId);
      Filter(forms, (f: Form) => f.poleId == poleId)
    }

    /** `mark_responded`: every row of the pair is marked; true iff there was one. */
    method MarkResponded(formId: string, personId: string) returns (ok: bool)
      modifies this`responses
      ensures ok <==> exists i :: 0 <= i < |old(responses)| && IsPair(old(responses)[i], formId, personId)
      ensures responses == MarkPair(old(responses), formId, personId)
    {
      ok := exists i :: 0 <= i < |responses| && IsPair(responses[i], formId, personId);
      responses := MarkPair(responses, formId, personId);
    }

    /** `get_non_responders(form_id)`. */
    function GetNonResponders(formId: string): seq<(Person, Response)>
      reads this
    {
      NonResponders(people, responses, formId)
    }

    /** `record_reminder`: only the last reminder of the pair's rows changes; there is no counter. */
    method RecordReminder(formId: string, personId: string, now: int)
      modifies this`responses
      ensures responses == RemindPair(old(responses), formId, personId, now)
    {
      responses := RemindPair(responses, formId, personId, now);
    }
  }
}
