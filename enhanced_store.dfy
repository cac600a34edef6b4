/**
 * STN-botv2/database/enhanced_sqlite_manager.py: the users, people (with validation
 * fields), message-history and webhook-event tables of the enhanced SQLite store, each
 * method an atomic step on them. Password hashing is an oracle (the hash is a
 * parameter), uuids and the clock are parameters, and a SQL integrity error is the
 * failing branch of the method that would raise it.
 */
module EnhancedStore {
  import opened Wrappers
  import opened Text
  import opened Seqs
  import opened EnhancedModels

  /** A `users` row; `role` is the stored string, `assigned_poles` the decoded JSON list. */
  datatype UserRow = UserRow(id: string, username: string, email: string, passwordHash: string, role: string,
                             assignedPoles: seq<string>, isActive: bool, createdAt: int, lastLogin: Option<int>)

  /** The columns of a `poles` row that the store reads. */
  datatype PoleRow = PoleRow(id: string, isActive: bool)

  /** A `message_history` row. */
  datatype MessageRow = MessageRow(id: string, formId: string, personId: string, sentBy: string, content: string,
                                   status: string, facebookMessageId: Option<string>, deliveryTimestamp: Option<int>,
                                   errorDetails: Option<string>, reminderNumber: int, templateUsed: string,
                                   createdAt: int)

  /** A `webhook_events` row. */
  datatype EventRow = EventRow(id: string, eventType: string, senderPsid: string, messageText: string,
                               processed: bool, personCreated: bool, createdPersonId: Option<string>, createdAt: int)

  // ----- people table migration -----

  /** The columns `_migrate_people_table` adds, in order. */
  const NewColumns: seq<string> := ["first_name", "last_name", "status", "facebook_profile", "auto_captured",
                                    "validation_notes", "validated_by", "validated_at"]

  /** The column list after adding each of `news` that `cols` lacks, in order. */
  function AddMissing(cols: seq<string>, news: seq<string>): seq<string> {
    cols + Filter(news, (c: string) => c !in cols)
  }

  /** The column list after the migration. */
  function Migrated(cols: seq<string>): seq<string> {
    AddMissing(cols, NewColumns)
  }

  /** Adding missing columns keeps the existing columns in front, appends only columns
      that were absent, leaves every listed column present, and a second run adds nothing. */
  lemma AddMissingSpec(cols: seq<string>, news: seq<string>)
    ensures AddMissing(cols, news)[..|cols|] == cols
    ensures forall i :: |cols| <= i < |AddMissing(cols, news)| ==> AddMissing(cols, news)[i] !in cols
    ensures forall c :: c in news ==> c in AddMissing(cols, news)
    ensures AddMissing(AddMissing(cols, news), news) == AddMissing(cols, news)
  {
    var p := (c: string) => c !in cols;
    var added := Filter(news, p);
    var m := AddMissing(cols, news);
    FilterMembershipAll(news, p);
    forall i | |cols| <= i < |m| ensures m[i] !in cols {
      assert m[i] == added[i - |cols|];
    }
    forall c | c in news ensures c in m {
      if c !in cols { assert c in added; }
    }
    var q := (c: string) => c !in m;
    FilterMembershipAll(news, q);
    if Filter(news, q) != [] {
      assert Filter(news, q)[0] in Filter(news, q);
    }
  }

  /** `_migrate_people_table` keeps the existing columns, adds only absent ones, leaves all
      eight new columns present, and running it twice adds nothing. */
  lemma MigrationSpec(cols: seq<string>)
    ensures Migrated(cols)[..|cols|] == cols
    ensures forall i :: |cols| <= i < |Migrated(cols)| ==> Migrated(cols)[i] !in cols
    ensures forall c :: c in NewColumns ==> c in Migrated(cols)
    ensures Migrated(Migrated(cols)) == Migrated(cols)
  {
    AddMissingSpec(cols, NewColumns);
  }

  // ----- users -----

  const AdminUsername: string := "admin"
  const AdminEmail: string := "admin@stnbot.local"

  /** The row `_create_default_admin` inserts (no assigned poles: the column is NULL). */
  function DefaultAdmin(id: string, passwordHash: string, now: int): UserRow {
    UserRow(id, AdminUsername, AdminEmail, passwordHash, "admin", [], true, now, None)
  }

  /** The users table after `_create_default_admin`. */
  function WithDefaultAdmin(users: seq<UserRow>, id: string, passwordHash: string, now: int): seq<UserRow> {
    if users == [] then [DefaultAdmin(id, passwordHash, now)] else users
  }

  /** An admin row is inserted exactly when the table is empty; a second initialisation
      changes nothing; the resulting table is never empty. */
  lemma DefaultAdminSpec(users: seq<UserRow>, id: string, h: string, now: int, id2: string, h2: string, now2: int)
    ensures |WithDefaultAdmin(users, id, h, now)| == |users| + (if users == [] then 1 else 0)
    ensures users != [] ==> WithDefaultAdmin(users, id, h, now) == users
    ensures users == [] ==> WithDefaultAdmin(users, id, h, now)[0].role == "admin"
    ensures WithDefaultAdmin(WithDefaultAdmin(users, id, h, now), id2, h2, now2) == WithDefaultAdmin(users, id, h, now)
  {
  }

  /** The UNIQUE constraints of the users table: id, username and email. */
  predicate Clashes(a: UserRow, b: UserRow) {
    a.id == b.id || a.username == b.username || a.email == b.email
  }

  predicate UsersUnique(users: seq<UserRow>) {
    forall i, j :: 0 <= i < j < |users| ==> !Clashes(users[i], users[j])
  }

  /** The users table after an INSERT of `row`, or None where a UNIQUE constraint fails. */
  function InsertUser(users: seq<UserRow>, row: UserRow): (r: Option<seq<UserRow>>)
    ensures r.Some? <==> forall u :: u in users ==> !Clashes(u, row)
    ensures UsersUnique(users) && r.Some? ==> UsersUnique(r.value)
  {
    if exists u :: u in users && Clashes(u, row) then None else Some(users + [row])
  }

  /** Once a user is created, creating another with the same username or email fails,
      and the table keeps its rows unique. */
  lemma DuplicateUserRejected(users: seq<UserRow>, row: UserRow, other: UserRow)
    requires InsertUser(users, row).Some?
    requires other.username == row.username || other.email == row.email
    ensures InsertUser(InsertUser(users, row).value, other).None?
  {
    assert row in InsertUser(users, row).value;
  }

  /** `create_user`'s row: `assigned_poles or []`. */
  function NewUser(id: string, username: string, email: string, passwordHash: string, role: string,
                   assignedPoles: Option<seq<string>>, now: int): (u: UserRow)
    ensures assignedPoles.None? ==> u.assignedPoles == []
    ensures u.isActive && u.lastLogin.None?
  {
    UserRow(id, username, email, passwordHash, role, if assignedPoles.Some? then assignedPoles.value else [], true, now, None)
  }

  /** The user with a given id, as `SELECT ... WHERE id = ?` finds it. */
  function UserById(users: seq<UserRow>, id: string): Option<UserRow> {
    First(users, (u: UserRow) => u.id == id)
  }

  /** `get_user_accessible_poles`: nothing for an unknown user, every active pole for an
      admin, the assigned list for anyone else. */
  function AccessiblePoles(users: seq<UserRow>, poles: seq<PoleRow>, userId: string): seq<string> {
    match UserById(users, userId)
    case None => []
    case Some(u) =>
      if u.role == "admin" then Map(Filter(poles, (p: PoleRow) => p.isActive), (p: PoleRow) => p.id)
      else u.assignedPoles
  }

  /** The stored row as the model's user, when its role string is a known role. */
  function AsUser(u: UserRow, role: UserRole): User {
    User(u.id, u.username, u.email, u.passwordHash, role, u.assignedPoles, u.isActive, u.createdAt, u.lastLogin)
  }

  /** The accessible poles agree with `User.can_access_pole`: for a non-admin a pole is
      listed exactly when the user may access it; an admin gets exactly the active poles
      (and may access all of them); an unknown user gets nothing. */
  lemma AccessibleMatchesPermission(users: seq<UserRow>, poles: seq<PoleRow>, userId: string, poleId: string)
    ensures UserById(users, userId).None? ==> AccessiblePoles(users, poles, userId) == []
    ensures UserById(users, userId).Some? ==>
      var u := UserById(users, userId).value;
      (u.role != "admin" ==> forall r :: ParseRole(u.role) == Some(r) ==>
         (poleId in AccessiblePoles(users, poles, userId) <==> CanAccessPole(AsUser(u, r), poleId))) &&
      (u.role == "admin" ==>
         (poleId in AccessiblePoles(users, poles, userId) <==> exists p :: p in poles && p.isActive && p.id == poleId) &&
         CanAccessPole(AsUser(u, Admin), poleId))
  {
    if UserById(users, userId).Some? && UserById(users, userId).value.role == "admin" {
      var act := (p: PoleRow) => p.isActive;
      var active := Filter(poles, act);
      var ids := Map(active, (p: PoleRow) => p.id);
      FilterMembershipAll(poles, act);
      if poleId in ids {
        var i :| 0 <= i < |ids| && ids[i] == poleId;
        assert active[i] in active;
      }
      if exists p :: p in poles && p.isActive && p.id == poleId {
        var p :| p in poles && p.isActive && p.id == poleId;
        assert p in active;
        var i :| 0 <= i < |active| && active[i] == p;
        assert ids[i] == poleId;
      }
    }
  }

  // ----- message history -----

  /** A Python truth test on an optional string: present and non-empty. */
  predicate Truthy(s: Option<string>) {
    s.Some? && s.value != []
  }

  /** The SET list `update_message_status` builds, in order. */
  function StatusFields(status: string, facebookMessageId: Option<string>, errorDetails: Option<string>): seq<string> {
    ["status"] +
    (if Truthy(facebookMessageId) then ["facebook_message_id"] else []) +
    (if Truthy(errorDetails) then ["error_details"] else []) +
    (if status == "delivered" then ["delivery_timestamp"] else [])
  }

  /** A message row after the UPDATE. */
  function StatusUpdated(m: MessageRow, status: string, facebookMessageId: Option<string>, errorDetails: Option<string>,
                         now: int): MessageRow {
    m.(status := status,
       facebookMessageId := if Truthy(facebookMessageId) then facebookMessageId else m.facebookMessageId,
       errorDetails := if Truthy(errorDetails) then errorDetails else m.errorDetails,
       deliveryTimestamp := if status == "delivered" then Some(now) else m.deliveryTimestamp)
  }

  /** The SET list names exactly the columns the update writes: status always, the
      Facebook id and error text only when given, the delivery time only on delivery;
      every other column keeps its value. */
  lemma StatusFieldsExact(m: MessageRow, status: string, fb: Option<string>, err: Option<string>, now: int)
    ensures var fields := StatusFields(status, fb, err);
      var m' := StatusUpdated(m, status, fb, err, now);
      "status" in fields && m'.status == status &&
      ("facebook_message_id" in fields <==> Truthy(fb)) &&
      (if Truthy(fb) then m'.facebookMessageId == fb else m'.facebookMessageId == m.facebookMessageId) &&
      ("error_details" in fields <==> Truthy(err)) &&
      (if Truthy(err) then m'.errorDetails == err else m'.errorDetails == m.errorDetails) &&
      ("delivery_timestamp" in fields <==> status == "delivered") &&
      (if status == "delivered" then m'.deliveryTimestamp == Some(now) else m'.deliveryTimestamp == m.deliveryTimestamp) &&
      m'.(status := m.status, facebookMessageId := m.facebookMessageId, errorDetails := m.errorDetails,
          deliveryTimestamp := m.deliveryTimestamp) == m
  {
    var fields := StatusFields(status, fb, err);
    var a := if Truthy(fb) then ["facebook_message_id"] else [];
    var b := if Truthy(err) then ["error_details"] else [];
    var c := if status == "delivered" then ["delivery_timestamp"] else [];
    assert fields == ["status"] + a + b + c;
    assert "facebook_message_id" != "status" && "facebook_message_id" != "error_details" &&
      "facebook_message_id" != "delivery_timestamp";
    assert "error_details" != "status" && "error_details" != "delivery_timestamp";
    assert "delivery_timestamp" != "status";
  }

  function UpdateStatusOf(ms: seq<MessageRow>, messageId: string, status: string, fb: Option<string>,
                          err: Option<string>, now: int): seq<MessageRow> {
    Map(ms, (m: MessageRow) => if m.id == messageId then StatusUpdated(m, status, fb, err, now) else m)
  }

  // ----- webhook auto-capture -----

  /** `f"{first_name} {last_name}".strip() or f"Utilisateur {sender_psid[:8]}"`. */
  function AutoName(psid: string, firstName: string, lastName: string): (name: string)
    ensures name != []
  {
    var full := Strip(firstName + " " + lastName);
    if full != [] then full else "Utilisateur " + PsidPrefix(psid)
  }

  /** `sender_psid[:8]`. */
  function PsidPrefix(psid: string): (s: string)
    ensures s <= psid && |s| <= 8 && (|psid| >= 8 ==> |s| == 8)
  {
    psid[..if |psid| < 8 then |psid| else 8]
  }

  /** The name falls back to "Utilisateur " and the first 8 characters of the psid when
      both name parts are blank; a non-blank first name gives the stripped full name. */
  lemma AutoNameFallback(psid: string, firstName: string, lastName: string)
    ensures (forall i :: 0 <= i < |firstName + " " + lastName| ==> IsSpace((firstName + " " + lastName)[i])) ==>
      AutoName(psid, firstName, lastName) == "Utilisateur " + PsidPrefix(psid)
    ensures (exists i :: 0 <= i < |firstName| && !IsSpace(firstName[i])) ==>
      AutoName(psid, firstName, lastName) == Strip(firstName + " " + lastName)
  {
    var s := firstName + " " + lastName;
    TrimEmptyIff(s, IsSpace);
    if exists i :: 0 <= i < |firstName| && !IsSpace(firstName[i]) {
      var i :| 0 <= i < |firstName| && !IsSpace(firstName[i]);
      assert !IsSpace(s[i]);
    }
  }

  /** The person `auto_create_person_from_webhook` inserts. */
  function AutoPerson(id: string, psid: string, firstName: string, lastName: string, now: int): EnhancedPerson {
    EnhancedPerson(id, AutoName(psid, firstName, lastName), firstName, lastName, "", psid, PendingValidation,
                   true, "", None, None, now, now)
  }

  function PersonByPsid(people: seq<EnhancedPerson>, psid: string): Option<EnhancedPerson> {
    First(people, (p: EnhancedPerson) => p.psid == psid)
  }

  predicate HasPersonId(people: seq<EnhancedPerson>, id: string) {
    exists p :: p in people && p.id == id
  }

  /** The id returned and the people table after `auto_create_person_from_webhook`: a known
      psid gives the existing id and no insert; a clashing new id is an integrity error
      (None); otherwise the new pending person is appended. */
  function AutoCreate(people: seq<EnhancedPerson>, psid: string, firstName: string, lastName: string, newId: string,
                      now: int): (Option<string>, seq<EnhancedPerson>)
  {
    match PersonByPsid(people, psid)
    case Some(p) => (Some(p.id), people)
    case None =>
      if HasPersonId(people, newId) then (None, people)
      else (Some(newId), people + [AutoPerson(newId, psid, firstName, lastName, now)])
  }

  /** Auto-capture is idempotent: a second webhook from the same psid returns the same id
      and inserts nothing, whatever profile and fresh id it comes with. */
  lemma AutoCreateIdempotent(people: seq<EnhancedPerson>, psid: string, f1: string, l1: string, id1: string, t1: int,
                             f2: string, l2: string, id2: string, t2: int)
    requires AutoCreate(people, psid, f1, l1, id1, t1).0.Some?
    ensures var (id, people') := AutoCreate(people, psid, f1, l1, id1, t1);
      AutoCreate(people', psid, f2, l2, id2, t2) == (id, people')
  {
    var (id, people') := AutoCreate(people, psid, f1, l1, id1, t1);
    var has := (p: EnhancedPerson) => p.psid == psid;
    if PersonByPsid(people, psid).None? {
      var k := FirstIndex(people', has);
      assert people'[|people|].psid == psid;
      assert forall j :: 0 <= j < |people| ==> people'[j] == people[j];
      FirstIndexUnique(people', has, |people|);
    }
  }

  /** A newly captured person is pending validation, marked auto-captured, has a
      non-empty name and carries the sender's psid. */
  lemma AutoPersonSpec(people: seq<EnhancedPerson>, psid: string, firstName: string, lastName: string, newId: string,
                       now: int)
    requires PersonByPsid(people, psid).None? && !HasPersonId(people, newId)
    ensures var (id, people') := AutoCreate(people, psid, firstName, lastName, newId, now);
      id == Some(newId) && |people'| == |people| + 1 && people'[..|people|] == people &&
      var p := people'[|people|];
      p.id == newId && p.psid == psid && p.status == PendingValidation && p.autoCaptured && p.name != [] &&
      p.email == []
  {
    var people' := AutoCreate(people, psid, firstName, lastName, newId, now).1;
    assert people'[..|people|] == people;
  }

  /** The webhook event after the person it announced was created. */
  function MarkEventCreated(events: seq<EventRow>, eventId: string, personId: string): seq<EventRow> {
    Map(events, (e: EventRow) =>
      if e.id == eventId then e.(personCreated := true, createdPersonId := Some(personId), processed := true) else e)
  }

  // ----- person validation -----

  /** The unique email index: another person already has this non-empty email. */
  predicate EmailTaken(people: seq<EnhancedPerson>, personId: string, email: string) {
    email != [] && exists q :: q in people && q.id != personId && q.email == email
  }

  /** A person row after `validate_person`. */
  function Validated(p: EnhancedPerson, validator: string, email: Option<string>, notes: Option<string>,
                     now: int): EnhancedPerson {
    p.(status := Active, validatedBy := Some(validator), validatedAt := Some(now), updatedAt := now,
       email := if Truthy(email) then email.value else p.email,
       validationNotes := if Truthy(notes) then notes.value else p.validationNotes)
  }

  /** A validated person is active with the validator recorded, keeps the email and notes
      unless new ones are given, and keeps its name, psid and capture flag. */
  lemma ValidatedSpec(p: EnhancedPerson, validator: string, email: Option<string>, notes: Option<string>, now: int)
    ensures var v := Validated(p, validator, email, notes, now);
      v.status == Active && v.validatedBy == Some(validator) && v.validatedAt == Some(now) &&
      (v.email == p.email <==> !Truthy(email) || email.value == p.email) &&
      (v.validationNotes == p.validationNotes <==> !Truthy(notes) || notes.value == p.validationNotes) &&
      v.id == p.id && v.name == p.name && v.psid == p.psid && v.autoCaptured == p.autoCaptured &&
      DisplayStatus(v.status) == ActiveLabel
  {
  }

  class EnhancedSQLiteDatabase {
    var peopleColumns: seq<string>
    var users: seq<UserRow>
    var poles: seq<PoleRow>
    var people: seq<EnhancedPerson>
    var messages: seq<MessageRow>
    var events: seq<EventRow>

    /** The tables as they are on disk before `__init__` runs. */
    constructor(columns: seq<string>, existingUsers: seq<UserRow>, existingPoles: seq<PoleRow>,
                existingPeople: seq<EnhancedPerson>, existingMessages: seq<MessageRow>, existingEvents: seq<EventRow>)
      ensures peopleColumns == columns && users == existingUsers && poles == existingPoles
      ensures people == existingPeople && messages == existingMessages && events == existingEvents
    {
      peopleColumns, users, poles := columns, existingUsers, existingPoles;
      people, messages, events := existingPeople, existingMessages, existingEvents;
    }

    /** `_create_enhanced_tables`: the migration runs, then the default admin is created. */
    method CreateEnhancedTables(adminId: string, adminHash: string, now: int)
      modifies this`peopleColumns, this`users
      ensures peopleColumns == Migrated(old(peopleColumns))
      ensures users == WithDefaultAdmin(old(users), adminId, adminHash, now)
    {
      MigratePeopleTable();
      CreateDefaultAdmin(adminId, adminHash, now);
    }

    /** `_migrate_people_table`: each new column is added when the original column list
        lacks it. */
    method MigratePeopleTable()
      modifies this`peopleColumns
      ensures peopleColumns == Migrated(old(peopleColumns))
    {
      AddColumns(NewColumns);
    }

    /** The loop of the migration over the columns to add. */
    method AddColumns(news: seq<string>)
      modifies this`peopleColumns
      ensures peopleColumns == AddMissing(old(peopleColumns), news)
    {
      var existing := peopleColumns;
      var absent := (c: string) => c !in existing;
      for i := 0 to |news|
        invariant peopleColumns == existing + Filter(news[..i], absent)
      {
        assert news[..i + 1] == news[..i] + [news[i]];
        FilterSnoc(news[..i], news[i], absent);
        if news[i] !in existing {
          peopleColumns := peopleColumns + [news[i]];
        }
      }
      assert news[..|news|] == news;
    }

    /** `_create_default_admin`. */
    method CreateDefaultAdmin(adminId: string, adminHash: string, now: int)
      modifies this`users
      ensures users == WithDefaultAdmin(old(users), adminId, adminHash, now)
    {
      if |users| == 0 {
        users := users + [DefaultAdmin(adminId, adminHash, now)];
      }
    }

    /** `create_user`: false with no row when the id, username or email is taken. */
    method CreateUser(username: string, email: string, passwordHash: string, role: string,
                      assignedPoles: Option<seq<string>>, newId: string, now: int) returns (ok: bool)
      modifies this`users
      ensures var row := NewUser(newId, username, email, passwordHash, role, assignedPoles, now);
        (ok <==> InsertUser(old(users), row).Some?) &&
        users == if ok then InsertUser(old(users), row).value else old(users)
    {
      var row := NewUser(newId, username, email, passwordHash, role, assignedPoles, now);
      var r := InsertUser(users, row);
      if r.None? {
        return false;
      }
      users := r.value;
      ok := true;
    }

    /** `get_user_accessible_poles(user_id)`. */
    function GetUserAccessiblePoles(userId: string): seq<string>
      reads this
    {
      AccessiblePoles(users, poles, userId)
    }

    /** `update_message_status`: true even when no row has the id. */
    method UpdateMessageStatus(messageId: string, status: string, facebookMessageId: Option<string>,
                               errorDetails: Option<string>, now: int) returns (ok: bool)
      modifies this`messages
      ensures ok
      ensures messages == UpdateStatusOf(old(messages), messageId, status, facebookMessageId, errorDetails, now)
    {
      messages := UpdateStatusOf(messages, messageId, status, facebookMessageId, errorDetails, now);
      ok := true;
    }

    /** `get_person_by_psid`. */
    function GetPersonByPsid(psid: string): Option<EnhancedPerson>
      reads this
    {
      PersonByPsid(people, psid)
    }

    /** `auto_create_person_from_webhook`: the people table follows `AutoCreate`; the
        webhook event is marked processed with the created person only when one was
        created. */
    method AutoCreatePersonFromWebhook(psid: string, firstName: string, lastName: string, eventId: string,
                                       newId: string, now: int) returns (id: Option<string>)
      modifies this`people, this`events
      ensures (id, people) == AutoCreate(old(people), psid, firstName, lastName, newId, now)
      ensures events == if |people| > |old(people)| then MarkEventCreated(old(events), eventId, newId) else old(events)
    {
      var existing := GetPersonByPsid(psid);
      if existing.Some? {
        return Some(existing.value.id);
      }
      if HasPersonId(people, newId) {
        return None;
      }
      people := people + [AutoPerson(newId, psid, firstName, lastName, now)];
      events := MarkEventCreated(events, eventId, newId);
      id := Some(newId);
    }

    /** `validate_person`: every row with the id is validated and true is returned iff one
        matched; an email another person already has fails the unique index, so nothing
        changes and false is returned. */
    method ValidatePerson(personId: string, validator: string, email: Option<string>, notes: Option<string>,
                          now: int) returns (ok: bool)
      modifies this`people
      ensures var clash := Truthy(email) && EmailTaken(old(people), personId, email.value);
        (ok <==> !clash && exists p :: p in old(people) && p.id == personId) &&
        people == if clash then old(people)
                  else Map(old(people), (p: EnhancedPerson) => if p.id == personId then Validated(p, validator, email, notes, now) else p)
    {
      if Truthy(email) && EmailTaken(people, personId, email.value) {
        return false;
      }
      ok := exists p :: p in people && p.id == personId;
      people := Map(people, (p: EnhancedPerson) => if p.id == personId then Validated(p, validator, email, notes, now) else p);
    }
  }
}
