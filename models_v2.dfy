/**
 * STN-botv2/database/models.py: the records of the v2 stores (poles, people,
 * forms, responses, groups), their validity checks, the reminder cooldown rule,
 * the Response state changes, the list queries of `DatabaseQuery` and the
 * statistics they feed. Times are integer seconds; `now` is a parameter.
 */
module ModelsV2 {
  import opened Wrappers
  import opened Text
  import opened Seqs
  import SettingsV2

  datatype Pole = Pole(id: string, name: string, description: string, color: string, isActive: bool,
                       createdAt: int, updatedAt: int)

  datatype Person = Person(id: string, name: string, email: string, psid: string, createdAt: int, updatedAt: int)

  datatype Form = Form(id: string, name: string, googleFormId: string, poleId: string, dateEnvoi: Option<int>,
                       description: string, isActive: bool, createdAt: int, updatedAt: int)

  datatype Response = Response(id: string, formId: string, personId: string, hasResponded: bool,
                               responseDate: Option<int>, lastReminder: Option<int>, reminderCount: int,
                               notes: string, createdAt: int, updatedAt: int)

  /** A freshly built Response: not responded, never reminded. */
  function NewResponse(id: string, formId: string, personId: string, now: int): Response {
    Response(id, formId, personId, false, None, None, 0, "", now, now)
  }

  // ----- validity -----

  /** `Pole.is_valid`. */
  predicate PoleIsValid(p: Pole) {
    NotBlank(p.name)
  }

  /** `Person.is_valid`. */
  predicate PersonIsValid(p: Person) {
    NotBlank(p.name) && (NotBlank(p.email) || NotBlank(p.psid))
  }

  /** `Form.is_valid`. */
  predicate FormIsValid(f: Form) {
    NotBlank(f.name) && NotBlank(f.googleFormId)
  }

  /** `Response.is_valid`. */
  predicate ResponseIsValid(r: Response) {
    r.formId != [] && r.personId != []
  }

  predicate HasNonSpace(s: string) {
    exists i :: 0 <= i < |s| && !IsSpace(s[i])
  }

  /** A person is valid exactly when the name has a non-whitespace character and so
      does the email or the psid. */
  lemma PersonValidIff(p: Person)
    ensures PersonIsValid(p) <==> HasNonSpace(p.name) && (HasNonSpace(p.email) || HasNonSpace(p.psid))
  {
    BlankIffAllSpace(p.name);
    BlankIffAllSpace(p.email);
    BlankIffAllSpace(p.psid);
  }

  /** A form is valid exactly when its name and its Google id both have a non-whitespace character. */
  lemma FormValidIff(f: Form)
    ensures FormIsValid(f) <==> HasNonSpace(f.name) && HasNonSpace(f.googleFormId)
  {
    BlankIffAllSpace(f.name);
    BlankIffAllSpace(f.googleFormId);
  }

  // ----- email normalisation -----

  /** `Person.normalize_email`: lower-cased then stripped, or "" for an empty email. */
  function NormalizeEmail(email: string): string {
    if email == [] then [] else Strip(Lower(email))
  }

  /** Normalising an already normalised email changes nothing. */
  lemma NormalizeEmailIdempotent(email: string)
    ensures NormalizeEmail(NormalizeEmail(email)) == NormalizeEmail(email)
  {
    StripLowerIdempotent(email);
  }

  /** The normalised email is lower-case. */
  lemma NormalizeEmailLowered(email: string)
    ensures IsLowered(NormalizeEmail(email))
  {
    if email != [] {
      LowerSpec(email);
      TrimKeepsLowered(Lower(email), IsSpace);
    }
  }

  /** The normalised email has no whitespace at either end. */
  lemma NormalizeEmailTrimmed(email: string)
    ensures var e := NormalizeEmail(email); e == [] || (!IsSpace(e[0]) && !IsSpace(e[|e| - 1]))
  {
    if email != [] {
      TrimEnds(Lower(email), IsSpace);
    }
  }

  // ----- form URL -----

  /** `Form.url`: the view address built from the URL template, or "" without a Google id. */
  function FormUrl(f: Form): (url: string)
    ensures url == if f.googleFormId == [] then [] else "https://docs.google.com/forms/d/" + f.googleFormId + "/viewform"
  {
    if f.googleFormId == [] then []
    else
      SettingsV2.FormUrlTemplateFills(f.googleFormId);
      var r := Format(SettingsV2.GoogleFormUrlTemplate, map["form_id" := f.googleFormId]);
      if r.Formatted? then r.text else []
  }

  /** `Form.edit_url`. */
  function FormEditUrl(f: Form): string {
    if f.googleFormId == [] then [] else "https://docs.google.com/forms/d/" + f.googleFormId + "/edit"
  }

  // ----- reminder rule -----

  /** `Response.needs_reminder`. */
  predicate NeedsReminder(r: Response) {
    !r.hasResponded
  }

  /** `Response.can_send_reminder(cooldown_hours)` evaluated at time `now`. */
  predicate CanSendReminder(r: Response, cooldownHours: int, now: int) {
    if !NeedsReminder(r) then false
    else if r.lastReminder.None? then true
    else now - r.lastReminder.value > cooldownHours * 3600
  }

  /** `mark_as_responded(response_date)` at time `now`: the given date, else now. */
  function Responded(r: Response, responseDate: Option<int>, now: int): Response {
    r.(hasResponded := true, responseDate := Some(responseDate.GetOr(now)), updatedAt := now)
  }

  /** `record_reminder_sent()` at time `now`. */
  function ReminderRecorded(r: Response, now: int): Response {
    r.(lastReminder := Some(now), reminderCount := r.reminderCount + 1, updatedAt := now)
  }

  /** Once eligible, a response stays eligible as time passes. */
  lemma CanSendReminderMonotone(r: Response, cooldownHours: int, now: int, later: int)
    requires CanSendReminder(r, cooldownHours, now) && now <= later
    ensures CanSendReminder(r, cooldownHours, later)
  {
  }

  /** Marking as responded records the date, ends eligibility for good and leaves the
      reminder history alone. */
  lemma RespondedEndsReminders(r: Response, responseDate: Option<int>, now: int, cooldownHours: int, later: int)
    ensures Responded(r, responseDate, now).hasResponded
    ensures Responded(r, responseDate, now).responseDate == (if responseDate.Some? then responseDate else Some(now))
    ensures Responded(r, responseDate, now).reminderCount == r.reminderCount
    ensures Responded(r, responseDate, now).lastReminder == r.lastReminder
    ensures !CanSendReminder(Responded(r, responseDate, now), cooldownHours, later)
  {
  }

  /** A recorded reminder counts once, keeps the response state and blocks another
      reminder until strictly more than the cooldown has passed. */
  lemma ReminderRecordedBlocksCooldown(r: Response, now: int, cooldownHours: int, later: int)
    ensures ReminderRecorded(r, now).reminderCount == r.reminderCount + 1
    ensures ReminderRecorded(r, now).hasResponded == r.hasResponded
    ensures ReminderRecorded(r, now).responseDate == r.responseDate
    ensures CanSendReminder(ReminderRecorded(r, now), cooldownHours, later) <==>
      NeedsReminder(r) && later - now > cooldownHours * 3600
  {
  }

  /** The mutable Response dataclass. */
  class ResponseObject {
    var id: string
    var formId: string
    var personId: string
    var hasResponded: bool
    var responseDate: Option<int>
    var lastReminder: Option<int>
    var reminderCount: int
    var notes: string
    var createdAt: int
    var updatedAt: int

    function Value(): Response
      reads this
    {
      Response(id, formId, personId, hasResponded, responseDate, lastReminder, reminderCount, notes, createdAt, updatedAt)
    }

    constructor(r: Response)
      ensures Value() == r
    {
      id, formId, personId := r.id, r.formId, r.personId;
      hasResponded, responseDate, lastReminder := r.hasResponded, r.responseDate, r.lastReminder;
      reminderCount, notes, createdAt, updatedAt := r.reminderCount, r.notes, r.createdAt, r.updatedAt;
    }

    /** `mark_as_responded`. */
    method MarkAsResponded(date: Option<int>, now: int)
      modifies this`hasResponded, this`responseDate, this`updatedAt
      ensures Value() == Responded(old(Value()), date, now)
    {
      hasResponded := true;
      responseDate := if date.Some? then date else Some(now);
      updatedAt := now;
    }

    /** `record_reminder_sent`. */
    method RecordReminderSent(now: int)
      modifies this`lastReminder, this`reminderCount, this`updatedAt
      ensures Value() == ReminderRecorded(old(Value()), now)
    {
      lastReminder := Some(now);
      reminderCount := reminderCount + 1;
      updatedAt := now;
    }
  }

  // ----- DatabaseQuery -----

  /** `filter_responses_by_form`. */
  function FilterResponsesByForm(rs: seq<Response>, formId: string): seq<Response> {
    Filter(rs, (x: Response) => x.formId == formId)
  }

  /** `get_non_responders`. */
  function GetNonResponders(rs: seq<Response>): seq<Response> {
    Filter(rs, NeedsReminder)
  }

  /** `get_people_needing_reminders(cooldown_hours)` at time `now`. */
  function GetPeopleNeedingReminders(rs: seq<Response>, cooldownHours: int, now: int): seq<Response> {
    Filter(rs, r => CanSendReminder(r, cooldownHours, now))
  }

  /** The queries nest, each keeping the order of its input: those who can be reminded
      are among the non-responders, who are among all responses. */
  lemma QueriesNest(rs: seq<Response>, cooldownHours: int, now: int)
    ensures IsSubseq(GetPeopleNeedingReminders(rs, cooldownHours, now), GetNonResponders(rs))
    ensures IsSubseq(GetNonResponders(rs), rs)
  {
    FilterMonotone(rs, r => CanSendReminder(r, cooldownHours, now), NeedsReminder);
    FilterIsSubseq(rs, NeedsReminder);
  }

  /** A response is reported by each query exactly when it is in the list and passes that query's test. */
  lemma QueryMembership(rs: seq<Response>, r: Response, formId: string, cooldownHours: int, now: int)
    ensures r in FilterResponsesByForm(rs, formId) <==> r in rs && r.formId == formId
    ensures r in GetNonResponders(rs) <==> r in rs && !r.hasResponded
    ensures r in GetPeopleNeedingReminders(rs, cooldownHours, now) <==> r in rs && CanSendReminder(r, cooldownHours, now)
  {
    FilterMembership(rs, (x: Response) => x.formId == formId, r);
    FilterMembership(rs, NeedsReminder, r);
    FilterMembership(rs, (x: Response) => CanSendReminder(x, cooldownHours, now), r);
  }

  // ----- statistics -----

  datatype ReminderStats = ReminderStats(totalPeople: nat, totalResponses: nat, pendingReminders: nat,
                                         sentToday: nat, successRate: real, lastSync: Option<int>)

  /** The calendar day of a timestamp (days since the epoch). */
  function Day(t: int): int {
    t / 86400
  }

  predicate HasResponded(r: Response) {
    r.hasResponded
  }

  /** `calculate_stats(responses, people)` at time `now`. */
  function CalculateStats(rs: seq<Response>, people: seq<Person>, now: int): ReminderStats {
    var responded := Count(rs, HasResponded);
    ReminderStats(|people|, |rs|, Count(rs, NeedsReminder),
                  Count(rs, (x: Response) => x.lastReminder.Some? && Day(x.lastReminder.value) == Day(now)),
                  Percent(responded, |rs|),
                  None)
  }

  /** Pending plus responded is the number of responses; the counters never exceed it;
      the success rate is a percentage and is 0 without responses. */
  lemma StatsAddUp(rs: seq<Response>, people: seq<Person>, now: int)
    ensures CalculateStats(rs, people, now).totalPeople == |people|
    ensures CalculateStats(rs, people, now).totalResponses == |rs|
    ensures CalculateStats(rs, people, now).pendingReminders + Count(rs, HasResponded) == |rs|
    ensures CalculateStats(rs, people, now).sentToday <= |rs|
    ensures 0.0 <= CalculateStats(rs, people, now).successRate <= 100.0
    ensures rs == [] ==> CalculateStats(rs, people, now).successRate == 0.0
  {
    CountSplit(rs, HasResponded, NeedsReminder);
    PercentBounds(Count(rs, HasResponded), |rs|);
  }

  // ----- groups -----

  /** `add_member` on the member list. */
  function WithMember(ids: seq<string>, personId: string): seq<string> {
    if personId in ids then ids else ids + [personId]
  }

  /** `remove_member` on the member list. */
  function WithoutMember(ids: seq<string>, personId: string): seq<string> {
    if personId in ids then RemoveFirst(ids, personId) else ids
  }

  /** Adding makes the person a member and never creates a duplicate; removing from a
      list without duplicates makes the person a non-member. */
  lemma MembershipAfterChange(ids: seq<string>, personId: string)
    requires NoDuplicates(ids)
    ensures personId in WithMember(ids, personId) && NoDuplicates(WithMember(ids, personId))
    ensures personId !in WithoutMember(ids, personId) && NoDuplicates(WithoutMember(ids, personId))
  {
    if personId !in ids {
      AppendAbsentKeepsDistinct(ids, personId);
    } else {
      RemoveFirstOfDistinct(ids, personId);
    }
  }

  /** Adding a new member and removing them again restores the list. */
  lemma AddThenRemove(ids: seq<string>, personId: string)
    requires personId !in ids
    ensures WithoutMember(WithMember(ids, personId), personId) == ids
  {
    RemoveFirstOfAppended(ids, personId);
  }

  /** The PeopleGroup dataclass. */
  class PeopleGroup {
    var id: string
    var name: string
    var description: string
    var memberIds: seq<string>
    var color: string
    var icon: string
    var isActive: bool
    var createdAt: int
    var updatedAt: int

    constructor(id: string, name: string, description: string, memberIds: seq<string>, now: int)
      ensures this.id == id && this.name == name && this.description == description && this.memberIds == memberIds
      ensures color == "#4CAF50" && icon == "👥" && isActive && createdAt == now && updatedAt == now
    {
      this.id, this.name, this.description, this.memberIds := id, name, description, memberIds;
      color, icon, isActive, createdAt, updatedAt := "#4CAF50", "👥", true, now, now;
    }

    /** `display_name`. */
    function DisplayName(): string
      reads this
    {
      icon + " " + name
    }

    /** `member_count`. */
    function MemberCount(): nat
      reads this
    {
      |memberIds|
    }

    /** `add_member`: true exactly when the person was not yet a member; only then is
        the list extended and the update time set. */
    method AddMember(personId: string, now: int) returns (added: bool)
      modifies this`memberIds, this`updatedAt
      ensures added <==> personId !in old(memberIds)
      ensures memberIds == WithMember(old(memberIds), personId)
      ensures updatedAt == if added then now else old(updatedAt)
      ensures MemberCount() == old(MemberCount()) + (if added then 1 else 0)
    {
      if personId !in memberIds {
        memberIds := memberIds + [personId];
        updatedAt := now;
        return true;
      }
      return false;
    }

    /** `remove_member`: true exactly when the person was a member; only then is the
        first occurrence removed and the update time set. */
    method RemoveMember(personId: string, now: int) returns (removed: bool)
      modifies this`memberIds, this`updatedAt
      ensures removed <==> personId in old(memberIds)
      ensures memberIds == WithoutMember(old(memberIds), personId)
      ensures updatedAt == if removed then now else old(updatedAt)
      ensures MemberCount() == old(MemberCount()) - (if removed then 1 else 0)
    {
      if personId in memberIds {
        memberIds := RemoveFirst(memberIds, personId);
        updatedAt := now;
        return true;
      }
      return false;
    }
  }
}
