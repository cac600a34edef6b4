/**
 * STN-botv2/database/enhanced_models.py: users with roles and assigned poles, people
 * with a validation status, and the message-history record. The enum values are the
 * strings the enhanced SQLite store keeps in its status and role columns.
 */
module EnhancedModels {
  import opened Wrappers

  datatype UserRole = Admin | PoleManager | Viewer

  datatype PersonStatus = Active | PendingValidation | Inactive

  datatype MessageStatus = MsgSent | MsgDelivered | MsgFailed

  datatype User = User(id: string, username: string, email: string, passwordHash: string, role: UserRole,
                       assignedPoles: seq<string>, isActive: bool, createdAt: int, lastLogin: Option<int>)

  datatype EnhancedPerson = EnhancedPerson(id: string, name: string, firstName: string, lastName: string,
                                           email: string, psid: string, status: PersonStatus, autoCaptured: bool,
                                           validationNotes: string, validatedBy: Option<string>,
                                           validatedAt: Option<int>, createdAt: int, updatedAt: int)

  // ----- enum values as stored -----

  function RoleValue(r: UserRole): string {
    match r
    case Admin => "admin"
    case PoleManager => "pole_manager"
    case Viewer => "viewer"
  }

  /** `UserRole(value)`: None where the enum constructor would raise. */
  function ParseRole(s: string): (r: Option<UserRole>)
    ensures r.Some? ==> RoleValue(r.value) == s
  {
    if s == "admin" then Some(Admin)
    else if s == "pole_manager" then Some(PoleManager)
    else if s == "viewer" then Some(Viewer)
    else None
  }

  /** Every role is read back from the string it is stored as. */
  lemma RoleRoundTrip(r: UserRole)
    ensures ParseRole(RoleValue(r)) == Some(r)
  {
  }

  function StatusValue(s: PersonStatus): string {
    match s
    case Active => "active"
    case PendingValidation => "pending_validation"
    case Inactive => "inactive"
  }

  /** `PersonStatus(value)`: None where the enum constructor would raise. */
  function ParseStatus(s: string): (r: Option<PersonStatus>)
    ensures r.Some? ==> StatusValue(r.value) == s
  {
    if s == "active" then Some(Active)
    else if s == "pending_validation" then Some(PendingValidation)
    else if s == "inactive" then Some(Inactive)
    else None
  }

  /** Every person status is read back from the string it is stored as. */
  lemma StatusRoundTrip(s: PersonStatus)
    ensures ParseStatus(StatusValue(s)) == Some(s)
  {
  }

  // ----- permissions -----

  /** `User.can_access_pole`. */
  predicate CanAccessPole(u: User, poleId: string) {
    u.role == Admin || poleId in u.assignedPoles
  }

  /** `User.can_manage_pole`. */
  predicate CanManagePole(u: User, poleId: string) {
    u.role == Admin || (u.role == PoleManager && poleId in u.assignedPoles)
  }

  /** Managing a pole implies accessing it; an admin does both for every pole; a viewer
      never manages; the two differ exactly for a viewer who is assigned the pole. */
  lemma PermissionOrder(u: User, poleId: string)
    ensures CanManagePole(u, poleId) ==> CanAccessPole(u, poleId)
    ensures u.role == Admin ==> CanManagePole(u, poleId) && CanAccessPole(u, poleId)
    ensures u.role == Viewer ==> !CanManagePole(u, poleId)
    ensures CanAccessPole(u, poleId) && !CanManagePole(u, poleId) <==> u.role == Viewer && poleId in u.assignedPoles
    ensures u.role != Admin && u.assignedPoles == [] ==> !CanAccessPole(u, poleId)
  {
  }

  // ----- people -----

  /** `EnhancedPerson.full_name`: "first last" when both parts are given, else the name. */
  function FullName(p: EnhancedPerson): (s: string)
    ensures p.firstName != [] && p.lastName != [] ==>
      |s| == |p.firstName| + 1 + |p.lastName| && s[..|p.firstName|] == p.firstName &&
      s[|p.firstName|] == ' ' && s[|p.firstName| + 1..] == p.lastName
    ensures p.firstName == [] || p.lastName == [] ==> s == p.name
  {
    if p.firstName != [] && p.lastName != [] then p.firstName + " " + p.lastName else p.name
  }

  /** With both parts given the full name is never empty; otherwise it is empty exactly
      when the name is. */
  lemma FullNameEmptyIff(p: EnhancedPerson)
    ensures FullName(p) == [] <==> (p.firstName == [] || p.lastName == []) && p.name == []
  {
    if p.firstName != [] && p.lastName != [] {
      assert |FullName(p)| > 0;
    }
  }

  const ActiveLabel: string := "\U{2705} Actif"
  const PendingLabel: string := "\U{23F3} En attente de validation"
  const InactiveLabel: string := "\U{274C} Inactif"

  /** `EnhancedPerson.display_status`; the "unknown" entry of the source's lookup cannot be
      reached from the three statuses. */
  function DisplayStatus(s: PersonStatus): string {
    match s
    case Active => ActiveLabel
    case PendingValidation => PendingLabel
    case Inactive => InactiveLabel
  }

  /** Each status has its own label, which starts with its own emoji. */
  lemma DisplayStatusInjective(a: PersonStatus, b: PersonStatus)
    ensures DisplayStatus(a) == DisplayStatus(b) <==> a == b
    ensures DisplayStatus(a)[0] == StatusEmojiOf(a)
  {
    if DisplayStatus(a) == DisplayStatus(b) {
      assert DisplayStatus(a)[0] == DisplayStatus(b)[0];
    }
  }

  function StatusEmojiOf(s: PersonStatus): char {
    match s
    case Active => '\U{2705}'
    case PendingValidation => '\U{23F3}'
    case Inactive => '\U{274C}'
  }

  // ----- message history -----

  /** `MessageHistory.status_emoji`; the "unknown" emoji cannot be reached. */
  function StatusEmoji(s: MessageStatus): string {
    match s
    case MsgSent => "\U{2705}"
    case MsgDelivered => "\U{1F4E8}"
    case MsgFailed => "\U{274C}"
  }

  /** The three message statuses show three different one-character emoji. */
  lemma StatusEmojiInjective(a: MessageStatus, b: MessageStatus)
    ensures |StatusEmoji(a)| == 1
    ensures StatusEmoji(a) == StatusEmoji(b) <==> a == b
  {
    if StatusEmoji(a) == StatusEmoji(b) {
      assert StatusEmoji(a)[0] == StatusEmoji(b)[0];
    }
  }

  function MessageStatusValue(s: MessageStatus): string {
    match s
    case MsgSent => "sent"
    case MsgDelivered => "delivered"
    case MsgFailed => "failed"
  }
}
