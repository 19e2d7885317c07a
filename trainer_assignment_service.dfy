/** The trainer-assignment service: which trainer trains which member in
    an organization, with at most one active assignment per member. */
module TrainerAssignmentService {
  import opened Common
  import opened UserModel
  import opened MongoStore

  const AssignmentNotFound := Err("Assignment not found")

  /** The user a `get` by id finds, if it belongs to `org` and is active,
      with the role the assignment needs. */
  function CheckUser(users: seq<User>, id: Id, org: string, role: string, missing: string, wrongRole: string): (o: Outcome)
    ensures o.Pass? <==> id < |users| && users[id].org == org && users[id].isActive && users[id].role == role
    ensures o.Reject? && (id >= |users| || users[id].org != org || !users[id].isActive) ==> o.error == Err(missing)
    ensures o.Reject? && id < |users| && users[id].org == org && users[id].isActive ==> o.error == Err(wrongRole)
  {
    if id >= |users| || users[id].org != org || !users[id].isActive then Reject(Err(missing))
    else if users[id].role != role then Reject(Err(wrongRole))
    else Pass
  }

  /** The checks of `assignTrainer`, member first, then trainer. */
  function Eligibility(users: seq<User>, org: string, memberId: Id, trainerId: Id): (o: Outcome)
    ensures o.Pass? <==> CheckUser(users, memberId, org, "member", "", "").Pass?
                         && CheckUser(users, trainerId, org, "trainer", "", "").Pass?
    ensures CheckUser(users, memberId, org, "member", "", "").Reject? ==>
              o == CheckUser(users, memberId, org, "member", "Member not found or inactive", "User must have member role")
  {
    match CheckUser(users, memberId, org, "member", "Member not found or inactive", "User must have member role")
    case Reject(e) => Reject(e)
    case Pass => CheckUser(users, trainerId, org, "trainer", "Trainer not found or inactive", "User must have trainer role")
  }

  /** An assignment closed by `deactivateMemberAssignments`. */
  function Completed(a: Assignment, now: int): Assignment {
    a.(status := "completed", endDate := Some(now), updatedAt := now)
  }

  /** `deactivateMemberAssignments`: every active assignment of the member
      in the organization becomes "completed", ending now. */
  function Deactivated(s: seq<Assignment>, memberId: Id, org: string, now: int): (r: seq<Assignment>)
    ensures |r| == |s|
    ensures forall i :: 0 <= i < |s| ==> r[i] == if ActiveFor(s[i], memberId, org) then Completed(s[i], now) else s[i]
    ensures forall i :: 0 <= i < |s| ==> !ActiveFor(r[i], memberId, org)
  {
    seq(|s|, i requires 0 <= i < |s| => if ActiveFor(s[i], memberId, org) then Completed(s[i], now) else s[i])
  }

  /** Closing a member's assignments keeps the index's promise. */
  lemma DeactivatedKeepsOneActive(s: seq<Assignment>, memberId: Id, org: string, now: int)
    requires OneActivePerMember(s)
    ensures OneActivePerMember(Deactivated(s, memberId, org, now))
  {
    var r := Deactivated(s, memberId, org, now);
    forall i, j | 0 <= i < |r| && 0 <= j < |r| && ActiveFor(r[i], r[j].memberId, r[j].org) && r[j].status == "active"
      ensures i == j
    {
      assert ActiveFor(s[i], s[j].memberId, s[j].org);
    }
  }

  /** The optional fields of a new assignment. */
  datatype AssignmentData = AssignmentData(
    status: Option<string>,
    startDate: Option<int>,
    endDate: Option<int>,
    notes: Option<string>)

  /** The assignment `assignTrainer` creates: active unless told otherwise,
      starting now unless told otherwise. */
  function NewAssignment(org: string, memberId: Id, trainerId: Id, d: AssignmentData, now: int): (a: Assignment)
    ensures a.org == org && a.memberId == memberId && a.trainerId == trainerId && a.assignedAt == now
    ensures a.status == OrElse(d.status, "active")
    ensures a.startDate == Some(Default(d.startDate, now)) && a.endDate == d.endDate && a.notes == OrNull(d.notes)
  {
    Assignment(org, memberId, trainerId, OrElse(d.status, "active"), now, Some(Default(d.startDate, now)),
               d.endDate, OrNull(d.notes), now)
  }

  /** Appending an assignment after closing its member's others keeps at
      most one active assignment per member. */
  lemma AppendAfterCloseKeepsOneActive(s: seq<Assignment>, a: Assignment, now: int)
    requires OneActivePerMember(s)
    ensures OneActivePerMember(Deactivated(s, a.memberId, a.org, now) + [a])
  {
    var c := Deactivated(s, a.memberId, a.org, now);
    DeactivatedKeepsOneActive(s, a.memberId, a.org, now);
    var r := c + [a];
    forall i, j | 0 <= i < |r| && 0 <= j < |r| && ActiveFor(r[i], r[j].memberId, r[j].org) && r[j].status == "active"
      ensures i == j
    {
      if i < |c| && j < |c| {
        assert ActiveFor(c[i], c[j].memberId, c[j].org);
      } else if j < |c| {
        assert ActiveFor(c[j], a.memberId, a.org);
      }
    }
  }

  /** After an assignment that defaults to active, the new one is the
      member's only active assignment in the organization. */
  lemma OnlyNewAssignmentIsActive(s: seq<Assignment>, org: string, memberId: Id, trainerId: Id, d: AssignmentData, now: int)
    requires !Present(d.status) || d.status == Some("active")
    ensures var r := Deactivated(s, memberId, org, now) + [NewAssignment(org, memberId, trainerId, d, now)];
            forall i :: 0 <= i < |r| ==> (ActiveFor(r[i], memberId, org) <==> i == |s|)
  {
    var c := Deactivated(s, memberId, org, now);
    var r := c + [NewAssignment(org, memberId, trainerId, d, now)];
    assert forall i :: 0 <= i < |s| ==> r[i] == c[i];
  }

  /** `assignTrainer`. The member's assignments are closed before the new
      one is validated, so an invalid status still closes them. */
  method AssignTrainer(db: Mongo, org: string, memberId: Id, trainerId: Id, d: AssignmentData, now: int) returns (r: Result<Id>)
    requires db.Valid()
    modifies db`assignments
    ensures db.Valid()
    ensures match Eligibility(db.users, org, memberId, trainerId)
            case Reject(e) => r == Fail(e) && db.assignments == old(db.assignments)
            case Pass =>
              var closed := Deactivated(old(db.assignments), memberId, org, now);
              var n := NewAssignment(org, memberId, trainerId, d, now);
              && (n.status in AssignmentStatuses ==> r == Ok(|closed|) && db.assignments == closed + [n])
              && (n.status !in AssignmentStatuses ==> r == Fail(ValidationFailed("TrainerAssignment")) && db.assignments == closed)
  {
    var e := Eligibility(db.users, org, memberId, trainerId);
    if e.Reject? {
      return Fail(e.error);
    }
    DeactivatedKeepsOneActive(db.assignments, memberId, org, now);
    db.assignments := Deactivated(db.assignments, memberId, org, now);
    var n := NewAssignment(org, memberId, trainerId, d, now);
    if n.status !in AssignmentStatuses {
      return Fail(ValidationFailed("TrainerAssignment"));
    }
    AppendAfterCloseKeepsOneActive(old(db.assignments), n, now);
    r := Ok(|db.assignments|);
    db.assignments := db.assignments + [n];
  }

  // -------------------------------------------------------------- queries

  /** `getMemberActiveTrainer`: an active assignment of the member, or null. */
  function GetMemberActiveTrainer(s: seq<Assignment>, org: string, memberId: Id): (r: Option<Id>)
    ensures r.None? <==> forall i :: 0 <= i < |s| ==> !ActiveFor(s[i], memberId, org)
    ensures r.Some? ==> r.value < |s| && ActiveFor(s[r.value], memberId, org)
  {
    FirstWhere(s, (a: Assignment) => ActiveFor(a, memberId, org))
  }

  /** With the index in place the member's active assignment is the only one. */
  lemma ActiveTrainerUnique(s: seq<Assignment>, org: string, memberId: Id)
    requires OneActivePerMember(s)
    ensures GetMemberActiveTrainer(s, org, memberId).Some? ==>
              forall i :: 0 <= i < |s| && ActiveFor(s[i], memberId, org) ==> i == GetMemberActiveTrainer(s, org, memberId).value
  {
    var r := GetMemberActiveTrainer(s, org, memberId);
    if r.Some? {
      forall i | 0 <= i < |s| && ActiveFor(s[i], memberId, org)
        ensures i == r.value
      {
        assert ActiveFor(s[i], s[r.value].memberId, s[r.value].org);
      }
    }
  }

  /** The optional filters of `getAllAssignments`; a falsy one is not applied. */
  datatype Filters = Filters(status: Option<string>, trainerId: Option<Id>, memberId: Option<Id>)

  predicate Matches(a: Assignment, org: string, f: Filters) {
    && a.org == org
    && (Present(f.status) ==> a.status == f.status.value)
    && (f.trainerId.Some? ==> a.trainerId == f.trainerId.value)
    && (f.memberId.Some? ==> a.memberId == f.memberId.value)
  }

  /** `getAllAssignments`. */
  function GetAllAssignments(s: seq<Assignment>, org: string, f: Filters): (r: seq<Assignment>)
    ensures forall a :: a in r <==> a in s && Matches(a, org, f)
    ensures !Present(f.status) && f.trainerId.None? && f.memberId.None? ==>
              forall a :: a in r <==> a in s && a.org == org
  {
    Filter(s, (a: Assignment) => Matches(a, org, f))
  }

  /** `getTrainerMembers`: the trainer's assignments in the organization
      with exactly the given status; callers default it to "active". */
  function GetTrainerMembers(s: seq<Assignment>, org: string, trainerId: Id, status: string): (r: seq<Assignment>)
    ensures forall a :: a in r <==> a in s && a.org == org && a.trainerId == trainerId && a.status == status
  {
    Filter(s, (a: Assignment) => a.org == org && a.trainerId == trainerId && a.status == status)
  }

  /** For a non-empty status the trainer's listing is the general listing
      filtered by that trainer and status. */
  lemma TrainerMembersAreFilteredAssignments(s: seq<Assignment>, org: string, trainerId: Id, status: string)
    requires status != ""
    ensures forall a :: a in GetTrainerMembers(s, org, trainerId, status)
                    <==> a in GetAllAssignments(s, org, Filters(Some(status), Some(trainerId), None))
  {
  }

  /** `getAssignmentById`: an assignment of another organization is not found. */
  function GetAssignmentById(s: seq<Assignment>, org: string, id: Id): (r: Result<Assignment>)
    ensures r.Ok? <==> id < |s| && s[id].org == org
    ensures r.Ok? ==> r.value == s[id]
    ensures r.Fail? ==> r.error == AssignmentNotFound
  {
    if id < |s| && s[id].org == org then Ok(s[id]) else Fail(AssignmentNotFound)
  }

  // -------------------------------------------------------------- updates

  /** Another assignment of the same member and organization is active. */
  predicate ActiveElsewhere(s: seq<Assignment>, id: Id, memberId: Id, org: string) {
    exists j :: 0 <= j < |s| && j != id && ActiveFor(s[j], memberId, org)
  }

  /** What a write of `x` over assignment `id` meets: the status enum
      (the update runs validators), then the partial unique index. */
  function Write(s: seq<Assignment>, id: Id, x: Assignment): (r: Result<Assignment>)
    requires id < |s|
    ensures r.Ok? <==> x.status in AssignmentStatuses && !(x.status == "active" && ActiveElsewhere(s, id, x.memberId, x.org))
    ensures r.Ok? ==> r.value == x
  {
    if x.status !in AssignmentStatuses then Fail(ValidationFailed("TrainerAssignment"))
    else if x.status == "active" && ActiveElsewhere(s, id, x.memberId, x.org) then Fail(DuplicateKey)
    else Ok(x)
  }

  /** Overwriting an assignment with one the index admits keeps its promise. */
  lemma WriteKeepsOneActive(s: seq<Assignment>, id: Id, x: Assignment)
    requires id < |s| && OneActivePerMember(s)
    requires x.memberId == s[id].memberId && x.org == s[id].org
    requires Write(s, id, x).Ok?
    ensures OneActivePerMember(s[id := x])
  {
    var r := s[id := x];
    forall i, j | 0 <= i < |r| && 0 <= j < |r| && ActiveFor(r[i], r[j].memberId, r[j].org) && r[j].status == "active"
      ensures i == j
    {
      if i != id && j != id {
        assert ActiveFor(s[i], s[j].memberId, s[j].org);
      } else if i == id && j != id {
        assert ActiveFor(s[j], x.memberId, x.org);
      }
    }
  }

  /** `updateAssignmentStatus`: the end date is written only when given. */
  function StatusUpdated(s: seq<Assignment>, org: string, id: Id, status: string, endDate: Option<int>, now: int): (r: Result<Assignment>)
    ensures (id >= |s| || s[id].org != org) ==> r == Fail(AssignmentNotFound)
    ensures r.Ok? ==> && id < |s| && r.value.status == status
                      && r.value.endDate == (if endDate.Some? then endDate else s[id].endDate)
                      && r.value == s[id].(status := status, endDate := r.value.endDate, updatedAt := now)
  {
    if id >= |s| || s[id].org != org then Fail(AssignmentNotFound)
    else Write(s, id, s[id].(status := status, endDate := if endDate.Some? then endDate else s[id].endDate, updatedAt := now))
  }

  /** `updateAssignmentStatus`. */
  method UpdateAssignmentStatus(db: Mongo, org: string, id: Id, status: string, endDate: Option<int>, now: int)
    returns (r: Result<Assignment>)
    requires db.Valid()
    modifies db`assignments
    ensures db.Valid()
    ensures r == StatusUpdated(old(db.assignments), org, id, status, endDate, now)
    ensures db.assignments == if r.Ok? then old(db.assignments)[id := r.value] else old(db.assignments)
  {
    r := StatusUpdated(db.assignments, org, id, status, endDate, now);
    if r.Ok? {
      WriteKeepsOneActive(db.assignments, id, r.value);
      db.assignments := db.assignments[id := r.value];
    }
  }

  /** The keys `updateAssignment` copies; dates and notes may be set to null. */
  datatype AssignmentPatch = AssignmentPatch(
    startDate: Input<int>,
    endDate: Input<int>,
    notes: Input<string>,
    status: Option<string>)

  function Set<T>(x: Input<T>, current: Option<T>): Option<T> {
    match x
    case Undef => current
    case Null => None
    case Given(v) => Some(v)
  }

  /** `updateAssignment`: a patch with none of the four keys is refused. */
  function AssignmentUpdated(s: seq<Assignment>, org: string, id: Id, p: AssignmentPatch, now: int): (r: Result<Assignment>)
    ensures (id >= |s| || s[id].org != org) ==> r == Fail(AssignmentNotFound)
    ensures id < |s| && s[id].org == org && p.startDate.Undef? && p.endDate.Undef? && p.notes.Undef? && p.status.None? ==>
              r == Fail(Err("No update data provided"))
    ensures r.Ok? ==> && id < |s|
                      && r.value == s[id].(startDate := Set(p.startDate, s[id].startDate), endDate := Set(p.endDate, s[id].endDate),
                                           notes := Set(p.notes, s[id].notes), status := Default(p.status, s[id].status),
                                           updatedAt := now)
  {
    if id >= |s| || s[id].org != org then Fail(AssignmentNotFound)
    else if p.startDate.Undef? && p.endDate.Undef? && p.notes.Undef? && p.status.None? then Fail(Err("No update data provided"))
    else Write(s, id, s[id].(startDate := Set(p.startDate, s[id].startDate), endDate := Set(p.endDate, s[id].endDate),
                             notes := Set(p.notes, s[id].notes), status := Default(p.status, s[id].status),
                             updatedAt := now))
  }

  /** `updateAssignment`. */
  method UpdateAssignment(db: Mongo, org: string, id: Id, p: AssignmentPatch, now: int) returns (r: Result<Assignment>)
    requires db.Valid()
    modifies db`assignments
    ensures db.Valid()
    ensures r == AssignmentUpdated(old(db.assignments), org, id, p, now)
    ensures db.assignments == if r.Ok? then old(db.assignments)[id := r.value] else old(db.assignments)
  {
    r := AssignmentUpdated(db.assignments, org, id, p, now);
    if r.Ok? {
      WriteKeepsOneActive(db.assignments, id, r.value);
      db.assignments := db.assignments[id := r.value];
    }
  }

  // --------------------------------------------------------------- delete

  /** `deleteAssignment` as written: the repository's soft delete sets
      `isActive`, a path the assignment schema does not have, so the
      update keeps only its timestamp. */
  function DeletedAsWritten(s: seq<Assignment>, org: string, id: Id, now: int): (r: Result<Assignment>)
    ensures (id >= |s| || s[id].org != org) ==> r == Fail(AssignmentNotFound)
    ensures r.Ok? ==> id < |s| && r.value == s[id].(updatedAt := now)
  {
    if id >= |s| || s[id].org != org then Fail(AssignmentNotFound) else Ok(s[id].(updatedAt := now))
  }

  /** As written, a deleted active assignment is still the member's
      active trainer. */
  lemma DeletedAssignmentStaysActiveAsWritten(s: seq<Assignment>, org: string, id: Id, now: int)
    requires id < |s| && s[id].org == org && s[id].status == "active"
    ensures var after := s[id := DeletedAsWritten(s, org, id, now).value];
            GetMemberActiveTrainer(after, org, s[id].memberId).Some?
  {
    var after := s[id := DeletedAsWritten(s, org, id, now).value];
    assert ActiveFor(after[id], s[id].memberId, org);
  }

  /** `deleteAssignment` as intended: the assignment is ended by marking
      it "inactive", the schema's own soft-delete status. */
  function Deleted(s: seq<Assignment>, org: string, id: Id, now: int): (r: Result<Assignment>)
    ensures (id >= |s| || s[id].org != org) ==> r == Fail(AssignmentNotFound)
    ensures r.Ok? ==> id < |s| && r.value == s[id].(status := "inactive", updatedAt := now)
  {
    if id >= |s| || s[id].org != org then Fail(AssignmentNotFound) else Ok(s[id].(status := "inactive", updatedAt := now))
  }

  /** Once deleted, an assignment no longer makes its member trained: with
      the index in place the member has no active trainer left. */
  lemma DeletedLeavesNoActiveTrainer(s: seq<Assignment>, org: string, id: Id, now: int)
    requires OneActivePerMember(s)
    requires id < |s| && s[id].org == org && s[id].status == "active"
    ensures GetMemberActiveTrainer(s[id := Deleted(s, org, id, now).value], org, s[id].memberId).None?
  {
    var after := s[id := Deleted(s, org, id, now).value];
    assert forall i :: 0 <= i < |after| ==> !ActiveFor(after[i], s[id].memberId, org);
  }

  /** `deleteAssignment`. */
  method DeleteAssignment(db: Mongo, org: string, id: Id, now: int) returns (r: Result<Assignment>)
    requires db.Valid()
    modifies db`assignments
    ensures db.Valid()
    ensures r == Deleted(old(db.assignments), org, id, now)
    ensures db.assignments == if r.Ok? then old(db.assignments)[id := r.value] else old(db.assignments)
  {
    r := Deleted(db.assignments, org, id, now);
    if r.Ok? {
      WriteKeepsOneActive(db.assignments, id, r.value);
      db.assignments := db.assignments[id := r.value];
    }
  }
}
