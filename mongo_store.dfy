/** The document store behind the legacy Mongo services: users (with their
    embedded plans), membership plans, user memberships and trainer
    assignments. A document's id is its position in its collection; the
    Mongo services only ever soft-delete, so no slot is ever emptied. */
module MongoStore {
  import opened Common
  import opened UserModel

  type Id = nat

  /** A membership plan of the membership catalog. */
  datatype MembershipPlan = MembershipPlan(
    org: string,
    name: string,
    description: Option<string>,
    durationDays: int,
    price: int,
    features: Option<seq<string>>,
    isActive: bool,
    updatedAt: int)

  /** Two plans of one organization with the same non-empty name. */
  predicate SameName(p: MembershipPlan, q: MembershipPlan) {
    p.org == q.org && p.name == q.name && p.name != ""
  }

  /** What the name checks of the plan service keep: no two plans of an
      organization share a non-empty name. */
  predicate UniquePlanNames(s: seq<MembershipPlan>) {
    forall i, j :: 0 <= i < j < |s| ==> !SameName(s[i], s[j])
  }

  /** A membership assigned to a user; the two references are the
      document ids of the user and of the plan. */
  datatype UserMembership = UserMembership(
    userId: Option<Id>,
    membershipPlanId: Id,
    org: string,
    startDate: int,
    endDate: int,
    status: string,
    autoRenew: bool,
    amountPaid: Option<int>,
    paymentReference: Option<string>,
    notes: Option<string>,
    updatedAt: int)

  const UserMembershipStatuses: seq<string> := ["active", "expired", "cancelled", "suspended"]

  /** The schema validators of a user membership: the required references
      and organization, the status enum and `amountPaid >= 0`. */
  predicate ValidUserMembership(m: UserMembership) {
    && m.userId.Some?
    && m.org != ""
    && m.status in UserMembershipStatuses
    && (m.amountPaid.Some? ==> m.amountPaid.value >= 0)
  }

  /** The pre-save hook of a user membership: it ends after it starts. */
  predicate EndsAfterStart(m: UserMembership) {
    m.endDate > m.startDate
  }

  /** A trainer assignment; both references are user document ids. */
  datatype Assignment = Assignment(
    org: string,
    memberId: Id,
    trainerId: Id,
    status: string,
    assignedAt: int,
    startDate: Option<int>,
    endDate: Option<int>,
    notes: Option<string>,
    updatedAt: int)

  const AssignmentStatuses: seq<string> := ["active", "inactive", "completed"]

  /** The assignment that makes `memberId` trained by someone in `org`. */
  predicate ActiveFor(a: Assignment, memberId: Id, org: string) {
    a.memberId == memberId && a.org == org && a.status == "active"
  }

  /** The partial unique index on (member, organization, status) over the
      active assignments: at most one active assignment per member and org. */
  predicate OneActivePerMember(s: seq<Assignment>) {
    forall i, j ::
      0 <= i < |s| && 0 <= j < |s| && ActiveFor(s[i], s[j].memberId, s[j].org) && s[j].status == "active" ==> i == j
  }

  /** The error MongoDB answers a write that breaks a unique index with. */
  const DuplicateKey := Err("E11000 duplicate key error")

  /** The error a write gets from the schema validators. */
  function ValidationFailed(model: string): Error {
    Err(model + " validation failed")
  }

  /** The ids of a user's embedded plans are distinct, as generated ids are. */
  predicate DistinctEntryIds(u: User) {
    DistinctKeys(u.membershipPlans, MembershipKey) && DistinctKeys(u.trainingPlans, TrainingKey)
  }

  /** Two users the unique indexes on users keep apart: one organization
      and the same email (a missing email is indexed as null), or the same
      Clerk id, which the sparse index is meant to enforce only when both
      have one. */
  predicate Clash(a: User, b: User) {
    a.org == b.org && (a.email == b.email || (a.clerkUserId.Some? && a.clerkUserId == b.clerkUserId))
  }

  /** The (Clerk id, organization) index as it is declared: a sparse
      compound index skips only the documents that lack every one of its
      fields, and every user has an organization, so a missing Clerk id is
      indexed as null like any other value. */
  predicate ClashAsWritten(a: User, b: User) {
    a.org == b.org && (a.email == b.email || a.clerkUserId == b.clerkUserId)
  }

  /** Some user other than the one at `except` clashes with `u`; a write
      of `u` there is refused with a duplicate key. */
  predicate Taken(users: seq<User>, u: User, except: int) {
    exists k :: 0 <= k < |users| && k != except && Clash(users[k], u)
  }

  /** No two stored users clash. */
  predicate UniqueUsers(users: seq<User>) {
    forall i, j :: 0 <= i < |users| && 0 <= j < |users| && i != j ==> !Clash(users[i], users[j])
  }

  /** A user that no other user clashes with may be stored at the end. */
  lemma AppendKeepsUnique(users: seq<User>, u: User)
    requires UniqueUsers(users) && !Taken(users, u, -1)
    ensures UniqueUsers(users + [u])
  {
    var t := users + [u];
    forall i, j | 0 <= i < |t| && 0 <= j < |t| && i != j ensures !Clash(t[i], t[j]) {
      if j == |users| {
        assert !Clash(users[i], u);
      } else if i == |users| {
        assert !Clash(users[j], u);
      }
    }
  }

  /** A user that no other user clashes with may replace the one at `id`. */
  lemma ReplaceKeepsUnique(users: seq<User>, id: Id, u: User)
    requires id < |users| && UniqueUsers(users) && !Taken(users, u, id)
    ensures UniqueUsers(users[id := u])
  {
    var t := users[id := u];
    forall i, j | 0 <= i < |t| && 0 <= j < |t| && i != j ensures !Clash(t[i], t[j]) {
      if j == id {
        assert !Clash(users[i], u);
      } else if i == id {
        assert !Clash(users[j], u);
      }
    }
  }

  /** A write that keeps a user's organization, email and Clerk id clashes
      with no one. */
  lemma SameKeysNotTaken(users: seq<User>, id: Id, u: User)
    requires id < |users| && UniqueUsers(users)
    requires u.org == users[id].org && u.email == users[id].email && u.clerkUserId == users[id].clerkUserId
    ensures !Taken(users, u, id) && UniqueUsers(users[id := u])
  {
    forall k | 0 <= k < |users| && k != id ensures !Clash(users[k], u) {
      assert !Clash(users[k], users[id]);
    }
    ReplaceKeepsUnique(users, id, u);
  }

  class Mongo {
    var users: seq<User>
    var plans: seq<MembershipPlan>
    var userMemberships: seq<UserMembership>
    var assignments: seq<Assignment>

    /** What the schemas and indexes guarantee of every stored document. */
    predicate Valid()
      reads this
    {
      && (forall i :: 0 <= i < |users| ==> ValidUser(users[i]) && DistinctEntryIds(users[i]))
      && UniqueUsers(users)
      && (forall i :: 0 <= i < |userMemberships| ==> ValidUserMembership(userMemberships[i]) && EndsAfterStart(userMemberships[i]))
      && (forall i :: 0 <= i < |assignments| ==> assignments[i].status in AssignmentStatuses)
      && OneActivePerMember(assignments)
      && UniquePlanNames(plans)
    }

    constructor ()
      ensures Valid()
      ensures users == [] && plans == [] && userMemberships == [] && assignments == []
    {
      users := [];
      plans := [];
      userMemberships := [];
      assignments := [];
    }
  }
}
