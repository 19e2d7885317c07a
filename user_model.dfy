/** The user document of the legacy Mongo side: a gym user with the
    membership and training plans embedded in it, the enums its schema
    admits and its two virtuals. */
module UserModel {
  import opened Common

  /** An embedded membership plan; `id` is the subdocument's `_id`. */
  datatype MembershipEntry = MembershipEntry(
    id: nat,
    planId: nat,
    planName: string,
    startDate: int,
    endDate: int,
    status: string,
    amountPaid: Option<int>,
    paymentReference: Option<string>)

  /** An embedded training plan; `id` is the subdocument's `_id`. */
  datatype TrainingEntry = TrainingEntry(
    id: nat,
    planId: Option<nat>,
    planName: string,
    trainerId: Option<nat>,
    trainerName: Option<string>,
    startDate: int,
    endDate: Option<int>,
    status: string,
    sessionsPerWeek: Option<int>,
    notes: Option<string>)

  datatype User = User(
    clerkUserId: Option<string>,
    org: string,
    email: Option<string>,
    firstName: Option<string>,
    lastName: Option<string>,
    phone: Option<string>,
    role: string,
    imageUrl: Option<string>,
    isActive: bool,
    membershipPlans: seq<MembershipEntry>,
    trainingPlans: seq<TrainingEntry>,
    updatedAt: int)

  function MembershipKey(e: MembershipEntry): nat {
    e.id
  }

  function TrainingKey(e: TrainingEntry): nat {
    e.id
  }

  const Roles: seq<string> := ["member", "trainer", "admin"]
  const MembershipStatuses: seq<string> := ["active", "expired", "cancelled"]
  const TrainingStatuses: seq<string> := ["active", "completed", "cancelled"]

  /** The value a missing role or plan status is stored as. */
  const DefaultRole := "member"
  const DefaultStatus := "active"

  /** What the schema validators admit for an embedded membership plan. */
  predicate ValidMembershipEntry(e: MembershipEntry) {
    e.status in MembershipStatuses && (e.amountPaid.Some? ==> e.amountPaid.value >= 0)
  }

  /** What the schema validators admit for an embedded training plan. */
  predicate ValidTrainingEntry(e: TrainingEntry) {
    e.status in TrainingStatuses && (e.sessionsPerWeek.Some? ==> e.sessionsPerWeek.value >= 1)
  }

  /** What the schema validators admit for a user. */
  predicate ValidUser(u: User) {
    && u.role in Roles
    && (forall i :: 0 <= i < |u.membershipPlans| ==> ValidMembershipEntry(u.membershipPlans[i]))
    && (forall i :: 0 <= i < |u.trainingPlans| ==> ValidTrainingEntry(u.trainingPlans[i]))
  }

  /** A plan that is "active" and whose dates include `now`. */
  predicate Covers(e: MembershipEntry, now: int) {
    e.status == "active" && e.startDate <= now <= e.endDate
  }

  /** The `activeMembership` virtual: the first plan that covers `now`. */
  function ActiveMembership(plans: seq<MembershipEntry>, now: int): (r: Option<MembershipEntry>)
    ensures r.None? <==> forall i :: 0 <= i < |plans| ==> !Covers(plans[i], now)
    ensures r.Some? ==> exists i :: 0 <= i < |plans| && plans[i] == r.value && Covers(plans[i], now)
                                   && forall j :: 0 <= j < i ==> !Covers(plans[j], now)
  {
    if plans == [] then None
    else if Covers(plans[0], now) then
      Some(plans[0])
    else
      var r := ActiveMembership(plans[1..], now);
      assert forall i :: 1 <= i < |plans| ==> plans[i] == plans[1..][i - 1];
      if r.Some? then
        var k :| 0 <= k < |plans[1..]| && plans[1..][k] == r.value && Covers(plans[1..][k], now)
                 && forall j :: 0 <= j < k ==> !Covers(plans[1..][j], now);
        assert plans[k + 1] == r.value && forall j :: 0 <= j < k + 1 ==> !Covers(plans[j], now);
        r
      else r
  }

  /** The `activeTrainingPlans` virtual: the "active" plans, in order. */
  function ActiveTrainingPlans(plans: seq<TrainingEntry>): (r: seq<TrainingEntry>)
    ensures |r| <= |plans|
    ensures forall e :: e in r <==> e in plans && e.status == "active"
  {
    if plans == [] then []
    else
      var rest := ActiveTrainingPlans(plans[1..]);
      assert forall e :: e in plans <==> e == plans[0] || e in plans[1..];
      if plans[0].status == "active" then [plans[0]] + rest else rest
  }

  /** The training filter keeps the order: filtering a concatenation is
      concatenating the filtered parts. */
  lemma {:induction false} ActiveTrainingPlansAppend(a: seq<TrainingEntry>, b: seq<TrainingEntry>)
    ensures ActiveTrainingPlans(a + b) == ActiveTrainingPlans(a) + ActiveTrainingPlans(b)
  {
    if a != [] {
      assert (a + b)[1..] == a[1..] + b;
      ActiveTrainingPlansAppend(a[1..], b);
    } else {
      assert a + b == b;
    }
  }

  /** Adding a plan at the end never changes an active membership that is
      already there: `find` stops at the first match. */
  lemma {:induction false} ActiveMembershipAppend(plans: seq<MembershipEntry>, e: MembershipEntry, now: int)
    ensures ActiveMembership(plans, now).Some? ==> ActiveMembership(plans + [e], now) == ActiveMembership(plans, now)
    ensures ActiveMembership(plans, now).None? ==> ActiveMembership(plans + [e], now) == if Covers(e, now) then Some(e) else None
  {
    if plans != [] {
      assert (plans + [e])[1..] == plans[1..] + [e];
      ActiveMembershipAppend(plans[1..], e, now);
    } else {
      assert plans + [e] == [e];
    }
  }
}
