/** The legacy user-membership service: memberships assigned to users out
    of the membership catalog, with a small status machine (active,
    expired, cancelled, suspended), renewals and organization statistics. */
module UserMembershipService {
  import opened Common
  import opened MongoStore

  const MembershipNotFound := Err("Membership not found")
  const PlanNotFound := Err("Membership plan not found")
  const InactivePlan := Err("Cannot assign inactive plan")
  const EndNotAfterStart := Err("End date must be after start date")
  const RenewedNote := "Renewed from previous membership"

  /** JavaScript truthiness of an optional amount: absent and 0 are falsy. */
  predicate Truthy(x: Option<int>) {
    x.Some? && x.value != 0
  }

  /** `amount || fallback`. */
  function PaidOr(x: Option<int>, fallback: int): (r: int)
    ensures Truthy(x) ==> r == x.value
    ensures !Truthy(x) ==> r == fallback
  {
    if Truthy(x) then x.value else fallback
  }

  /** Saving a new user membership: the schema validators run first, then
      the pre-save hook that wants the end after the start. */
  function Saved(m: UserMembership): (r: Result<UserMembership>)
    ensures r.Ok? <==> ValidUserMembership(m) && EndsAfterStart(m)
    ensures r.Ok? ==> r.value == m
    ensures r.Fail? && ValidUserMembership(m) ==> r.error == EndNotAfterStart
  {
    if !ValidUserMembership(m) then Fail(ValidationFailed("UserMembership"))
    else if !EndsAfterStart(m) then Fail(EndNotAfterStart)
    else Ok(m)
  }

  /** The membership as the service returns it: a falsy amount becomes
      null, and `planPrice`, which no stored membership has, is null. */
  datatype MembershipView = MembershipView(id: Id, membership: UserMembership, planPrice: Option<int>)

  /** `sanitizeMembership`. */
  function Sanitize(id: Id, m: UserMembership): (v: MembershipView)
    ensures v.id == id && v.planPrice.None?
    ensures Truthy(m.amountPaid) ==> v.membership == m
    ensures !Truthy(m.amountPaid) ==> v.membership == m.(amountPaid := None)
  {
    MembershipView(id, m.(amountPaid := if Truthy(m.amountPaid) then m.amountPaid else None), None)
  }

  /** Sanitizing twice is sanitizing once. */
  lemma SanitizeIdempotent(id: Id, m: UserMembership)
    ensures Sanitize(id, Sanitize(id, m).membership) == Sanitize(id, m)
  {
  }

  /** `getMembershipById`. */
  function GetMembershipById(ms: seq<UserMembership>, id: Id): (r: Result<MembershipView>)
    ensures r.Ok? <==> id < |ms|
    ensures r.Ok? ==> r.value == Sanitize(id, ms[id])
    ensures r.Fail? ==> r.error == MembershipNotFound
  {
    if id < |ms| then Ok(Sanitize(id, ms[id])) else Fail(MembershipNotFound)
  }

  // --------------------------------------------------------------- assign

  /** The fields `assignMembership` reads from its argument. */
  datatype AssignData = AssignData(
    userId: Option<Id>,
    planId: Id,
    org: Option<string>,
    startDate: Option<int>,
    autoRenew: Option<bool>,
    amountPaid: Option<int>,
    paymentReference: Option<string>,
    notes: Option<string>)

  /** The membership `assignMembership` stores: it starts at the given date
      or now, lasts the plan's duration, is "active", and is paid the given
      amount or, when that is falsy, the plan's price. */
  function Assigned(plans: seq<MembershipPlan>, d: AssignData, now: int): (r: Result<UserMembership>)
    ensures d.planId >= |plans| ==> r == Fail(PlanNotFound)
    ensures d.planId < |plans| && !plans[d.planId].isActive ==> r == Fail(InactivePlan)
    ensures r.Ok? <==> && d.planId < |plans| && plans[d.planId].isActive
                       && d.userId.Some? && Present(d.org)
                       && PaidOr(d.amountPaid, plans[d.planId].price) >= 0
                       && plans[d.planId].durationDays > 0
    ensures r.Ok? ==>
              var start := Default(d.startDate, now);
              && r.value.startDate == start
              && r.value.endDate == start + plans[d.planId].durationDays * DayMs
              && r.value.status == "active"
              && r.value.autoRenew == Default(d.autoRenew, false)
              && r.value.amountPaid == Some(PaidOr(d.amountPaid, plans[d.planId].price))
              && r.value.userId == d.userId && r.value.membershipPlanId == d.planId && r.value.org == d.org.value
              && ValidUserMembership(r.value) && EndsAfterStart(r.value)
  {
    if d.planId >= |plans| then Fail(PlanNotFound)
    else
      var plan := plans[d.planId];
      if !plan.isActive then Fail(InactivePlan)
      else
        var start := Default(d.startDate, now);
        Saved(UserMembership(d.userId, d.planId, OrElse(d.org, ""), start, start + plan.durationDays * DayMs,
                             "active", Default(d.autoRenew, false), Some(PaidOr(d.amountPaid, plan.price)),
                             d.paymentReference, d.notes, now))
  }

  /** A supplied amount of 0 is replaced by the plan's price. */
  lemma ZeroAmountTakesPlanPrice(plans: seq<MembershipPlan>, d: AssignData, now: int)
    requires d.amountPaid == Some(0)
    requires Assigned(plans, d, now).Ok?
    ensures Assigned(plans, d, now).value.amountPaid == Some(plans[d.planId].price)
  {
  }

  /** `assignMembership`. */
  method AssignMembership(db: Mongo, d: AssignData, now: int) returns (r: Result<MembershipView>)
    requires db.Valid()
    modifies db`userMemberships
    ensures db.Valid()
    ensures var a := Assigned(db.plans, d, now);
            && (a.Fail? ==> r == Fail(a.error) && db.userMemberships == old(db.userMemberships))
            && (a.Ok? ==> r == Ok(Sanitize(|old(db.userMemberships)|, a.value))
                          && db.userMemberships == old(db.userMemberships) + [a.value])
  {
    var a := Assigned(db.plans, d, now);
    if a.Fail? {
      return Fail(a.error);
    }
    r := Ok(Sanitize(|db.userMemberships|, a.value));
    db.userMemberships := db.userMemberships + [a.value];
  }

  // ---------------------------------------------------------------- renew

  /** What a renewal request may override. */
  datatype RenewalData = RenewalData(
    planId: Option<Id>,
    autoRenew: Option<bool>,
    amountPaid: Option<int>,
    paymentReference: Option<string>,
    notes: Option<string>)

  /** The membership a renewal creates: it starts when the current one
      ends or now, whichever is later, and lasts the CURRENT plan's
      duration even when the renewal names another plan. */
  function Renewed(cur: UserMembership, plan: MembershipPlan, rd: RenewalData, now: int): (n: UserMembership)
    ensures n.startDate >= now && n.startDate >= cur.endDate
    ensures n.startDate == now || n.startDate == cur.endDate
    ensures n.endDate == n.startDate + plan.durationDays * DayMs
    ensures n.status == "active" && n.userId == cur.userId && n.org == cur.org
    ensures n.membershipPlanId == Default(rd.planId, cur.membershipPlanId)
    ensures n.autoRenew == Default(rd.autoRenew, cur.autoRenew)
    ensures n.amountPaid == Some(PaidOr(rd.amountPaid, plan.price))
    ensures n.notes == (if Present(rd.notes) then rd.notes else Some(RenewedNote))
  {
    var start := if cur.endDate > now then cur.endDate else now;
    UserMembership(cur.userId, Default(rd.planId, cur.membershipPlanId), cur.org, start,
                   start + plan.durationDays * DayMs, "active", Default(rd.autoRenew, cur.autoRenew),
                   Some(PaidOr(rd.amountPaid, plan.price)), rd.paymentReference,
                   if Present(rd.notes) then rd.notes else Some(RenewedNote), now)
  }

  /** A renewal of a stored membership is saved exactly when the plan has a
      positive duration and the amount is not negative. */
  lemma RenewalSavedIff(cur: UserMembership, plan: MembershipPlan, rd: RenewalData, now: int)
    requires ValidUserMembership(cur)
    ensures Saved(Renewed(cur, plan, rd, now)).Ok? <==> plan.durationDays > 0 && PaidOr(rd.amountPaid, plan.price) >= 0
  {
  }

  /** A stored membership after `updateStatus`. */
  function WithStatus(m: UserMembership, status: string, now: int): (n: UserMembership)
    ensures n.status == status && n.updatedAt == now
    ensures n.(status := m.status, updatedAt := m.updatedAt) == m
  {
    m.(status := status, updatedAt := now)
  }

  /** The memberships after the current one is retired by a renewal: only
      an "active" one becomes "expired". */
  function Retired(ms: seq<UserMembership>, id: Id, now: int): (r: seq<UserMembership>)
    requires id < |ms|
    ensures |r| == |ms| && forall i :: 0 <= i < |ms| && i != id ==> r[i] == ms[i]
    ensures ms[id].status == "active" ==> r[id] == WithStatus(ms[id], "expired", now)
    ensures ms[id].status != "active" ==> r[id] == ms[id]
  {
    if ms[id].status == "active" then ms[id := WithStatus(ms[id], "expired", now)] else ms
  }

  /** `renewMembership`. The old membership is retired before the new one
      is saved, so a renewal that fails to save leaves it retired. */
  method RenewMembership(db: Mongo, id: Id, rd: RenewalData, now: int) returns (r: Result<MembershipView>)
    requires db.Valid()
    modifies db`userMemberships
    ensures db.Valid()
    ensures id >= |old(db.userMemberships)| ==> r == Fail(MembershipNotFound) && db.userMemberships == old(db.userMemberships)
    ensures id < |old(db.userMemberships)| && old(db.userMemberships)[id].membershipPlanId >= |db.plans| ==>
              r == Fail(PlanNotFound) && db.userMemberships == old(db.userMemberships)
    ensures id < |old(db.userMemberships)| && old(db.userMemberships)[id].membershipPlanId < |db.plans| ==>
              var cur := old(db.userMemberships)[id];
              var n := Renewed(cur, db.plans[cur.membershipPlanId], rd, now);
              var retired := Retired(old(db.userMemberships), id, now);
              && (Saved(n).Ok? ==> r == Ok(Sanitize(|retired|, n)) && db.userMemberships == retired + [n])
              && (Saved(n).Fail? ==> r == Fail(Saved(n).error) && db.userMemberships == retired)
  {
    if id >= |db.userMemberships| {
      return Fail(MembershipNotFound);
    }
    var cur := db.userMemberships[id];
    if cur.membershipPlanId >= |db.plans| {
      return Fail(PlanNotFound);
    }
    var n := Renewed(cur, db.plans[cur.membershipPlanId], rd, now);
    db.userMemberships := Retired(db.userMemberships, id, now);
    var s := Saved(n);
    if s.Fail? {
      return Fail(s.error);
    }
    r := Ok(Sanitize(|db.userMemberships|, n));
    db.userMemberships := db.userMemberships + [n];
  }

  // -------------------------------------------------------- status actions

  datatype Action = Cancel | Suspend | Reactivate

  /** The status each action moves a membership to. */
  function Target(a: Action): (s: string)
    ensures s in UserMembershipStatuses
  {
    match a
    case Cancel => "cancelled"
    case Suspend => "suspended"
    case Reactivate => "active"
  }

  /** The guard of each action: cancelling a cancelled membership and
      reactivating one that is not suspended are refused; suspending is
      always allowed. */
  function Guard(status: string, a: Action): (o: Outcome)
    ensures a == Cancel ==> (o.Reject? <==> status == "cancelled")
    ensures a == Suspend ==> o.Pass?
    ensures a == Reactivate ==> (o.Reject? <==> status != "suspended")
  {
    match a
    case Cancel => if status == "cancelled" then Reject(Err("Membership is already cancelled")) else Pass
    case Suspend => Pass
    case Reactivate =>
      if status != "suspended" then Reject(Err("Only suspended memberships can be reactivated")) else Pass
  }

  /** `cancelMembership`, `suspendMembership` and `reactivateMembership`. */
  method ChangeStatus(db: Mongo, id: Id, a: Action, now: int) returns (r: Result<MembershipView>)
    requires db.Valid()
    modifies db`userMemberships
    ensures db.Valid()
    ensures id >= |old(db.userMemberships)| ==> r == Fail(MembershipNotFound) && db.userMemberships == old(db.userMemberships)
    ensures id < |old(db.userMemberships)| ==>
              var m := old(db.userMemberships)[id];
              match Guard(m.status, a)
              case Reject(e) => r == Fail(e) && db.userMemberships == old(db.userMemberships)
              case Pass => r == Ok(Sanitize(id, WithStatus(m, Target(a), now)))
                           && db.userMemberships == old(db.userMemberships)[id := WithStatus(m, Target(a), now)]
  {
    if id >= |db.userMemberships| {
      return Fail(MembershipNotFound);
    }
    var m := db.userMemberships[id];
    match Guard(m.status, a)
    case Reject(e) =>
      return Fail(e);
    case Pass =>
      var n := WithStatus(m, Target(a), now);
      db.userMemberships := db.userMemberships[id := n];
      r := Ok(Sanitize(id, n));
  }

  /** A suspended membership can always be reactivated, and a membership
      reactivated after a suspension is active again. */
  lemma SuspendThenReactivate()
    ensures Guard(Target(Suspend), Reactivate).Pass?
    ensures Guard(Target(Cancel), Cancel).Reject?
    ensures Guard(Target(Cancel), Suspend).Pass?
  {
  }

  // ---------------------------------------------------------- statistics

  /** The memberships of `org`, in the aggregation's `$match`. */
  function InOrg(ms: seq<UserMembership>, org: string): (r: seq<UserMembership>)
    ensures |r| <= |ms|
    ensures forall m :: m in r <==> m in ms && m.org == org
  {
    Filter(ms, (m: UserMembership) => m.org == org)
  }

  /** `$sum` of a `$cond` on the status. */
  function CountStatus(ms: seq<UserMembership>, status: string): (n: nat)
    ensures n <= |ms|
  {
    if ms == [] then 0
    else CountStatus(ms[..|ms| - 1], status) + (if ms[|ms| - 1].status == status then 1 else 0)
  }

  /** `$sum` of `amountPaid`: a missing amount adds nothing. */
  function Revenue(ms: seq<UserMembership>): int {
    if ms == [] then 0
    else Revenue(ms[..|ms| - 1]) + Default(ms[|ms| - 1].amountPaid, 0)
  }

  /** The number of memberships with an amount, over which `$avg` averages. */
  function PaidCount(ms: seq<UserMembership>): (n: nat)
    ensures n <= |ms|
  {
    if ms == [] then 0
    else PaidCount(ms[..|ms| - 1]) + (if ms[|ms| - 1].amountPaid.Some? then 1 else 0)
  }

  datatype Stats = Stats(
    totalMemberships: nat,
    activeCount: nat,
    expiredCount: nat,
    cancelledCount: nat,
    suspendedCount: nat,
    totalRevenue: int,
    avgMembershipValue: real)

  /** `getMembershipStats`: an organization with no memberships, or none
      with an amount, gets 0 for the average, as `parseFloat(..) || 0` does. */
  function MembershipStats(ms: seq<UserMembership>, org: string): (s: Stats)
    ensures var o := InOrg(ms, org);
            && s.totalMemberships == |o| && s.activeCount == CountStatus(o, "active")
            && s.totalRevenue == Revenue(o)
            && s.avgMembershipValue == Average(Revenue(o), PaidCount(o))
  {
    var o := InOrg(ms, org);
    var paid := PaidCount(o);
    var revenue := Revenue(o);
    Stats(|o|, CountStatus(o, "active"), CountStatus(o, "expired"), CountStatus(o, "cancelled"),
          CountStatus(o, "suspended"), revenue, Average(revenue, paid))
  }

  /** `$avg` over `count` amounts adding up to `total`, or 0 when there are none. */
  function Average(total: int, count: nat): (a: real)
    ensures count > 0 ==> a * (count as real) == total as real
    ensures count == 0 ==> a == 0.0
  {
    if count == 0 then 0.0 else (total as real) / (count as real)
  }

  /** When every status is one of the four, the four counts add up to the
      total. */
  lemma {:induction false} CountsPartition(ms: seq<UserMembership>)
    requires forall i :: 0 <= i < |ms| ==> ms[i].status in UserMembershipStatuses
    ensures CountStatus(ms, "active") + CountStatus(ms, "expired") + CountStatus(ms, "cancelled")
            + CountStatus(ms, "suspended") == |ms|
  {
    if ms != [] {
      var init := ms[..|ms| - 1];
      assert forall i :: 0 <= i < |init| ==> init[i] == ms[i];
      CountsPartition(init);
    }
  }

  /** In a valid store every organization's counts add up to its total. */
  lemma StatsPartition(db: Mongo, org: string)
    requires db.Valid()
    ensures var s := MembershipStats(db.userMemberships, org);
            s.activeCount + s.expiredCount + s.cancelledCount + s.suspendedCount == s.totalMemberships
  {
    var o := InOrg(db.userMemberships, org);
    assert forall i :: 0 <= i < |o| ==> o[i] in db.userMemberships;
    CountsPartition(o);
  }

  /** Amounts are never negative, so neither is the revenue. */
  lemma {:induction false} RevenueNonNegative(ms: seq<UserMembership>)
    requires forall i :: 0 <= i < |ms| ==> ValidUserMembership(ms[i])
    ensures Revenue(ms) >= 0
  {
    if ms != [] {
      var init := ms[..|ms| - 1];
      assert forall i :: 0 <= i < |init| ==> init[i] == ms[i];
      RevenueNonNegative(init);
    }
  }

  /** Appending a membership adds it to each statistic it belongs to. */
  lemma AppendCounts(ms: seq<UserMembership>, m: UserMembership, status: string)
    ensures CountStatus(ms + [m], status) == CountStatus(ms, status) + (if m.status == status then 1 else 0)
    ensures Revenue(ms + [m]) == Revenue(ms) + Default(m.amountPaid, 0)
  {
    assert (ms + [m])[..|ms|] == ms;
  }
}
