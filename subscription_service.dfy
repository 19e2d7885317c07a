/** The membership and training services, one model parameterised by the
    subscription kind. They differ only where the sources differ: a training
    needs a trainer name and stores it, and each kind demands a plan variant
    of its own category. */
module SubscriptionService {
  import opened Common
  import opened GymStore
  import opened SubscriptionHelper
  import PrismaDelegate

  /** The fields `createMembership` / `createTraining` read from `data`.
      An absent or falsy id is `None`. */
  datatype CreateRequest = CreateRequest(
    orgId: Option<string>,
    memberId: Option<Id>,
    planVariantId: Option<Id>,
    trainerName: Option<string>,
    startDate: Option<int>,
    discountAmount: Option<int>,
    autoRenew: Option<bool>,
    notes: Option<string>,
    paymentAmount: Option<int>,
    paymentMethod: Option<string>,
    paymentReference: Option<string>,
    paymentNotes: Option<string>)

  /** The request checks that come before any lookup, in the source's order. */
  function CheckCreateRequest(kind: Kind, req: CreateRequest): (r: Outcome)
    ensures r.Pass? <==> Present(req.orgId) && req.memberId.Some? && req.planVariantId.Some?
                         && (kind == Training ==> Present(req.trainerName))
    ensures !Present(req.orgId) ==> r == Reject(Err("Organization ID is required"))
    ensures Present(req.orgId) && req.memberId.None? ==> r == Reject(Err("Member ID is required"))
    ensures Present(req.orgId) && req.memberId.Some? && req.planVariantId.None?
            ==> r == Reject(Err("Plan variant ID is required"))
    ensures r.Reject? && Present(req.orgId) && req.memberId.Some? && req.planVariantId.Some?
            ==> kind == Training && r == Reject(Err("Trainer name is required"))
  {
    if !Present(req.orgId) then Reject(Err("Organization ID is required"))
    else if req.memberId.None? then Reject(Err("Member ID is required"))
    else if req.planVariantId.None? then Reject(Err("Plan variant ID is required"))
    else if kind == Training && !Present(req.trainerName) then Reject(Err("Trainer name is required"))
    else Pass
  }

  /** The row a successful create writes, or the error it throws first. */
  function NewSubscription(kind: Kind, members: seq<Member>, variants: seq<Option<PlanVariant>>,
                           planTypes: seq<Option<PlanType>>, req: CreateRequest, now: int): (r: Result<Subscription>)
    ensures r.Ok? ==> CheckCreateRequest(kind, req).Pass?
    ensures CheckCreateRequest(kind, req).Reject? ==> r == Fail(CheckCreateRequest(kind, req).error)
    ensures r.Ok? ==> req.memberId.value < |members|
    ensures r.Ok? ==> var v := ValidatePlanVariant(variants, planTypes, req.planVariantId.value, Some(kind));
                      && v.Ok?
                      && planTypes[v.value.planTypeId].value.category == kind
                      && CalculatePricing(v.value.price, req.discountAmount).Ok?
                      && var dates := CalculateDates(req.startDate, now, v.value.durationDays);
                      && var pricing := CalculatePricing(v.value.price, req.discountAmount).value;
                      && r.value == Subscription(req.orgId.value, req.memberId.value, req.planVariantId.value,
                                                 if kind == Training then req.trainerName else None, None,
                                                 dates.startDate, dates.endDate, Active,
                                                 pricing.priceAtPurchase, pricing.discountAmount, pricing.finalPrice,
                                                 Default(req.autoRenew, false), OrNull(req.notes))
    ensures r.Ok? ==> r.value.status == Active && r.value.finalPrice >= 0
                      && r.value.finalPrice + r.value.discountAmount == r.value.priceAtPurchase
    ensures r.Ok? && kind == Training ==> Present(r.value.trainerName)
    ensures r.Ok? && kind == Membership ==> r.value.trainerName.None?
  {
    var check := CheckCreateRequest(kind, req);
    if check.Reject? then Fail(check.error)
    else
      var _ :- ValidateMemberExists(members, req.memberId.value);
      var v :- ValidatePlanVariant(variants, planTypes, req.planVariantId.value, Some(kind));
      var dates := CalculateDates(req.startDate, now, v.durationDays);
      var pricing :- CalculatePricing(v.price, req.discountAmount);
      Ok(Subscription(req.orgId.value, req.memberId.value, req.planVariantId.value,
                      if kind == Training then req.trainerName else None, None,
                      dates.startDate, dates.endDate, Active,
                      pricing.priceAtPurchase, pricing.discountAmount, pricing.finalPrice,
                      Default(req.autoRenew, false), OrNull(req.notes)))
  }

  /** The first payment written in the same transaction, only for a positive amount. */
  function InitialPayment(kind: Kind, req: CreateRequest, s: Subscription, id: Id, now: int): (r: Option<Payment>)
    ensures r.Some? <==> req.paymentAmount.Some? && req.paymentAmount.value > 0
    ensures r.Some? ==> && r.value.link == LinkTo(kind, id)
                        && r.value.amount == req.paymentAmount.value
                        && r.value.status == "paid"
                        && r.value.paidAt == Some(now)
                        && r.value.payMethod == OrElse(req.paymentMethod, "cash")
                        && r.value.orgId == s.orgId && r.value.memberId == s.memberId
                        && r.value.reference == OrNull(req.paymentReference)
                        && r.value.notes == OrNull(req.paymentNotes)
  {
    if req.paymentAmount.Some? && req.paymentAmount.value > 0 then
      Some(Payment(s.orgId, s.memberId, LinkTo(kind, id), req.paymentAmount.value,
                   OrElse(req.paymentMethod, "cash"), "paid",
                   OrNull(req.paymentReference), OrNull(req.paymentNotes), Some(now)))
    else None
  }

  function AsSeq<T>(x: Option<T>): (r: seq<T>)
    ensures |r| <= 1
    ensures x.None? ==> r == []
    ensures x.Some? ==> r == [x.value]
  {
    if x.Some? then [x.value] else []
  }

  /** `createMembership` / `createTraining`: the subscription and the optional
      first payment are both written, or neither is. */
  method Create(db: Db, kind: Kind, req: CreateRequest, now: int) returns (r: Result<Id>)
    modifies db`memberships, db`trainings, db`payments
    ensures var s := NewSubscription(kind, old(db.members), old(db.variants), old(db.planTypes), req, now);
            && (r.Ok? <==> s.Ok?)
            && (r.Fail? ==> r.error == s.error && unchanged(db))
            && (r.Ok? ==> && r.value == |old(db.Table(kind))|
                          && db.Table(kind) == old(db.Table(kind)) + [s.value]
                          && db.payments == old(db.payments) + AsSeq(InitialPayment(kind, req, s.value, r.value, now)))
    ensures db.Table(kind.Other()) == old(db.Table(kind.Other()))
  {
    var s := NewSubscription(kind, db.members, db.variants, db.planTypes, req, now);
    if s.Fail? {
      return Fail(s.error);
    }
    var id := |db.Table(kind)|;
    db.PutTable(kind, db.Table(kind) + [s.value]);
    var p := InitialPayment(kind, req, s.value, id, now);
    if p.Some? {
      db.payments := db.payments + [p.value];
    }
    r := Ok(id);
  }

  /** What a create leaves as the new subscription's paid total: exactly the
      first payment, since no earlier payment can point at a fresh id. */
  lemma CreatedPaidTotal(kind: Kind, payments: seq<Payment>, req: CreateRequest, s: Subscription, id: Id, now: int)
    requires forall i :: 0 <= i < |payments| ==> payments[i].link != LinkTo(kind, id)
    ensures PaidSum(payments + AsSeq(InitialPayment(kind, req, s, id, now)), LinkTo(kind, id))
            == if req.paymentAmount.Some? && req.paymentAmount.value > 0 then req.paymentAmount.value else 0
  {
    var link := LinkTo(kind, id);
    PaidSumNoLink(payments, link);
    var p := InitialPayment(kind, req, s, id, now);
    if p.Some? {
      assert AsSeq(p) == [p.value];
      PaidSumAppend(payments, p.value, link);
      assert PaidShare(p.value, link) == p.value.amount;
    } else {
      assert payments + AsSeq(p) == payments;
    }
  }

  lemma {:induction false} PaidSumNoLink(payments: seq<Payment>, link: Link)
    requires forall i :: 0 <= i < |payments| ==> payments[i].link != link
    ensures PaidSum(payments, link) == 0
  {
    if payments != [] {
      PaidSumNoLink(payments[..|payments| - 1], link);
    }
  }

  /** The first payment is not held to the balance check: a create with a
      discount of 90 on a price of 100 and a first payment of 50 succeeds and
      leaves the subscription paid beyond its final price of 10. */
  lemma InitialPaymentSkipsBalanceCheck(kind: Kind, now: int)
    ensures var members := [Member("org", None, None, None, None, "", 0, "", 0, None, true)];
            var planTypes := [Some(PlanType("org", "Plan", None, kind, true))];
            var variants := [Some(PlanVariant(0, 30, None, 100, true))];
            var req := CreateRequest(Some("org"), Some(0), Some(0), Some("Coach"), None, Some(90), None, None,
                                     Some(50), None, None, None);
            var s := NewSubscription(kind, members, variants, planTypes, req, now);
            && s.Ok? && s.value.finalPrice == 10
            && PaidSum(AsSeq(InitialPayment(kind, req, s.value, 0, now)), LinkTo(kind, 0)) == 50
            && ValidatePaymentAmount(50, 10, 0, kind).Reject?
  {
    var members := [Member("org", None, None, None, None, "", 0, "", 0, None, true)];
    var planTypes := [Some(PlanType("org", "Plan", None, kind, true))];
    var variants := [Some(PlanVariant(0, 30, None, 100, true))];
    var req := CreateRequest(Some("org"), Some(0), Some(0), Some("Coach"), None, Some(90), None, None,
                             Some(50), None, None, None);
    var s := NewSubscription(kind, members, variants, planTypes, req, now);
    assert s.Ok?;
    var p := InitialPayment(kind, req, s.value, 0, now);
    assert AsSeq(p) == [] + [p.value];
    PaidSumAppend([], p.value, LinkTo(kind, 0));
  }

  /** `_getMembershipOrThrow` / `_getTrainingOrThrow`. */
  function GetOrThrow(table: seq<Subscription>, kind: Kind, id: Id): (r: Result<Subscription>)
    ensures r.Ok? <==> id < |table|
    ensures r.Ok? ==> r.value == table[id]
    ensures r.Fail? ==> r.error == Err(kind.Name() + " not found")
  {
    if id < |table| then Ok(table[id]) else Fail(Err(kind.Name() + " not found"))
  }

  /** `getMembershipDues` / `getTrainingDues`. */
  function DuesOf(db: Db, kind: Kind, id: Id): (r: Result<Dues>)
    reads db
    ensures r.Ok? <==> id < |db.Table(kind)|
    ensures r.Fail? ==> r.error == Err(kind.Name() + " not found")
    ensures r.Ok? ==> && r.value.finalPrice == db.Table(kind)[id].finalPrice
                      && r.value.totalPaid == PaidSum(db.payments, LinkTo(kind, id))
                      && r.value.dueAmount == (if r.value.finalPrice > r.value.totalPaid
                                               then r.value.finalPrice - r.value.totalPaid else 0)
                      && (r.value.isFullyPaid <==> r.value.totalPaid >= r.value.finalPrice)
  {
    var s :- GetOrThrow(db.Table(kind), kind, id);
    Ok(CalculateDues(s.finalPrice, PaidSum(db.payments, LinkTo(kind, id))))
  }

  /** The fields `updateMembership` / `updateTraining` copy when they are not
      `undefined`; `notes` and `trainerName` may be set to null. */
  datatype UpdateRequest = UpdateRequest(
    status: Option<Status>,
    autoRenew: Option<bool>,
    notes: Option<Option<string>>,
    endDate: Option<int>,
    trainerName: Option<Option<string>>)

  /** The row after an update: only supplied fields change, and `trainerName`
      only on a training. No status guard runs. */
  function Updated(kind: Kind, s: Subscription, u: UpdateRequest): (r: Subscription)
    ensures r.status == Default(u.status, s.status)
    ensures r.autoRenew == Default(u.autoRenew, s.autoRenew)
    ensures r.notes == Default(u.notes, s.notes)
    ensures r.endDate == Default(u.endDate, s.endDate)
    ensures r.trainerName == if kind == Training then Default(u.trainerName, s.trainerName) else s.trainerName
    ensures r.(status := s.status, autoRenew := s.autoRenew, notes := s.notes, endDate := s.endDate,
               trainerName := s.trainerName) == s
  {
    s.(status := Default(u.status, s.status),
       autoRenew := Default(u.autoRenew, s.autoRenew),
       notes := Default(u.notes, s.notes),
       endDate := Default(u.endDate, s.endDate),
       trainerName := if kind == Training then Default(u.trainerName, s.trainerName) else s.trainerName)
  }

  /** An update can set any status, including one the guard would refuse:
      a cancelled subscription can be made active again. */
  lemma UpdateBypassesGuard(kind: Kind, s: Subscription)
    requires s.status == Cancelled
    ensures Updated(kind, s, UpdateRequest(Some(Active), None, None, None, None)).status == Active
    ensures ValidateStatusTransition(Cancelled, Unfreeze, kind).Reject?
  {
  }

  /** An update with nothing supplied leaves the row as it was. */
  lemma EmptyUpdateIsIdentity(kind: Kind, s: Subscription)
    ensures Updated(kind, s, UpdateRequest(None, None, None, None, None)) == s
  {
  }

  method Update(db: Db, kind: Kind, id: Id, u: UpdateRequest) returns (r: Result<Subscription>)
    modifies db`memberships, db`trainings
    ensures r.Ok? <==> id < |old(db.Table(kind))|
    ensures r.Fail? ==> r.error == Err(kind.Name() + " not found") && unchanged(db)
    ensures r.Ok? ==> && r.value == Updated(kind, old(db.Table(kind))[id], u)
                      && db.Table(kind) == old(db.Table(kind))[id := r.value]
    ensures db.Table(kind.Other()) == old(db.Table(kind.Other()))
  {
    var s := GetOrThrow(db.Table(kind), kind, id);
    if s.Fail? {
      return Fail(s.error);
    }
    var t := Updated(kind, s.value, u);
    db.PutTable(kind, db.Table(kind)[id := t]);
    r := Ok(t);
  }

  /** The update carries no key the service copies for this kind: the
      membership service does not copy `trainerName`. */
  predicate NothingCopied(kind: Kind, u: UpdateRequest) {
    u.status.None? && u.autoRenew.None? && u.notes.None? && u.endDate.None?
    && (kind == Training ==> u.trainerName.None?)
  }

  /** `updateMembership` / `updateTraining` as written, on the table: the
      inherited `update` returns before calling the model when handed no
      keys, so an update with nothing copied reads the row back unchanged;
      any other update calls a `findByIdAndUpdate` the Prisma delegate does
      not have, and nothing is written. */
  function UpdateAsWritten(table: seq<Subscription>, kind: Kind, id: Id, u: UpdateRequest): (r: Result<Subscription>)
    ensures id >= |table| ==> r == Fail(Err(kind.Name() + " not found"))
    ensures id < |table| && NothingCopied(kind, u) ==> r == Ok(table[id]) && r.value == Updated(kind, table[id], u)
    ensures id < |table| && !NothingCopied(kind, u) ==> r == Fail(PrismaDelegate.NotAFunction("findByIdAndUpdate"))
  {
    var s :- GetOrThrow(table, kind, id);
    match PrismaDelegate.Inherited(kind.Lower(), PrismaDelegate.Update, NothingCopied(kind, u), false)
    case None => Ok(s)
    case Some(e) => Fail(e)
  }

  /** The cancel, freeze and unfreeze transitions as written, on the table:
      the guard answers as in `Transition`, and a transition it lets
      through calls a `findByIdAndUpdate` the Prisma delegate does not
      have, so no transition ever takes effect. */
  function TransitionAsWritten(table: seq<Subscription>, kind: Kind, id: Id, action: Action): (r: Result<Subscription>)
    requires !action.OtherAction?
    ensures r.Fail?
    ensures id >= |table| ==> r == Fail(Err(kind.Name() + " not found"))
    ensures id < |table| ==>
              var g := ValidateStatusTransition(table[id].status, action, kind);
              && (g.Reject? ==> r == Fail(g.error))
              && (g.Pass? ==> r == Fail(PrismaDelegate.NotAFunction("findByIdAndUpdate")))
  {
    var s :- GetOrThrow(table, kind, id);
    match ValidateStatusTransition(s.status, action, kind)
    case Reject(e) => Fail(e)
    case Pass => Fail(PrismaDelegate.Raised(kind.Lower(), PrismaDelegate.Update))
  }

  /** `cancel…`, `freeze…` and `unfreeze…`: the guard, then a status write. */
  method Transition(db: Db, kind: Kind, id: Id, action: Action) returns (r: Result<Subscription>)
    requires !action.OtherAction?
    modifies db`memberships, db`trainings
    ensures id >= |old(db.Table(kind))| ==> r == Fail(Err(kind.Name() + " not found"))
    ensures id < |old(db.Table(kind))| ==>
              var g := ValidateStatusTransition(old(db.Table(kind))[id].status, action, kind);
              && (g.Reject? ==> r == Fail(g.error))
              && (g.Pass? ==> r == Ok(old(db.Table(kind))[id].(status := TargetStatus(action))))
    ensures r.Fail? ==> unchanged(db)
    ensures r.Ok? ==> db.Table(kind) == old(db.Table(kind))[id := r.value]
    ensures db.Table(kind.Other()) == old(db.Table(kind.Other()))
  {
    var s := GetOrThrow(db.Table(kind), kind, id);
    if s.Fail? {
      return Fail(s.error);
    }
    var g := ValidateStatusTransition(s.value.status, action, kind);
    if g.Reject? {
      return Fail(g.error);
    }
    var t := s.value.(status := TargetStatus(action));
    db.PutTable(kind, db.Table(kind)[id := t]);
    r := Ok(t);
  }

  /** Freezing and then unfreezing returns a subscription to exactly the row it
      was (the end date is not extended), and changes nothing else. */
  method FreezeThenUnfreeze(db: Db, kind: Kind, id: Id) returns (r1: Result<Subscription>, r2: Result<Subscription>)
    requires id < |db.Table(kind)| && db.Table(kind)[id].status == Active
    modifies db`memberships, db`trainings
    ensures r1.Ok? && r2.Ok?
    ensures db.Table(kind) == old(db.Table(kind))
    ensures db.Table(kind.Other()) == old(db.Table(kind.Other()))
  {
    r1 := Transition(db, kind, id, Freeze);
    r2 := Transition(db, kind, id, Unfreeze);
  }
}
