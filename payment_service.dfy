/** The membership and training payment services. Both write the one
    payment table; a payment points at a membership or at a training. */
module PaymentService {
  import opened Common
  import opened GymStore
  import opened SubscriptionHelper
  import opened SubscriptionService
  import PrismaDelegate

  /** The fields `recordPayment` reads from `data`; `subscriptionId` is
      `membershipId` for the membership service and `trainingId` for the
      training service. */
  datatype RecordRequest = RecordRequest(
    orgId: Option<string>,
    memberId: Option<Id>,
    subscriptionId: Option<Id>,
    amount: Option<int>,
    payMethod: Option<string>,
    status: Option<string>,
    reference: Option<string>,
    notes: Option<string>)

  /** The row `recordPayment` writes once every check has passed. */
  function NewPayment(kind: Kind, req: RecordRequest, now: int): (r: Payment)
    requires req.orgId.Some? && req.memberId.Some? && req.amount.Some?
    ensures r.link == (if req.subscriptionId.Some? then LinkTo(kind, req.subscriptionId.value) else Unlinked)
    ensures r.amount == req.amount.value
    ensures r.payMethod == OrElse(req.payMethod, "cash")
    ensures r.status == OrElse(req.status, "paid")
    ensures r.paidAt.Some? <==> req.status == Some("paid")
    ensures r.paidAt.Some? ==> r.paidAt.value == now
    ensures r.reference == OrNull(req.reference) && r.notes == OrNull(req.notes)
  {
    Payment(req.orgId.value, req.memberId.value,
            if req.subscriptionId.Some? then LinkTo(kind, req.subscriptionId.value) else Unlinked,
            req.amount.value, OrElse(req.payMethod, "cash"), OrElse(req.status, "paid"),
            OrNull(req.reference), OrNull(req.notes),
            if req.status == Some("paid") then Some(now) else None)
  }

  /** Every check `recordPayment` makes, in order, against the store's tables. */
  function CheckRecord(kind: Kind, members: seq<Member>, table: seq<Subscription>, payments: seq<Payment>,
                       req: RecordRequest): (r: Outcome)
    ensures !Present(req.orgId) ==> r == Reject(Err("Organization ID is required"))
    ensures Present(req.orgId) && req.memberId.None? ==> r == Reject(Err("Member ID is required"))
    ensures Present(req.orgId) && req.memberId.Some? && (req.amount.None? || req.amount.value <= 0)
            ==> r == Reject(Err("Payment amount must be greater than 0"))
    ensures r.Pass? <==> && Present(req.orgId) && req.memberId.Some? && req.memberId.value < |members|
                         && req.amount.Some? && req.amount.value > 0
                         && (req.subscriptionId.Some? ==>
                               && req.subscriptionId.value < |table|
                               && ValidatePaymentAmount(req.amount.value, table[req.subscriptionId.value].finalPrice,
                                                        PaidSum(payments, LinkTo(kind, req.subscriptionId.value)),
                                                        kind).Pass?)
    ensures r.Reject? && Present(req.orgId) && req.memberId.Some? && req.memberId.value < |members|
            && req.amount.Some? && req.amount.value > 0 && req.subscriptionId.Some?
            && req.subscriptionId.value >= |table|
            ==> r == Reject(Err(kind.Name() + " not found"))
  {
    if !Present(req.orgId) then Reject(Err("Organization ID is required"))
    else if req.memberId.None? then Reject(Err("Member ID is required"))
    else if req.amount.None? || req.amount.value <= 0 then Reject(Err("Payment amount must be greater than 0"))
    else if req.memberId.value >= |members| then Reject(Err("Member not found"))
    else if req.subscriptionId.None? then Pass
    else
      var s := GetOrThrow(table, kind, req.subscriptionId.value);
      if s.Fail? then Reject(s.error)
      else ValidatePaymentAmount(req.amount.value, s.value.finalPrice,
                                 PaidSum(payments, LinkTo(kind, req.subscriptionId.value)), kind)
  }

  /** `recordPayment`: the checks, then one appended row. */
  method Record(db: Db, kind: Kind, req: RecordRequest, now: int) returns (r: Result<Id>)
    modifies db`payments
    ensures var c := CheckRecord(kind, old(db.members), db.Table(kind), old(db.payments), req);
            && (c.Reject? ==> r == Fail(c.error) && db.payments == old(db.payments))
            && (c.Pass? ==> r == Ok(|old(db.payments)|) && db.payments == old(db.payments) + [NewPayment(kind, req, now)])
  {
    var c := CheckRecord(kind, db.members, db.Table(kind), db.payments, req);
    if c.Reject? {
      return Fail(c.error);
    }
    r := Ok(|db.payments|);
    db.payments := db.payments + [NewPayment(kind, req, now)];
  }

  /** `recordPayment` as written: the checks answer as in `CheckRecord`,
      and a payment that passes them is refused by the Prisma delegate,
      which takes the fields inherited `create` hands it as unknown
      arguments; no payment is ever recorded. */
  function RecordAsWritten(kind: Kind, members: seq<Member>, table: seq<Subscription>, payments: seq<Payment>,
                           req: RecordRequest): (r: Result<Id>)
    ensures r.Fail?
    ensures var c := CheckRecord(kind, members, table, payments, req);
            && (c.Reject? ==> r == Fail(c.error))
            && (c.Pass? ==> r == Fail(PrismaDelegate.InvalidInvocation("payment", "create")))
  {
    match CheckRecord(kind, members, table, payments, req)
    case Reject(e) => Fail(e)
    case Pass => Fail(PrismaDelegate.Raised("payment", PrismaDelegate.Create))
  }

  /** A payment that passes the checks never takes a subscription's paid
      total past its final price; an unlinked one changes no total at all. */
  lemma RecordedPaymentStaysWithinPrice(kind: Kind, members: seq<Member>, table: seq<Subscription>,
                                        payments: seq<Payment>, req: RecordRequest, now: int)
    requires CheckRecord(kind, members, table, payments, req).Pass?
    ensures req.subscriptionId.Some? ==>
              PaidSum(payments + [NewPayment(kind, req, now)], LinkTo(kind, req.subscriptionId.value))
              <= table[req.subscriptionId.value].finalPrice
    ensures req.subscriptionId.None? ==>
              forall link :: link != Unlinked ==> PaidSum(payments + [NewPayment(kind, req, now)], link) == PaidSum(payments, link)
  {
    var p := NewPayment(kind, req, now);
    if req.subscriptionId.Some? {
      PaidSumAppend(payments, p, LinkTo(kind, req.subscriptionId.value));
    } else {
      forall link | link != Unlinked
        ensures PaidSum(payments + [p], link) == PaidSum(payments, link)
      {
        PaidSumAppend(payments, p, link);
      }
    }
  }

  /** A payment whose status defaults to "paid" counts as paid but carries no
      paid-at time, because the time is set only for an explicit "paid". */
  lemma DefaultedStatusHasNoPaidAt(kind: Kind, req: RecordRequest, now: int)
    requires req.orgId.Some? && req.memberId.Some? && req.amount.Some? && req.status.None?
    ensures NewPayment(kind, req, now).status == "paid"
    ensures NewPayment(kind, req, now).paidAt.None?
  {
  }

  /** `getPaymentById`. */
  function GetPayment(payments: seq<Payment>, id: Id): (r: Result<Payment>)
    ensures r.Ok? <==> id < |payments|
    ensures r.Ok? ==> r.value == payments[id]
    ensures r.Fail? ==> r.error == Err("Payment not found")
  {
    if id < |payments| then Ok(payments[id]) else Fail(Err("Payment not found"))
  }

  /** The row after `updatePaymentStatus`: the status is replaced, the paid-at
      time is stamped for "paid" and otherwise kept, never cleared. */
  function WithStatus(p: Payment, status: string, now: int): (r: Payment)
    ensures r.status == status
    ensures status == "paid" ==> r.paidAt == Some(now)
    ensures status != "paid" ==> r.paidAt == p.paidAt
    ensures r.(status := p.status, paidAt := p.paidAt) == p
  {
    p.(status := status, paidAt := if status == "paid" then Some(now) else p.paidAt)
  }

  method UpdateStatus(db: Db, id: Id, status: string, now: int) returns (r: Result<Payment>)
    modifies db`payments
    ensures r.Ok? <==> id < |old(db.payments)|
    ensures r.Fail? ==> r.error == Err("Payment not found") && db.payments == old(db.payments)
    ensures r.Ok? ==> && r.value == WithStatus(old(db.payments)[id], status, now)
                      && db.payments == old(db.payments)[id := r.value]
  {
    var p := GetPayment(db.payments, id);
    if p.Fail? {
      return Fail(p.error);
    }
    r := Ok(WithStatus(p.value, status, now));
    db.payments := db.payments[id := r.value];
  }

  /** The effect of a status change on the totals: only the payment's own
      subscription total moves, by the amount coming into or leaving "paid". */
  lemma StatusChangeMovesOneTotal(payments: seq<Payment>, id: Id, status: string, now: int, link: Link)
    requires id < |payments|
    ensures PaidSum(payments[id := WithStatus(payments[id], status, now)], link)
            == PaidSum(payments, link) - PaidShare(payments[id], link)
               + (if status == "paid" && payments[id].link == link then payments[id].amount else 0)
  {
    PaidSumUpdate(payments, id, WithStatus(payments[id], status, now), link);
  }

  /** No balance check is repeated when a payment becomes "paid": on a price of
      100, a pending payment of 100 and then a paid payment of 100 both pass
      the checks, and marking the first one paid leaves 200 paid. */
  lemma StatusChangeCanOverpay(kind: Kind, now: int)
    ensures var members := [Member("org", None, None, None, None, "", 0, "", 0, None, true)];
            var table := [Subscription("org", 0, 0, None, None, 0, 0, Active, 100, 0, 100, false, None)];
            var pending := RecordRequest(Some("org"), Some(0), Some(0), Some(100), None, Some("pending"), None, None);
            var paid := RecordRequest(Some("org"), Some(0), Some(0), Some(100), None, Some("paid"), None, None);
            var p1 := [NewPayment(kind, pending, now)];
            var p2 := p1 + [NewPayment(kind, paid, now)];
            && CheckRecord(kind, members, table, [], pending).Pass?
            && CheckRecord(kind, members, table, p1, paid).Pass?
            && PaidSum(p2[0 := WithStatus(p2[0], "paid", now)], LinkTo(kind, 0)) == 200
  {
    var members := [Member("org", None, None, None, None, "", 0, "", 0, None, true)];
    var table := [Subscription("org", 0, 0, None, None, 0, 0, Active, 100, 0, 100, false, None)];
    var pending := RecordRequest(Some("org"), Some(0), Some(0), Some(100), None, Some("pending"), None, None);
    var paid := RecordRequest(Some("org"), Some(0), Some(0), Some(100), None, Some("paid"), None, None);
    var link := LinkTo(kind, 0);
    var a := NewPayment(kind, pending, now);
    var b := NewPayment(kind, paid, now);
    PaidSumAppend([], a, link);
    assert [] + [a] == [a];
    assert CheckRecord(kind, members, table, [a], paid).Pass?;
    var c := WithStatus(a, "paid", now);
    PaidSumAppend([], c, link);
    assert [] + [c] == [c];
    PaidSumAppend([c], b, link);
    assert ([a] + [b])[0 := c] == [c] + [b];
  }
}
