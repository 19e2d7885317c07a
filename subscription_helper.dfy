/** The pure rules shared by the membership and training services:
    lookups that guard creation, dates, pricing, the status guard, dues
    and the payment-amount check. */
module SubscriptionHelper {
  import opened Common
  import opened GymStore

  /** `prisma.member.findUnique({ where: { id } })`, throwing when absent. */
  function ValidateMemberExists(members: seq<Member>, memberId: Id): (r: Result<Member>)
    ensures r.Ok? <==> memberId < |members|
    ensures r.Ok? ==> r.value == members[memberId]
    ensures r.Fail? ==> r.error == Err("Member not found")
  {
    if memberId < |members| then Ok(members[memberId]) else Fail(Err("Member not found"))
  }

  /** The variant with its plan type joined in, checked in the source's order:
      not found, then inactive, then (only when a category is expected) the
      plan type's category. A variant whose plan type row is gone reaches
      `planVariant.planType.category` on null, which throws a TypeError. */
  function ValidatePlanVariant(variants: seq<Option<PlanVariant>>, planTypes: seq<Option<PlanType>>,
                               planVariantId: Id, expected: Option<Kind>): (r: Result<PlanVariant>)
    ensures !Live(variants, planVariantId) ==> r == Fail(Err("Plan variant not found"))
    ensures Live(variants, planVariantId) && !variants[planVariantId].value.isActive
            ==> r == Fail(Err("Plan variant is not active"))
    ensures expected.None? && Live(variants, planVariantId) && variants[planVariantId].value.isActive
            ==> r == Ok(variants[planVariantId].value)
    ensures r.Ok? ==> Live(variants, planVariantId) && r.value == variants[planVariantId].value
                      && r.value.isActive
    ensures r.Ok? && expected.Some? ==> Live(planTypes, r.value.planTypeId)
                                        && planTypes[r.value.planTypeId].value.category == expected.value
  {
    if !Live(variants, planVariantId) then Fail(Err("Plan variant not found"))
    else
      var v := variants[planVariantId].value;
      if !v.isActive then Fail(Err("Plan variant is not active"))
      else if expected.None? then Ok(v)
      else if !Live(planTypes, v.planTypeId) then
        Fail(Err("Cannot read properties of null (reading 'category')"))
      else if planTypes[v.planTypeId].value.category != expected.value then
        Fail(Err("Plan variant does not belong to a " + expected.value.Lower() + " plan"))
      else Ok(v)
  }

  datatype Dates = Dates(startDate: int, endDate: int)

  /** The start is the given date or, when none is given, `now`; the end is
      `durationDays` calendar days later. */
  function CalculateDates(startInput: Option<int>, now: int, durationDays: int): (r: Dates)
    ensures startInput.Some? ==> r.startDate == startInput.value
    ensures startInput.None? ==> r.startDate == now
    ensures r.endDate - r.startDate == durationDays * DayMs
    ensures durationDays > 0 ==> r.endDate > r.startDate
  {
    var start := if startInput.Some? then startInput.value else now;
    Dates(start, start + durationDays * DayMs)
  }

  datatype Pricing = Pricing(priceAtPurchase: int, discountAmount: int, finalPrice: int)

  /** The discount defaults to 0; the call throws exactly when the discount
      is larger than the price, so a produced final price is never negative. */
  function CalculatePricing(planPrice: int, discount: Option<int>): (r: Result<Pricing>)
    ensures r.Ok? <==> Default(discount, 0) <= planPrice
    ensures r.Fail? ==> r.error == Err("Discount amount cannot exceed the plan price")
    ensures r.Ok? ==> && r.value.priceAtPurchase == planPrice
                      && r.value.discountAmount == Default(discount, 0)
                      && r.value.finalPrice + r.value.discountAmount == planPrice
                      && r.value.finalPrice >= 0
  {
    var d := Default(discount, 0);
    var finalPrice := planPrice - d;
    if finalPrice < 0 then Fail(Err("Discount amount cannot exceed the plan price"))
    else Ok(Pricing(planPrice, d, finalPrice))
  }

  /** The actions the guard knows; any other action is let through. */
  datatype Action = Cancel | Freeze | Unfreeze | OtherAction(name: string)

  /** The legal-transition relation the guard implements. */
  predicate Allowed(status: Status, action: Action) {
    match action
    case Cancel => status != Cancelled
    case Freeze => status == Active
    case Unfreeze => status == Frozen
    case OtherAction(_) => true
  }

  function ValidateStatusTransition(status: Status, action: Action, kind: Kind): (r: Outcome)
    ensures r.Pass? <==> Allowed(status, action)
    ensures action == Cancel && r.Reject? ==> r.error == Err(kind.Name() + " is already cancelled")
    ensures action == Freeze && r.Reject? ==> r.error == Err("Only active " + kind.Lower() + "s can be frozen")
    ensures action == Unfreeze && r.Reject? ==> r.error == Err("Only frozen " + kind.Lower() + "s can be unfrozen")
  {
    match action
    case Cancel =>
      if status == Cancelled then Reject(Err(kind.Name() + " is already cancelled")) else Pass
    case Freeze =>
      if status != Active then Reject(Err("Only active " + kind.Lower() + "s can be frozen")) else Pass
    case Unfreeze =>
      if status != Frozen then Reject(Err("Only frozen " + kind.Lower() + "s can be unfrozen")) else Pass
    case OtherAction(_) => Pass
  }

  /** The status each guarded action writes. */
  function TargetStatus(action: Action): Status
    requires !action.OtherAction?
  {
    match action
    case Cancel => Cancelled
    case Freeze => Frozen
    case Unfreeze => Active
  }

  /** The status machine: from active, cancel and freeze succeed and unfreeze
      fails; from frozen only unfreeze returns to active; a cancelled
      subscription cannot be cancelled again; an expired one can still be
      cancelled but neither frozen nor unfrozen. */
  lemma StatusMachine(kind: Kind)
    ensures ValidateStatusTransition(Active, Cancel, kind).Pass? && TargetStatus(Cancel) == Cancelled
    ensures ValidateStatusTransition(Active, Freeze, kind).Pass? && TargetStatus(Freeze) == Frozen
    ensures ValidateStatusTransition(Active, Unfreeze, kind).Reject?
    ensures ValidateStatusTransition(Frozen, Unfreeze, kind).Pass? && TargetStatus(Unfreeze) == Active
    ensures ValidateStatusTransition(Cancelled, Cancel, kind).Reject?
    ensures ValidateStatusTransition(Expired, Cancel, kind).Pass?
    ensures ValidateStatusTransition(Expired, Freeze, kind).Reject?
    ensures ValidateStatusTransition(Expired, Unfreeze, kind).Reject?
  {
  }

  /** A guarded action never leads into a state it would refuse to repeat
      except cancel: after cancel, cancel is refused; after freeze, freeze is
      refused; after unfreeze, unfreeze is refused. */
  lemma GuardedActionsAreNotRepeatable(status: Status, action: Action, kind: Kind)
    requires !action.OtherAction?
    requires ValidateStatusTransition(status, action, kind).Pass?
    ensures ValidateStatusTransition(TargetStatus(action), action, kind).Reject?
  {
  }

  datatype Dues = Dues(finalPrice: int, totalPaid: int, dueAmount: int, isFullyPaid: bool)

  function CalculateDues(finalPrice: int, paidAmount: int): (r: Dues)
    ensures r.finalPrice == finalPrice && r.totalPaid == paidAmount
    ensures r.dueAmount >= 0
    ensures r.dueAmount >= finalPrice - paidAmount
    ensures r.dueAmount == 0 || r.dueAmount == finalPrice - paidAmount
    ensures r.isFullyPaid <==> paidAmount >= finalPrice
    ensures r.isFullyPaid <==> r.dueAmount == 0
  {
    var due := finalPrice - paidAmount;
    Dues(finalPrice, paidAmount, if due > 0 then due else 0, due <= 0)
  }

  /** The check before a payment is recorded against a subscription. */
  function ValidatePaymentAmount(amount: int, finalPrice: int, paidAmount: int, kind: Kind): (r: Outcome)
    ensures paidAmount >= finalPrice ==> r == Reject(Err("This " + kind.Lower() + " is already fully paid"))
    ensures paidAmount < finalPrice && amount > finalPrice - paidAmount
            ==> r == Reject(Err("Payment amount (" + IntToString(amount) + ") exceeds due amount ("
                                + IntToString(finalPrice - paidAmount) + ")"))
    ensures r.Pass? <==> paidAmount < finalPrice && paidAmount + amount <= finalPrice
  {
    var due := finalPrice - paidAmount;
    if due <= 0 then Reject(Err("This " + kind.Lower() + " is already fully paid"))
    else if amount > due && due > 0 then
      Reject(Err("Payment amount (" + IntToString(amount) + ") exceeds due amount (" + IntToString(due) + ")"))
    else Pass
  }

  /** A payment accepted by the check, once paid, leaves the subscription at
      most fully paid, and the dues fall by exactly its amount. */
  lemma AcceptedPaymentKeepsDuesConsistent(amount: int, finalPrice: int, paidAmount: int, kind: Kind)
    requires ValidatePaymentAmount(amount, finalPrice, paidAmount, kind).Pass?
    ensures CalculateDues(finalPrice, paidAmount + amount).dueAmount
            == CalculateDues(finalPrice, paidAmount).dueAmount - amount
    ensures CalculateDues(finalPrice, paidAmount + amount).isFullyPaid <==> amount == finalPrice - paidAmount
  {
  }

  /** The dues scenario: price 100 with 40 paid leaves 60 due; 61 is refused,
      60 is accepted, and after it any further payment is refused. */
  lemma DuesScenario(kind: Kind)
    ensures CalculateDues(100, 40) == Dues(100, 40, 60, false)
    ensures ValidatePaymentAmount(61, 100, 40, kind).Reject?
    ensures ValidatePaymentAmount(60, 100, 40, kind).Pass?
    ensures forall a :: ValidatePaymentAmount(a, 100, 100, kind).Reject?
  {
  }
}
