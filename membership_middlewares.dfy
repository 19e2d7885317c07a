/** The request validators of the membership-plan routes: each collects an
    error list and lets the request through iff the list is empty. */
module MembershipMiddlewares {
  import opened Common

  const NameRequired := "Plan name is required"
  const DurationPositive := "Duration must be a positive number"
  const PriceNonNegative := "Price must be a non-negative number"
  const PlanIdRequired := "Plan ID is required"

  /** `!durationDays || durationDays <= 0`: absent, null, 0 and negatives. */
  predicate BadDuration(durationDays: Input<int>) {
    !durationDays.Given? || durationDays.value <= 0
  }

  /** `price === undefined || price < 0`; `null < 0` is false, so a null
      price is not an error. */
  predicate BadPrice(price: Input<int>) {
    price.Undef? || (price.Given? && price.value < 0)
  }

  /** The errors of `validatePlanData`, in the order they are pushed. */
  function PlanDataErrors(name: Input<string>, durationDays: Input<int>, price: Input<int>): (r: seq<string>)
    ensures |r| <= 3
    ensures NameRequired in r <==> InputBlank(name)
    ensures DurationPositive in r <==> BadDuration(durationDays)
    ensures PriceNonNegative in r <==> BadPrice(price)
    ensures r == [] <==> !InputBlank(name) && !BadDuration(durationDays) && !BadPrice(price)
    ensures InputBlank(name) ==> r[0] == NameRequired
    ensures BadPrice(price) ==> r[|r| - 1] == PriceNonNegative
  {
    (if InputBlank(name) then [NameRequired] else [])
    + (if BadDuration(durationDays) then [DurationPositive] else [])
    + (if BadPrice(price) then [PriceNonNegative] else [])
  }

  /** `validatePlanData`. */
  method ValidatePlanData(name: Input<string>, durationDays: Input<int>, price: Input<int>) returns (g: Gate<()>)
    ensures g == Validation(PlanDataErrors(name, durationDays, price))
    ensures g.Next? <==> !InputBlank(name) && !BadDuration(durationDays) && !BadPrice(price)
  {
    var errors: seq<string> := [];
    if InputBlank(name) {
      errors := errors + [NameRequired];
    }
    if BadDuration(durationDays) {
      errors := errors + [DurationPositive];
    }
    if BadPrice(price) {
      errors := errors + [PriceNonNegative];
    }
    assert errors == PlanDataErrors(name, durationDays, price);
    if |errors| > 0 {
      return Deny(400, "Validation failed", Some(errors));
    }
    return Next(());
  }

  /** A free plan (price 0) and a plan whose price is null pass, a duration
      of 0 days does not. */
  lemma PlanDataEdges(name: Input<string>)
    requires !InputBlank(name)
    ensures PlanDataErrors(name, Given(30), Given(0)) == []
    ensures PlanDataErrors(name, Given(30), Null) == []
    ensures PlanDataErrors(name, Given(0), Given(100)) == [DurationPositive]
    ensures PlanDataErrors(name, Given(30), Undef) == [PriceNonNegative]
  {
  }

  /** `!planId` for the plan id of an assignment request. */
  predicate MissingId(planId: Input<string>) {
    !planId.Given? || planId.value == ""
  }

  /** The errors of `validateMembershipAssignment`. */
  function AssignmentErrors(planId: Input<string>): (r: seq<string>)
    ensures r == [] <==> !MissingId(planId)
    ensures r != [] ==> r == [PlanIdRequired]
  {
    if MissingId(planId) then [PlanIdRequired] else []
  }

  /** `validateMembershipAssignment`. */
  method ValidateMembershipAssignment(planId: Input<string>) returns (g: Gate<()>)
    ensures g == Validation(AssignmentErrors(planId))
    ensures g.Next? <==> !MissingId(planId)
  {
    var errors: seq<string> := [];
    if MissingId(planId) {
      errors := errors + [PlanIdRequired];
    }
    assert errors == AssignmentErrors(planId);
    if |errors| > 0 {
      return Deny(400, "Validation failed", Some(errors));
    }
    return Next(());
  }
}
