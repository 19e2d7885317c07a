/** The request validators of the trainer-assignment routes. */
module TrainerAssignmentMiddlewares {
  import opened Common

  const MemberIdRequired := "Member ID is required"
  const TrainerIdRequired := "Trainer ID is required"
  const SameUser := "Member and trainer cannot be the same user"
  const AssignmentStatuses: seq<string> := ["active", "inactive", "completed"]

  /** The errors of `validateAssignmentCreation`, in push order. The
      identity check is strict equality on the raw body values, so two
      absent ids (`undefined === undefined`) are "the same user" too. */
  function CreationErrors(memberId: Input<string>, trainerId: Input<string>): (r: seq<string>)
    ensures |r| <= 3
    ensures MemberIdRequired in r <==> InputBlank(memberId)
    ensures TrainerIdRequired in r <==> InputBlank(trainerId)
    ensures SameUser in r <==> memberId == trainerId
    ensures r == [] <==> !InputBlank(memberId) && !InputBlank(trainerId) && memberId != trainerId
  {
    (if InputBlank(memberId) then [MemberIdRequired] else [])
    + (if InputBlank(trainerId) then [TrainerIdRequired] else [])
    + (if memberId == trainerId then [SameUser] else [])
  }

  /** `validateAssignmentCreation`. */
  method ValidateAssignmentCreation(memberId: Input<string>, trainerId: Input<string>) returns (g: Gate<()>)
    ensures g == Validation(CreationErrors(memberId, trainerId))
    ensures g.Next? <==> !InputBlank(memberId) && !InputBlank(trainerId) && memberId != trainerId
  {
    var errors: seq<string> := [];
    if InputBlank(memberId) {
      errors := errors + [MemberIdRequired];
    }
    if InputBlank(trainerId) {
      errors := errors + [TrainerIdRequired];
    }
    if memberId == trainerId {
      errors := errors + [SameUser];
    }
    assert errors == CreationErrors(memberId, trainerId);
    if |errors| > 0 {
      return Deny(400, "Validation failed", Some(errors));
    }
    return Next(());
  }

  /** An empty body gets all three errors; so does a body with both ids null. */
  lemma MissingIdsAreTheSameUser()
    ensures CreationErrors(Undef, Undef) == [MemberIdRequired, TrainerIdRequired, SameUser]
    ensures CreationErrors(Null, Null) == [MemberIdRequired, TrainerIdRequired, SameUser]
    ensures CreationErrors(Undef, Null) == [MemberIdRequired, TrainerIdRequired]
  {
  }

  /** A date field of the body as `new Date(...)` reads it: empty text
      (falsy, never read), text that does not parse (an Invalid Date), or
      an instant. */
  datatype DateText = Empty | Unparsable | At(ms: int)

  predicate DateTruthy(d: Input<DateText>) {
    d.Given? && !d.value.Empty?
  }

  /** `end < start` on two Date objects: an Invalid Date compares as NaN,
      and every comparison with NaN is false. */
  predicate Before(end: DateText, start: DateText) {
    end.At? && start.At? && end.ms < start.ms
  }

  const InvalidStatus := "Invalid status. Must be active, inactive, or completed"
  const EndBeforeStart := "End date cannot be before start date"

  /** `validateAssignmentUpdate`: a truthy status must be one of the three
      assignment statuses; the dates are compared only when both are given,
      and equal dates pass. */
  function ValidateAssignmentUpdate(status: Input<string>, startDate: Input<DateText>, endDate: Input<DateText>): (g: Gate<()>)
    ensures !g.Forward?
    ensures g.Deny? ==> g.status == 400 && g.errors.None?
    ensures (status.Given? && status.value != "" && status.value !in AssignmentStatuses) ==> g.Deny? && g.message == InvalidStatus
    ensures g == Next(()) <==>
              (!status.Given? || status.value == "" || status.value in AssignmentStatuses)
              && !(DateTruthy(startDate) && DateTruthy(endDate) && Before(endDate.value, startDate.value))
    ensures g.Deny? && g.message == EndBeforeStart ==>
              startDate.Given? && endDate.Given? && endDate.value.ms < startDate.value.ms
  {
    if status.Given? && status.value != "" && status.value !in AssignmentStatuses then
      Deny(400, InvalidStatus, None)
    else if DateTruthy(startDate) && DateTruthy(endDate) && Before(endDate.value, startDate.value) then
      Deny(400, EndBeforeStart, None)
    else
      Next(())
  }

  /** One date alone is never compared, an equal pair passes, and a date
      that does not parse never blocks the update. */
  lemma UpdateDateEdges(t: int, u: int)
    ensures ValidateAssignmentUpdate(Undef, Given(At(t)), Undef) == Next(())
    ensures ValidateAssignmentUpdate(Undef, Given(At(t)), Given(At(t))) == Next(())
    ensures ValidateAssignmentUpdate(Undef, Given(Unparsable), Given(At(u))) == Next(())
    ensures u < t ==> ValidateAssignmentUpdate(Undef, Given(At(t)), Given(At(u))) == Deny(400, EndBeforeStart, None)
  {
  }
}
