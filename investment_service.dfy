/** The investment service: create, update and delete an org's investments.
    Row ids are positions in `Db.investments`; a deleted row leaves an empty
    slot. */
module InvestmentService {
  import opened Common
  import opened GymStore
  import opened Analytics
  import ErrorHandler

  /** `{ name, amount, date, notes }` with the amount already a number and
      the date already an instant. */
  datatype NewInvestment = NewInvestment(name: string, amount: int, date: int, notes: Option<string>)

  /** The row `createInvestment` stores: falsy notes become null. */
  function InvestmentRow(orgId: string, data: NewInvestment): (v: Investment)
    ensures v.orgId == orgId && v.name == data.name && v.amount == data.amount && v.date == data.date
    ensures v.notes.Some? <==> Present(data.notes)
    ensures v.notes.Some? ==> v.notes == data.notes
  {
    Investment(orgId, data.name, data.amount, data.date, OrNull(data.notes))
  }

  /** `createInvestment`: appends the row and returns its id. */
  method CreateInvestment(db: Db, orgId: string, data: NewInvestment) returns (id: Id)
    modifies db`investments
    ensures id == |old(db.investments)|
    ensures db.investments == old(db.investments) + [Some(InvestmentRow(orgId, data))]
  {
    id := |db.investments|;
    db.investments := db.investments + [Some(InvestmentRow(orgId, data))];
  }

  /** A new investment adds its amount to the org's total invested up to any
      date on or after its own, and moves the earliest date back to its date
      when it is earlier. */
  lemma CreatedInvestmentCounts(investments: seq<Option<Investment>>, orgId: string, data: NewInvestment, upTo: int)
    ensures TotalInvested(investments + [Some(InvestmentRow(orgId, data))], orgId, upTo)
         == TotalInvested(investments, orgId, upTo) + (if data.date <= upTo then data.amount else 0)
    ensures var e := EarliestDate(investments + [Some(InvestmentRow(orgId, data))], orgId);
            e.Some? && e.value <= data.date
  {
    var t := investments + [Some(InvestmentRow(orgId, data))];
    assert t[..|investments|] == investments;
    assert HasInvestment(t, orgId, |investments|);
  }

  /** `getInvestments`: the ids of the org's investments, in table order. */
  function GetInvestments(investments: seq<Option<Investment>>, orgId: string): (r: seq<Id>)
    ensures forall id: Id :: id in r <==> HasInvestment(investments, orgId, id)
    ensures forall i, j :: 0 <= i < j < |r| ==> r[i] < r[j]
  {
    if investments == [] then []
    else
      var n := |investments| - 1;
      var rest := GetInvestments(investments[..n], orgId);
      assert forall k :: 0 <= k < |rest| ==> rest[k] in rest && rest[k] < n;
      if HasInvestment(investments, orgId, n) then rest + [n] else rest
  }

  /** A created investment is listed last; a deleted one is no longer listed. */
  lemma ListingFollowsWrites(investments: seq<Option<Investment>>, orgId: string, data: NewInvestment, id: Id)
    requires id < |investments|
    ensures GetInvestments(investments + [Some(InvestmentRow(orgId, data))], orgId)
         == GetInvestments(investments, orgId) + [|investments|]
    ensures id !in GetInvestments(investments[id := None], orgId)
  {
    var t := investments + [Some(InvestmentRow(orgId, data))];
    assert t[..|investments|] == investments;
    assert HasInvestment(t, orgId, |investments|);
    assert !HasInvestment(investments[id := None], orgId, id);
  }

  /** `findOne(id, orgId)`: the row exists and belongs to the org. */
  predicate Found(investments: seq<Option<Investment>>, id: Id, orgId: string) {
    Live(investments, id) && investments[id].value.orgId == orgId
  }

  const NotFound := Error("Investment not found", Some(404))

  /** As written, the 404 attached to the not-found error is not where the
      error handler reads a status: a missing or foreign investment is answered
      with 500. */
  lemma NotFoundAnsweredAs500AsWritten(development: bool)
    ensures ErrorHandler.Handle(ErrorHandler.FromError(NotFound), development).status == 500
  {
    ErrorHandler.StatusFieldIsIgnored(NotFound, development);
  }

  /** Read where it is attached, the status answers a missing or foreign
      investment with 404. */
  lemma NotFoundAnsweredAs404(development: bool)
    ensures ErrorHandler.Handle(ErrorHandler.FromStatusError(NotFound), development).status == 404
  {
    ErrorHandler.AttachedStatusIsAnswered(NotFound, development);
  }

  /** The fields of an update that are not `undefined`. */
  datatype InvestmentPatch = InvestmentPatch(name: Option<string>, amount: Option<int>, date: Option<int>,
                                             notes: Option<Option<string>>)

  /** The row with the supplied fields replaced and the others kept. */
  function Patched(v: Investment, p: InvestmentPatch): (r: Investment)
    ensures r.orgId == v.orgId
    ensures r.name == Default(p.name, v.name) && r.amount == Default(p.amount, v.amount)
    ensures r.date == Default(p.date, v.date) && r.notes == Default(p.notes, v.notes)
  {
    Investment(v.orgId, Default(p.name, v.name), Default(p.amount, v.amount),
               Default(p.date, v.date), Default(p.notes, v.notes))
  }

  /** An update with no fields changes nothing, and applying the same update
      twice is the same as applying it once. */
  lemma PatchLaws(v: Investment, p: InvestmentPatch)
    ensures Patched(v, InvestmentPatch(None, None, None, None)) == v
    ensures Patched(Patched(v, p), p) == Patched(v, p)
  {
  }

  /** `updateInvestment`: 404 unless the row is the org's; otherwise only the
      supplied fields are written and the updated row is returned. */
  method UpdateInvestment(db: Db, id: Id, orgId: string, p: InvestmentPatch) returns (r: Result<Investment>)
    modifies db`investments
    ensures !Found(old(db.investments), id, orgId) ==> r == Fail(NotFound) && db.investments == old(db.investments)
    ensures Found(old(db.investments), id, orgId) ==>
              r == Ok(Patched(old(db.investments)[id].value, p))
              && db.investments == old(db.investments)[id := Some(r.value)]
  {
    if !Found(db.investments, id, orgId) {
      return Fail(NotFound);
    }
    var v := Patched(db.investments[id].value, p);
    db.investments := db.investments[id := Some(v)];
    r := Ok(v);
  }

  /** `deleteInvestment`: 404 unless the row is the org's; otherwise the row is removed. */
  method DeleteInvestment(db: Db, id: Id, orgId: string) returns (r: Outcome)
    modifies db`investments
    ensures !Found(old(db.investments), id, orgId) ==> r == Reject(NotFound) && db.investments == old(db.investments)
    ensures Found(old(db.investments), id, orgId) ==> r == Pass && db.investments == old(db.investments)[id := None]
  {
    if !Found(db.investments, id, orgId) {
      return Reject(NotFound);
    }
    db.investments := db.investments[id := None];
    r := Pass;
  }

  /** Deleting an investment takes its amount out of the total invested up to
      any date on or after its own. */
  lemma {:induction false} DeletedInvestmentUncounts(investments: seq<Option<Investment>>, id: Id, orgId: string, upTo: int)
    requires Found(investments, id, orgId)
    ensures TotalInvested(investments[id := None], orgId, upTo)
         == TotalInvested(investments, orgId, upTo) - (if investments[id].value.date <= upTo then investments[id].value.amount else 0)
  {
    var n := |investments| - 1;
    if id < n {
      DeletedInvestmentUncounts(investments[..n], id, orgId, upTo);
      assert investments[id := None][..n] == investments[..n][id := None];
    } else {
      assert investments[id := None][..n] == investments[..n];
    }
  }
}
