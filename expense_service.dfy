/** The expense service: create, list by month, update and delete an org's
    expenses. Row ids are positions in `Db.expenses`; a deleted row leaves
    an empty slot. */
module ExpenseService {
  import opened Common
  import opened GymStore
  import opened Calendar
  import opened Analytics
  import ErrorHandler

  /** `{ amount, category, description, date }` with the amount already a
      number and the date already an instant. */
  datatype NewExpense = NewExpense(amount: int, category: string, description: Option<string>, date: int)

  /** The row `createExpense` stores: a falsy description becomes null. */
  function ExpenseRow(orgId: string, data: NewExpense): (e: Expense)
    ensures e.orgId == orgId && e.amount == data.amount && e.category == data.category && e.date == data.date
    ensures e.description.Some? <==> Present(data.description)
    ensures e.description.Some? ==> e.description == data.description
  {
    Expense(orgId, data.amount, data.category, OrNull(data.description), data.date)
  }

  /** `createExpense`: appends the row and returns its id. */
  method CreateExpense(db: Db, orgId: string, data: NewExpense) returns (id: Id)
    modifies db`expenses
    ensures id == |old(db.expenses)|
    ensures db.expenses == old(db.expenses) + [Some(ExpenseRow(orgId, data))]
  {
    id := |db.expenses|;
    db.expenses := db.expenses + [Some(ExpenseRow(orgId, data))];
  }

  /** A new expense adds its amount to the sum of every window holding its
      date, for its own org, and to nothing else. */
  lemma CreatedExpenseCounts(expenses: seq<Option<Expense>>, orgId: string, data: NewExpense, forOrg: string, from: int, to: int)
    ensures ExpenseSum(expenses + [Some(ExpenseRow(orgId, data))], forOrg, from, to)
         == ExpenseSum(expenses, forOrg, from, to) + (if forOrg == orgId && from <= data.date <= to then data.amount else 0)
  {
    assert (expenses + [Some(ExpenseRow(orgId, data))])[..|expenses|] == expenses;
  }

  // ---------------------------------------------------------------------
  // Listing

  /** The date filter of `findMany`: none, or `gte`/`lte` bounds. */
  datatype DateFilter = AllDates | Between(from: int, to: int)

  /** The filter `getExpenses` passes for an optional "YYYY-MM": the first
      instant of the month through the first instant of its last day
      (`new Date(year, mon, 0)`), with the constructor's reading of years 0
      to 99 as 1900 to 1999; NaN parts give an invalid date. */
  function ListFilter(month: Option<string>): (r: Result<DateFilter>)
    ensures !Present(month) ==> r == Ok(AllDates)
    ensures Present(month) && ParseYearMonth(month.value).None? ==> r == Fail(InvalidDate)
    ensures r.Ok? && r.value.Between? ==> r.value.from < r.value.to
  {
    if Present(month) then
      match ParseYearMonth(month.value)
      case None => Fail(InvalidDate)
      case Some((year, mon)) =>
        var ym := YearMonth(FullYear(year), mon - 1);
        Ok(Between(MonthStart(ym), LastDayStart(ym)))
    else Ok(AllDates)
  }

  predicate Listed(e: Option<Expense>, orgId: string, f: DateFilter) {
    e.Some? && e.value.orgId == orgId && (f.Between? ==> f.from <= e.value.date <= f.to)
  }

  /** The ids of the rows a filter selects, in table order. */
  function Select(expenses: seq<Option<Expense>>, orgId: string, f: DateFilter): (r: seq<Id>)
    ensures forall id: Id :: id in r <==> id < |expenses| && Listed(expenses[id], orgId, f)
    ensures forall i, j :: 0 <= i < j < |r| ==> r[i] < r[j]
  {
    if expenses == [] then []
    else
      var n := |expenses| - 1;
      var rest := Select(expenses[..n], orgId, f);
      assert forall k :: 0 <= k < |rest| ==> rest[k] in rest && rest[k] < n;
      if Listed(expenses[n], orgId, f) then rest + [n] else rest
  }

  /** `getExpenses`: the org's expenses, restricted to the month when one is given. */
  function GetExpenses(expenses: seq<Option<Expense>>, orgId: string, month: Option<string>): (r: Result<seq<Id>>)
    ensures ListFilter(month).Fail? ==> r.Fail?
    ensures r.Ok? ==> forall id: Id :: id in r.value <==> id < |expenses| && Listed(expenses[id], orgId, ListFilter(month).value)
  {
    var f :- ListFilter(month);
    Ok(Select(expenses, orgId, f))
  }

  /** The month list stops at the first instant of the month's last day while
      the monthly summary runs to its last millisecond: an expense dated later
      on the last day is in the summary window but not in the list. */
  lemma ListStopsAtLastDay(ym: YearMonth, now: YearMonth, e: Expense)
    requires Valid(ym) && ym.year >= 100 && Valid(now)
    requires LastDayStart(ym) < e.date <= MonthEnd(ym)
    ensures SummaryWindow(Some(FormatPeriod(ym)), now) == Ok(MonthWindow(ym))
    ensures MonthWindow(ym).from <= e.date <= MonthWindow(ym).to
    ensures ListFilter(Some(FormatPeriod(ym))) == Ok(Between(MonthStart(ym), LastDayStart(ym)))
    ensures !Listed(Some(e), e.orgId, ListFilter(Some(FormatPeriod(ym))).value)
  {
    MonthTextSelectsMonth(ym, now);
    MonthListFilter(ym);
    assert MonthStart(ym) < LastDayStart(ym);
  }

  /** The list filter of a printed month. */
  lemma MonthListFilter(ym: YearMonth)
    requires Valid(ym) && ym.year >= 100
    ensures ListFilter(Some(FormatPeriod(ym))) == Ok(Between(MonthStart(ym), LastDayStart(ym)))
  {
    PeriodText(ym);
    var text := FormatPeriod(ym);
    assert ParseYearMonth(text) == Some((ym.year, ym.month0 + 1));
    assert YearMonth(ym.year, ym.month0 + 1 - 1) == ym;
  }

  // ---------------------------------------------------------------------
  // Update and delete

  /** `findOne(id, orgId)`: the row exists and belongs to the org. */
  predicate Found(expenses: seq<Option<Expense>>, id: Id, orgId: string) {
    Live(expenses, id) && expenses[id].value.orgId == orgId
  }

  const NotFound := Error("Expense not found", Some(404))

  /** As written, the 404 attached to the not-found error is not where the
      error handler reads a status: a missing or foreign expense is answered
      with 500. */
  lemma NotFoundAnsweredAs500AsWritten(development: bool)
    ensures ErrorHandler.Handle(ErrorHandler.FromError(NotFound), development).status == 500
  {
    ErrorHandler.StatusFieldIsIgnored(NotFound, development);
  }

  /** Read where it is attached, the status answers a missing or foreign
      expense with 404. */
  lemma NotFoundAnsweredAs404(development: bool)
    ensures ErrorHandler.Handle(ErrorHandler.FromStatusError(NotFound), development).status == 404
  {
    ErrorHandler.AttachedStatusIsAnswered(NotFound, development);
  }

  /** The fields of an update that are not `undefined`. */
  datatype ExpensePatch = ExpensePatch(amount: Option<int>, category: Option<string>,
                                       description: Option<Option<string>>, date: Option<int>)

  /** The row with the supplied fields replaced and the others kept. */
  function Patched(e: Expense, p: ExpensePatch): (r: Expense)
    ensures r.orgId == e.orgId
    ensures r.amount == Default(p.amount, e.amount) && r.category == Default(p.category, e.category)
    ensures r.description == Default(p.description, e.description) && r.date == Default(p.date, e.date)
  {
    Expense(e.orgId, Default(p.amount, e.amount), Default(p.category, e.category),
            Default(p.description, e.description), Default(p.date, e.date))
  }

  /** An update with no fields changes nothing, and applying the same update
      twice is the same as applying it once. */
  lemma PatchLaws(e: Expense, p: ExpensePatch)
    ensures Patched(e, ExpensePatch(None, None, None, None)) == e
    ensures Patched(Patched(e, p), p) == Patched(e, p)
  {
  }

  /** `updateExpense`: 404 unless the row is the org's; otherwise only the
      supplied fields are written and the updated row is returned. */
  method UpdateExpense(db: Db, id: Id, orgId: string, p: ExpensePatch) returns (r: Result<Expense>)
    modifies db`expenses
    ensures !Found(old(db.expenses), id, orgId) ==> r == Fail(NotFound) && db.expenses == old(db.expenses)
    ensures Found(old(db.expenses), id, orgId) ==>
              r == Ok(Patched(old(db.expenses)[id].value, p))
              && db.expenses == old(db.expenses)[id := Some(r.value)]
  {
    if !Found(db.expenses, id, orgId) {
      return Fail(NotFound);
    }
    var e := Patched(db.expenses[id].value, p);
    db.expenses := db.expenses[id := Some(e)];
    r := Ok(e);
  }

  /** `deleteExpense`: 404 unless the row is the org's; otherwise the row is removed. */
  method DeleteExpense(db: Db, id: Id, orgId: string) returns (r: Outcome)
    modifies db`expenses
    ensures !Found(old(db.expenses), id, orgId) ==> r == Reject(NotFound) && db.expenses == old(db.expenses)
    ensures Found(old(db.expenses), id, orgId) ==> r == Pass && db.expenses == old(db.expenses)[id := None]
  {
    if !Found(db.expenses, id, orgId) {
      return Reject(NotFound);
    }
    db.expenses := db.expenses[id := None];
    r := Pass;
  }

  /** After a delete the same id is not found again, and every other row is
      found exactly as before. */
  lemma DeletedIsGone(expenses: seq<Option<Expense>>, id: Id, other: Id, orgId: string, otherOrg: string)
    requires id < |expenses| && other != id
    ensures !Found(expenses[id := None], id, orgId)
    ensures Found(expenses[id := None], other, otherOrg) <==> Found(expenses, other, otherOrg)
  {
  }

  /** A row of another org is never touched: for it every update and delete
      is the 404 error. */
  lemma OtherOrgIsNotFound(expenses: seq<Option<Expense>>, id: Id, orgId: string)
    requires Live(expenses, id) && expenses[id].value.orgId != orgId
    ensures !Found(expenses, id, orgId)
  {
  }

  /** Deleting an expense takes its amount out of every window that held it. */
  lemma {:induction false} DeletedExpenseUncounts(expenses: seq<Option<Expense>>, id: Id, orgId: string, from: int, to: int)
    requires id < |expenses|
    ensures ExpenseSum(expenses[id := None], orgId, from, to)
         == ExpenseSum(expenses, orgId, from, to) - (if SpentIn(expenses[id], orgId, from, to) then expenses[id].value.amount else 0)
  {
    var n := |expenses| - 1;
    if id < n {
      DeletedExpenseUncounts(expenses[..n], id, orgId, from, to);
      assert expenses[id := None][..n] == expenses[..n][id := None];
    } else {
      assert expenses[id := None][..n] == expenses[..n];
    }
  }
}
