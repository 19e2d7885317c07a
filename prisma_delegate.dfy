/** The base repository over a Prisma model delegate. The Prisma-backed
    repositories (members, trainers, plan types and variants, memberships,
    trainings and their payments) hand `prisma.<model>` to the Mongoose base
    repository and inherit its operations, which call Mongoose model
    methods on it. A delegate has none of `findById`, `findByIdAndUpdate`,
    `findByIdAndDelete`, `find`, `findOne`, `countDocuments` or
    `insertMany`, and the methods it shares with a Mongoose model (`create`,
    `updateMany`, `deleteMany`) take one `{ data }` / `{ where, … }`
    argument, not the fields or the filter themselves. */
module PrismaDelegate {
  import opened Common

  /** The operations the Prisma-backed repositories inherit. */
  datatype BaseOp =
    | Create | Get | GetAll | Update | Destroy | HardDelete | Find | FindOne
    | FindWithPagination | Count | Exists | UpdateMany | DeleteMany | InsertMany

  /** The model method each operation calls first; `findWithPagination`
      starts with `find` and `exists` with `findOne`. */
  function ModelMethod(op: BaseOp): string {
    match op
    case Create => "create"
    case Get => "findById"
    case GetAll => "find"
    case Update => "findByIdAndUpdate"
    case Destroy => "findByIdAndUpdate"
    case HardDelete => "findByIdAndDelete"
    case Find => "find"
    case FindOne => "findOne"
    case FindWithPagination => "find"
    case Count => "countDocuments"
    case Exists => "findOne"
    case UpdateMany => "updateMany"
    case DeleteMany => "deleteMany"
    case InsertMany => "insertMany"
  }

  /** The methods of a Prisma model delegate. */
  const DelegateMethods: set<string> :=
    {"findUnique", "findUniqueOrThrow", "findFirst", "findFirstOrThrow", "findMany", "create", "createMany",
     "update", "updateMany", "upsert", "delete", "deleteMany", "count", "aggregate", "groupBy"}

  /** The `TypeError` of calling a method the delegate does not have. */
  function NotAFunction(name: string): Error {
    Err("this.model." + name + " is not a function")
  }

  /** The validation error of a delegate method handed arguments it does
      not know. */
  function InvalidInvocation(model: string, name: string): Error {
    Err("Invalid `prisma." + model + "." + name + "()` invocation")
  }

  /** The operations that return before calling the model when handed no
      data: an update or a bulk update with no keys in its data, a bulk
      insert of nothing (or of something that is not an array). */
  predicate ShortCut(op: BaseOp) {
    op.Update? || op.UpdateMany? || op.InsertMany?
  }

  /** What an inherited operation does on `prisma.<model>`: `None` when it
      returns before calling the model, otherwise the error it raises.
      `emptyData` says the data has no keys (for `insertMany`, the list is
      empty), `emptyFilter` that the filter has none; only `updateMany` and
      `deleteMany` look at the filter. */
  function Inherited(model: string, op: BaseOp, emptyData: bool, emptyFilter: bool): (r: Option<Error>)
    ensures r.None? <==> (emptyData && ShortCut(op)) || (emptyFilter && op.UpdateMany?)
    ensures emptyFilter && op.DeleteMany? ==> r == Some(Err("Filter required for deleteMany"))
    ensures r.Some? && ModelMethod(op) !in DelegateMethods ==> r.value == NotAFunction(ModelMethod(op))
    ensures r.Some? && ModelMethod(op) in DelegateMethods && !(emptyFilter && op.DeleteMany?) ==>
              r.value == InvalidInvocation(model, ModelMethod(op))
  {
    if (emptyData && ShortCut(op)) || (emptyFilter && op.UpdateMany?) then None
    else if emptyFilter && op.DeleteMany? then Some(Err("Filter required for deleteMany"))
    else if ModelMethod(op) in DelegateMethods then Some(InvalidInvocation(model, ModelMethod(op)))
    else Some(NotAFunction(ModelMethod(op)))
  }

  /** The error an inherited operation handed keys raises on `prisma.<model>`. */
  function Raised(model: string, op: BaseOp): (e: Error)
    ensures Inherited(model, op, false, false) == Some(e)
  {
    Inherited(model, op, false, false).value
  }

  /** Every lookup, listing and count the repositories inherit raises a
      `TypeError`, and so does every write of an existing row; a create
      is refused by Prisma's argument validation. */
  lemma ReadsAndRowWritesAreNotFunctions(model: string, emptyData: bool, emptyFilter: bool)
    ensures forall op: BaseOp :: !op.Create? && !op.UpdateMany? && !op.DeleteMany? && !(emptyData && ShortCut(op)) ==>
              Inherited(model, op, emptyData, emptyFilter) == Some(NotAFunction(ModelMethod(op)))
    ensures Inherited(model, Create, emptyData, emptyFilter) == Some(InvalidInvocation(model, "create"))
  {
    forall op: BaseOp | !op.Create? && !op.UpdateMany? && !op.DeleteMany? && !(emptyData && ShortCut(op))
      ensures Inherited(model, op, emptyData, emptyFilter) == Some(NotAFunction(ModelMethod(op)))
    {
      assert ModelMethod(op) !in DelegateMethods;
    }
  }
}
