/** The relational store behind the gym services (the Prisma side):
    rows, tables and the queries the services run against them.
    A row's id is its position in its table; tables whose rows can be
    hard-deleted hold `None` in the slot of a deleted row. */
module GymStore {
  import opened Common

  type Id = nat

  /** The two subscription kinds, which are also the two plan-type categories. */
  datatype Kind = Membership | Training {
    /** The entity name the services pass to the helpers. */
    function Name(): string {
      match this
      case Membership => "Membership"
      case Training => "Training"
    }

    /** `entityName.toLowerCase()`, also the category value in the store. */
    function Lower(): string {
      match this
      case Membership => "membership"
      case Training => "training"
    }

    function Other(): Kind {
      match this
      case Membership => Training
      case Training => Membership
    }
  }

  datatype Status = Active | Frozen | Cancelled | Expired

  datatype Organization = Organization(name: string, ownerUserId: Option<string>)

  datatype Member = Member(
    orgId: string,
    clerkUserId: Option<string>,
    firstName: Option<string>,
    lastName: Option<string>,
    email: Option<string>,
    phone: string,
    dateOfBirth: int,
    gender: string,
    joinDate: int,
    notes: Option<string>,
    isActive: bool)

  datatype PlanType = PlanType(
    orgId: string,
    name: string,
    description: Option<string>,
    category: Kind,
    isActive: bool)

  datatype PlanVariant = PlanVariant(
    planTypeId: Id,
    durationDays: int,
    durationLabel: Option<string>,
    price: int,
    isActive: bool)

  /** A membership or training row; `trainerName` is only set on trainings. */
  datatype Subscription = Subscription(
    orgId: string,
    memberId: Id,
    planVariantId: Id,
    trainerName: Option<string>,
    trainerId: Option<Id>,
    startDate: int,
    endDate: int,
    status: Status,
    priceAtPurchase: int,
    discountAmount: int,
    finalPrice: int,
    autoRenew: bool,
    notes: Option<string>)

  /** Which subscription a payment row pays for: its `membershipId` or its `trainingId`. */
  datatype Link = Unlinked | ToMembership(membershipId: Id) | ToTraining(trainingId: Id)

  function LinkTo(kind: Kind, id: Id): Link {
    match kind
    case Membership => ToMembership(id)
    case Training => ToTraining(id)
  }

  datatype Payment = Payment(
    orgId: string,
    memberId: Id,
    link: Link,
    amount: int,
    payMethod: string,
    status: string,
    reference: Option<string>,
    notes: Option<string>,
    paidAt: Option<int>)

  datatype Trainer = Trainer(orgId: string, name: string, isActive: bool)

  datatype Expense = Expense(orgId: string, amount: int, category: string, description: Option<string>, date: int)

  datatype Investment = Investment(orgId: string, name: string, amount: int, date: int, notes: Option<string>)

  datatype Snapshot = Snapshot(
    totalMembers: int,
    activeMembers: int,
    inactiveMembers: int,
    newlyExpired: int)

  /** The tables a report reads, as one value. */
  datatype Tables = Tables(
    members: seq<Member>,
    planTypes: seq<Option<PlanType>>,
    variants: seq<Option<PlanVariant>>,
    memberships: seq<Subscription>,
    trainings: seq<Subscription>,
    payments: seq<Payment>)
  {
    function Table(kind: Kind): seq<Subscription> {
      match kind
      case Membership => memberships
      case Training => trainings
    }
  }

  /** The store. Each field is one table; services change it in place. */
  class Db {
    var orgs: map<string, Organization>
    var members: seq<Member>
    var planTypes: seq<Option<PlanType>>
    var variants: seq<Option<PlanVariant>>
    var memberships: seq<Subscription>
    var trainings: seq<Subscription>
    var payments: seq<Payment>
    var trainers: seq<Trainer>
    var expenses: seq<Option<Expense>>
    var investments: seq<Option<Investment>>
    /** Daily snapshots keyed by (organization, day start). */
    var snapshots: map<(string, int), Snapshot>

    constructor ()
      ensures orgs == map[] && snapshots == map[]
      ensures members == [] && planTypes == [] && variants == []
      ensures memberships == [] && trainings == [] && payments == []
      ensures trainers == [] && expenses == [] && investments == []
    {
      orgs, snapshots := map[], map[];
      members, planTypes, variants := [], [], [];
      memberships, trainings, payments := [], [], [];
      trainers, expenses, investments := [], [], [];
    }

    /** The subscription table of one kind. */
    function Table(kind: Kind): seq<Subscription>
      reads this
    {
      match kind
      case Membership => memberships
      case Training => trainings
    }

    function View(): (t: Tables)
      reads this
      ensures t.Table(Membership) == memberships && t.Table(Training) == trainings
    {
      Tables(members, planTypes, variants, memberships, trainings, payments)
    }

    /** Writes the subscription table of one kind; the other is untouched. */
    method PutTable(kind: Kind, t: seq<Subscription>)
      modifies this`memberships, this`trainings
      ensures Table(kind) == t
      ensures Table(kind.Other()) == old(Table(kind.Other()))
    {
      match kind
      case Membership => memberships := t;
      case Training => trainings := t;
    }
  }

  /** What one payment adds to the paid total of `link`. */
  function PaidShare(p: Payment, link: Link): int {
    if p.status == "paid" && p.link == link then p.amount else 0
  }

  /** `aggregate({ where: { <link>, status: "paid" }, _sum: { amount } })`, 0 when nothing matches. */
  function PaidSum(payments: seq<Payment>, link: Link): int
  {
    if payments == [] then 0
    else PaidSum(payments[..|payments| - 1], link) + PaidShare(payments[|payments| - 1], link)
  }

  /** Appending a payment adds exactly its own share. */
  lemma PaidSumAppend(payments: seq<Payment>, p: Payment, link: Link)
    ensures PaidSum(payments + [p], link) == PaidSum(payments, link) + PaidShare(p, link)
  {
    assert (payments + [p])[..|payments|] == payments;
  }

  /** Replacing one payment changes the total by the difference of the two shares. */
  lemma {:induction false} PaidSumUpdate(payments: seq<Payment>, i: nat, q: Payment, link: Link)
    requires i < |payments|
    ensures PaidSum(payments[i := q], link)
         == PaidSum(payments, link) - PaidShare(payments[i], link) + PaidShare(q, link)
  {
    var n := |payments|;
    if i == n - 1 {
      assert payments[i := q][..n - 1] == payments[..n - 1];
    } else {
      PaidSumUpdate(payments[..n - 1], i, q, link);
      assert payments[i := q][..n - 1] == payments[..n - 1][i := q];
    }
  }

  /** A payment that pays for nothing else leaves every other total alone. */
  lemma {:induction false} PaidSumOtherLink(payments: seq<Payment>, i: nat, q: Payment, link: Link)
    requires i < |payments|
    requires payments[i].link != link && q.link != link
    ensures PaidSum(payments[i := q], link) == PaidSum(payments, link)
  {
    PaidSumUpdate(payments, i, q, link);
  }

  /** Rows of a table with a given id: the slot holds a row. */
  predicate Live<T>(table: seq<Option<T>>, id: Id) {
    id < |table| && table[id].Some?
  }
}
