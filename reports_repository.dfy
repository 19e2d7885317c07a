/** The reports repository: bulk expiry, member deactivation, inactive
    candidates and the in-memory dues report. */
module ReportsRepository {
  import opened Common
  import opened GymStore
  import opened Pagination
  import PrismaDelegate

  // ---------------------------------------------------------------------
  // Expiry

  /** The rows `expireStale…` selects: this org, still active, ended before now. */
  predicate Stale(s: Subscription, orgId: string, now: int) {
    s.orgId == orgId && s.status == Active && s.endDate < now
  }

  function ExpireRow(s: Subscription, orgId: string, now: int): Subscription {
    if Stale(s, orgId, now) then s.(status := Expired) else s
  }

  /** The table after `updateMany({ where: stale, data: { status: "expired" } })`. */
  function ExpireAll(t: seq<Subscription>, orgId: string, now: int): (r: seq<Subscription>)
    ensures |r| == |t|
    ensures forall i :: 0 <= i < |t| && !Stale(t[i], orgId, now) ==> r[i] == t[i]
    ensures forall i :: 0 <= i < |t| && Stale(t[i], orgId, now) ==> r[i] == t[i].(status := Expired)
    ensures forall i :: 0 <= i < |r| ==> !Stale(r[i], orgId, now)
  {
    seq(|t|, i requires 0 <= i < |t| => ExpireRow(t[i], orgId, now))
  }

  /** The count `updateMany` returns: the number of rows it selects. */
  function StaleCount(t: seq<Subscription>, orgId: string, now: int): nat {
    if t == [] then 0
    else StaleCount(t[..|t| - 1], orgId, now) + (if Stale(t[|t| - 1], orgId, now) then 1 else 0)
  }

  lemma {:induction false} StaleCountZero(t: seq<Subscription>, orgId: string, now: int)
    requires forall i :: 0 <= i < |t| ==> !Stale(t[i], orgId, now)
    ensures StaleCount(t, orgId, now) == 0
  {
    if t != [] {
      StaleCountZero(t[..|t| - 1], orgId, now);
    }
  }

  lemma {:induction false} StaleCountPositive(t: seq<Subscription>, orgId: string, now: int, i: int)
    requires 0 <= i < |t| && Stale(t[i], orgId, now)
    ensures StaleCount(t, orgId, now) > 0
  {
    if i < |t| - 1 {
      StaleCountPositive(t[..|t| - 1], orgId, now, i);
    }
  }

  /** Expiry is idempotent: a second pass at the same time finds nothing. */
  lemma ExpireIdempotent(t: seq<Subscription>, orgId: string, now: int)
    ensures StaleCount(ExpireAll(t, orgId, now), orgId, now) == 0
    ensures ExpireAll(ExpireAll(t, orgId, now), orgId, now) == ExpireAll(t, orgId, now)
  {
    StaleCountZero(ExpireAll(t, orgId, now), orgId, now);
  }

  /** `expireStaleMemberships` / `expireStaleTrainings`. */
  method ExpireStale(db: Db, kind: Kind, orgId: string, now: int) returns (count: nat)
    modifies db`memberships, db`trainings
    ensures count == StaleCount(old(db.Table(kind)), orgId, now)
    ensures db.Table(kind) == ExpireAll(old(db.Table(kind)), orgId, now)
    ensures db.Table(kind.Other()) == old(db.Table(kind.Other()))
  {
    count := StaleCount(db.Table(kind), orgId, now);
    db.PutTable(kind, ExpireAll(db.Table(kind), orgId, now));
  }

  // ---------------------------------------------------------------------
  // Members without an active subscription

  predicate HasActive(table: seq<Subscription>, m: Id) {
    exists i :: 0 <= i < |table| && table[i].memberId == m && table[i].status == Active
  }

  /** The `where` of `findMembersWithNoActiveSubs` and `findInactiveCandidates`. */
  predicate Idle(t: Tables, orgId: string, m: Id) {
    && m < |t.members|
    && t.members[m].orgId == orgId
    && t.members[m].isActive
    && !HasActive(t.memberships, m)
    && !HasActive(t.trainings, m)
  }

  /** The idle ids among the first `n` members, in id order. */
  function IdleUpTo(t: Tables, orgId: string, n: nat): (r: seq<Id>)
    requires n <= |t.members|
    ensures forall m: Id :: m in r <==> m < n && Idle(t, orgId, m)
    ensures r == [] <==> forall m: Id :: m < n ==> !Idle(t, orgId, m)
    ensures forall i, j :: 0 <= i < j < |r| ==> r[i] < r[j]
    ensures forall i :: 0 <= i < |r| ==> r[i] < n
  {
    if n == 0 then []
    else IdleUpTo(t, orgId, n - 1) + (if Idle(t, orgId, n - 1) then [n - 1] else [])
  }

  /** `findMembersWithNoActiveSubs`. */
  function MembersWithNoActiveSubs(t: Tables, orgId: string): (r: seq<Id>)
    ensures forall m: Id :: m in r <==> Idle(t, orgId, m)
    ensures r == [] <==> forall m: Id :: m < |t.members| ==> !Idle(t, orgId, m)
    ensures forall i, j :: 0 <= i < j < |r| ==> r[i] != r[j]
  {
    IdleUpTo(t, orgId, |t.members|)
  }

  /** The members after `updateMany({ where: { id: { in: ids } }, data: { isActive: false } })`. */
  function Deactivated(members: seq<Member>, ids: seq<Id>): (r: seq<Member>)
    ensures |r| == |members|
    ensures forall i :: 0 <= i < |members| && i in ids ==> r[i] == members[i].(isActive := false)
    ensures forall i :: 0 <= i < |members| && i !in ids ==> r[i] == members[i]
  {
    seq(|members|, i requires 0 <= i < |members| => if i in ids then members[i].(isActive := false) else members[i])
  }

  /** `deactivateMembers`: no write for an empty list; otherwise exactly the
      listed members are deactivated and the count is the number of rows the
      ids select. */
  method DeactivateMembers(db: Db, ids: seq<Id>) returns (count: nat)
    modifies db`members
    ensures |ids| == 0 ==> count == 0 && db.members == old(db.members)
    ensures db.members == Deactivated(old(db.members), ids)
    ensures count == |set i: nat | i < |old(db.members)| && i in ids|
  {
    if |ids| == 0 {
      assert db.members == Deactivated(db.members, ids);
      assert (set i: nat | i < |db.members| && i in ids) == {};
      return 0;
    }
    count := |set i: nat | i < |db.members| && i in ids|;
    db.members := Deactivated(db.members, ids);
  }

  // ---------------------------------------------------------------------
  // Inactive candidates

  /** The end date of the member's latest subscription of one table
      (`orderBy: { endDate: "desc" }, take: 1`), or none. */
  function LatestEnd(table: seq<Subscription>, m: Id): (r: Option<int>)
    ensures r.None? <==> forall i :: 0 <= i < |table| ==> table[i].memberId != m
    ensures r.Some? ==> exists i :: 0 <= i < |table| && table[i].memberId == m && table[i].endDate == r.value
    ensures r.Some? ==> forall i :: 0 <= i < |table| && table[i].memberId == m ==> table[i].endDate <= r.value
  {
    if table == [] then None
    else
      var rest := LatestEnd(table[..|table| - 1], m);
      var last := table[|table| - 1];
      assert forall i :: 0 <= i < |table| - 1 ==> table[..|table| - 1][i] == table[i];
      if last.memberId != m then rest
      else if rest.Some? && rest.value >= last.endDate then rest
      else Some(last.endDate)
  }

  /** One row of `findInactiveCandidates`: the member and the end dates of its
      latest membership and latest training. */
  datatype Candidate = Candidate(memberId: Id, latestMembershipEnd: Option<int>, latestTrainingEnd: Option<int>)

  datatype CandidatePage = CandidatePage(data: seq<Candidate>, pagination: Page)

  function CandidateOf(t: Tables, m: Id): Candidate {
    Candidate(m, LatestEnd(t.memberships, m), LatestEnd(t.trainings, m))
  }

  /** The rows of the members `ids`, in that order. */
  function CandidateRows(t: Tables, ids: seq<Id>): (r: seq<Candidate>)
    ensures |r| == |ids| && forall k :: 0 <= k < |ids| ==> r[k] == CandidateOf(t, ids[k])
  {
    seq(|ids|, k requires 0 <= k < |ids| => CandidateOf(t, ids[k]))
  }

  /** `findInactiveCandidates`: the idle members in the window a Prisma
      `findMany` with `skip = (page - 1) * limit` and `take = limit` returns,
      and the page metadata over all of them. Prisma's argument validation
      refuses a negative `skip`, which comes from a page before the first
      with a positive limit or a page past the first with a negative one; a
      negative `take` reads the list from its end. */
  function FindInactiveCandidates(t: Tables, orgId: string, page: int, limit: int): (r: Result<CandidatePage>)
    requires limit != 0
    ensures r.Fail? <==> Offset(page, limit) < 0
    ensures r.Fail? <==> (limit > 0 && page < 1) || (limit < 0 && page > 1)
    ensures r.Fail? ==> r.error == PrismaDelegate.InvalidInvocation("member", "findMany")
    ensures r.Ok? ==>
              var window := FindManyWindow(MembersWithNoActiveSubs(t, orgId), Offset(page, limit), limit);
              && r.value.pagination == Paginate(page, limit, |MembersWithNoActiveSubs(t, orgId)|)
              && |r.value.data| == |window|
              && (forall k :: 0 <= k < |window| ==> r.value.data[k] == CandidateOf(t, window[k]))
              && |r.value.data| <= (if limit > 0 then limit else -limit)
    ensures r.Ok? ==> forall k :: 0 <= k < |r.value.data| ==> Idle(t, orgId, r.value.data[k].memberId)
                                                              && r.value.data[k] == CandidateOf(t, r.value.data[k].memberId)
    ensures page >= 1 && limit > 0 ==>
              var window := PageOf(MembersWithNoActiveSubs(t, orgId), page, limit);
              && r.Ok?
              && |r.value.data| == |window|
              && forall k :: 0 <= k < |window| ==> r.value.data[k] == CandidateOf(t, window[k])
  {
    NegativeOffset(page, limit);
    var skip := Offset(page, limit);
    if skip < 0 then Fail(PrismaDelegate.InvalidInvocation("member", "findMany"))
    else
      var ids := MembersWithNoActiveSubs(t, orgId);
      var window := FindManyWindow(ids, skip, limit);
      WindowWithin(ids, skip, limit);
      assert page >= 1 && limit > 0 ==> window == PageOf(ids, page, limit) by {
        if page >= 1 && limit > 0 { FindManyIsPageOf(ids, page, limit); }
      }
      var rows := CandidateRows(t, window);
      assert forall k :: 0 <= k < |rows| ==> Idle(t, orgId, rows[k].memberId) && rows[k] == CandidateOf(t, rows[k].memberId) by {
        forall k | 0 <= k < |rows| ensures Idle(t, orgId, rows[k].memberId) && rows[k] == CandidateOf(t, rows[k].memberId) {
          assert rows[k].memberId == window[k] && window[k] in ids;
        }
      }
      Ok(CandidatePage(rows, Paginate(page, limit, |ids|)))
  }

  // ---------------------------------------------------------------------
  // Dues report

  /** One entry of `membershipDues` / `trainingDues`. */
  datatype SubDue = SubDue(
    id: Id,
    planName: string,
    variantName: string,
    finalPrice: int,
    totalPaid: int,
    dueAmount: int,
    status: Status,
    endDate: int)

  /** One entry of `membersWithDues`. */
  datatype MemberDue = MemberDue(
    memberId: Id,
    firstName: Option<string>,
    lastName: Option<string>,
    phone: string,
    email: Option<string>,
    isActive: bool,
    totalDue: int,
    membershipDuesTotal: int,
    trainingDuesTotal: int,
    membershipDues: seq<SubDue>,
    trainingDues: seq<SubDue>)

  /** `planVariant?.planType?.name || "Unknown"`. */
  function PlanName(t: Tables, variantId: Id): string {
    if Live(t.variants, variantId) && Live(t.planTypes, t.variants[variantId].value.planTypeId)
       && t.planTypes[t.variants[variantId].value.planTypeId].value.name != ""
    then t.planTypes[t.variants[variantId].value.planTypeId].value.name
    else "Unknown"
  }

  /** `planVariant?.durationLabel || "Unknown"`. */
  function VariantName(t: Tables, variantId: Id): string {
    if Live(t.variants, variantId) then OrElse(t.variants[variantId].value.durationLabel, "Unknown")
    else "Unknown"
  }

  /** The entry for row `i` of a table when it belongs to member `m` and is not fully paid. */
  function DueEntry(t: Tables, kind: Kind, m: Id, i: nat): seq<SubDue>
    requires i < |t.Table(kind)|
  {
    var s := t.Table(kind)[i];
    var paid := PaidSum(t.payments, LinkTo(kind, i));
    var due := if s.finalPrice - paid > 0 then s.finalPrice - paid else 0;
    if s.memberId == m && due > 0 then
      [SubDue(i, PlanName(t, s.planVariantId), VariantName(t, s.planVariantId), s.finalPrice, paid, due,
              s.status, s.endDate)]
    else []
  }

  /** The due entries of member `m` among the first `n` rows of a table. */
  function SubDues(t: Tables, kind: Kind, m: Id, n: nat): seq<SubDue>
    requires n <= |t.Table(kind)|
  {
    if n == 0 then [] else SubDues(t, kind, m, n - 1) + DueEntry(t, kind, m, n - 1)
  }

  /** A subscription of the member that is not fully paid, at row `i`. */
  predicate Owes(t: Tables, kind: Kind, m: Id, i: int) {
    && 0 <= i < |t.Table(kind)|
    && t.Table(kind)[i].memberId == m
    && t.Table(kind)[i].finalPrice - PaidSum(t.payments, LinkTo(kind, i)) > 0
  }

  /** The entries are exactly the member's subscriptions that are not fully
      paid, each with its paid total and its positive due. */
  lemma {:induction false} SubDuesExact(t: Tables, kind: Kind, m: Id, n: nat)
    requires n <= |t.Table(kind)|
    ensures forall e :: e in SubDues(t, kind, m, n) ==>
              && e.id < n && Owes(t, kind, m, e.id)
              && e.totalPaid == PaidSum(t.payments, LinkTo(kind, e.id))
              && e.dueAmount == t.Table(kind)[e.id].finalPrice - e.totalPaid
              && e.dueAmount > 0
    ensures forall i :: 0 <= i < n && Owes(t, kind, m, i) ==> exists e :: e in SubDues(t, kind, m, n) && e.id == i
  {
    if n > 0 {
      SubDuesExact(t, kind, m, n - 1);
      var prev, d := SubDues(t, kind, m, n - 1), DueEntry(t, kind, m, n - 1);
      assert SubDues(t, kind, m, n) == prev + d;
      forall e: SubDue | e in prev + d
        ensures && e.id < n && Owes(t, kind, m, e.id)
                && e.totalPaid == PaidSum(t.payments, LinkTo(kind, e.id))
                && e.dueAmount == t.Table(kind)[e.id].finalPrice - e.totalPaid
                && e.dueAmount > 0
      {
        if e !in prev {
          assert e == d[0];
        }
      }
      forall i | 0 <= i < n && Owes(t, kind, m, i)
        ensures exists e :: e in prev + d && e.id == i
      {
        if i == n - 1 {
          assert d[0] in prev + d;
        } else {
          var e :| e in prev && e.id == i;
          assert e in prev + d;
        }
      }
    }
  }

  /** What row `i` adds to the member's total: its due when it owes, else nothing. */
  function OwedAt(t: Tables, kind: Kind, m: Id, i: nat): int
    requires i < |t.Table(kind)|
  {
    if Owes(t, kind, m, i) then t.Table(kind)[i].finalPrice - PaidSum(t.payments, LinkTo(kind, i)) else 0
  }

  /** The member's total due over the first `n` rows of a table. */
  function SubTotal(t: Tables, kind: Kind, m: Id, n: nat): int
    requires n <= |t.Table(kind)|
  {
    if n == 0 then 0 else SubTotal(t, kind, m, n - 1) + OwedAt(t, kind, m, n - 1)
  }

  /** A member's total over a table is positive exactly when it owes on some
      subscription in it. */
  lemma {:induction false} SubTotalPositive(t: Tables, kind: Kind, m: Id, n: nat)
    requires n <= |t.Table(kind)|
    ensures SubTotal(t, kind, m, n) >= 0
    ensures SubTotal(t, kind, m, n) > 0 <==> exists i :: 0 <= i < n && Owes(t, kind, m, i)
  {
    if n > 0 {
      SubTotalPositive(t, kind, m, n - 1);
    }
  }

  /** The member filter of the dues report. */
  predicate InReport(t: Tables, orgId: string, filter: Option<Id>, m: Id) {
    m < |t.members| && t.members[m].orgId == orgId && (filter.Some? ==> filter.value == m)
  }

  /** The report row of member `m`: its due entries in both tables and their totals. */
  function MemberEntry(t: Tables, m: Id): (e: MemberDue)
    requires m < |t.members|
    ensures e.memberId == m
    ensures e.totalDue == e.membershipDuesTotal + e.trainingDuesTotal
  {
    var ms := SubDues(t, Membership, m, |t.memberships|);
    var tr := SubDues(t, Training, m, |t.trainings|);
    var msTotal := SubTotal(t, Membership, m, |t.memberships|);
    var trTotal := SubTotal(t, Training, m, |t.trainings|);
    var member := t.members[m];
    MemberDue(m, member.firstName, member.lastName, member.phone, member.email, member.isActive,
              msTotal + trTotal, msTotal, trTotal, ms, tr)
  }

  /** What member `m` adds to the report: its entry when it passes the
      filter and owes something, nothing otherwise. */
  function Row(t: Tables, orgId: string, filter: Option<Id>, m: Id): seq<MemberDue>
    requires m < |t.members|
  {
    if InReport(t, orgId, filter, m) && MemberEntry(t, m).totalDue > 0 then [MemberEntry(t, m)] else []
  }

  /** The report rows for the first `n` members, in member order. */
  function Listed(t: Tables, orgId: string, filter: Option<Id>, n: nat): seq<MemberDue>
    requires n <= |t.members|
  {
    if n == 0 then [] else Listed(t, orgId, filter, n - 1) + Row(t, orgId, filter, n - 1)
  }

  /** Every listed row is a member that passes the filter, with its entry and
      a positive total that is the sum of its two partial totals. */
  lemma {:induction false} ListedSound(t: Tables, orgId: string, filter: Option<Id>, n: nat)
    requires n <= |t.members|
    ensures forall e :: e in Listed(t, orgId, filter, n) ==>
              && e.memberId < n && InReport(t, orgId, filter, e.memberId)
              && e == MemberEntry(t, e.memberId)
              && e.totalDue == e.membershipDuesTotal + e.trainingDuesTotal
              && e.totalDue > 0
  {
    if n > 0 {
      ListedSound(t, orgId, filter, n - 1);
      var prev, tail := Listed(t, orgId, filter, n - 1), Row(t, orgId, filter, n - 1);
      forall e: MemberDue | e in prev + tail
        ensures && e.memberId < n && InReport(t, orgId, filter, e.memberId)
                && e == MemberEntry(t, e.memberId)
                && e.totalDue == e.membershipDuesTotal + e.trainingDuesTotal
                && e.totalDue > 0
      {
        if e !in prev {
          assert e in tail;
        }
      }
    }
  }

  /** Every member that passes the filter and has a positive total is listed,
      with its entry. */
  lemma {:induction false} ListedComplete(t: Tables, orgId: string, filter: Option<Id>, n: nat, m: Id)
    requires n <= |t.members| && m < n
    requires InReport(t, orgId, filter, m) && MemberEntry(t, m).totalDue > 0
    ensures MemberEntry(t, m) in Listed(t, orgId, filter, n)
  {
    if m == n - 1 {
      assert Row(t, orgId, filter, m) == [MemberEntry(t, m)];
    } else {
      ListedComplete(t, orgId, filter, n - 1, m);
    }
  }

  /** A member's total is positive exactly when it owes on some membership or training. */
  lemma EntryPositiveIffOwes(t: Tables, m: Id)
    requires m < |t.members|
    ensures MemberEntry(t, m).totalDue > 0
            <==> exists i :: Owes(t, Membership, m, i) || Owes(t, Training, m, i)
  {
    SubTotalPositive(t, Membership, m, |t.memberships|);
    SubTotalPositive(t, Training, m, |t.trainings|);
  }

  /** The listed members are exactly those that pass the filter and owe on
      some membership or training, each listed with its own entry. */
  lemma ListedIffOwes(t: Tables, orgId: string, filter: Option<Id>, m: Id)
    requires m < |t.members|
    ensures (exists e :: e in Listed(t, orgId, filter, |t.members|) && e.memberId == m)
            <==> InReport(t, orgId, filter, m) && exists i :: Owes(t, Membership, m, i) || Owes(t, Training, m, i)
  {
    var all := Listed(t, orgId, filter, |t.members|);
    ListedSound(t, orgId, filter, |t.members|);
    EntryPositiveIffOwes(t, m);
    if InReport(t, orgId, filter, m) && MemberEntry(t, m).totalDue > 0 {
      ListedComplete(t, orgId, filter, |t.members|, m);
    }
  }

  /** One turn of the inner loops of `getMembersWithDues`: the subscription
      at row `i`, its paid total from the payments linked to it, and, when it
      belongs to the member and its due is positive, its entry and that due. */
  method CollectDue(t: Tables, kind: Kind, m: Id, i: nat) returns (entry: seq<SubDue>, due: int)
    requires i < |t.Table(kind)|
    ensures entry == DueEntry(t, kind, m, i)
    ensures due == OwedAt(t, kind, m, i)
  {
    var s := t.Table(kind)[i];
    var paid := PaidSum(t.payments, LinkTo(kind, i));
    due := if s.finalPrice - paid > 0 then s.finalPrice - paid else 0;
    entry := [];
    if s.memberId == m && due > 0 {
      entry := [SubDue(i, PlanName(t, s.planVariantId), VariantName(t, s.planVariantId), s.finalPrice, paid, due,
                       s.status, s.endDate)];
    } else {
      due := 0;
    }
  }

  /** The inner loops of `getMembersWithDues`: one pass over a subscription
      table, accumulating the member's due entries and their total. */
  method CollectSubDues(t: Tables, kind: Kind, m: Id) returns (total: int, dues: seq<SubDue>)
    ensures dues == SubDues(t, kind, m, |t.Table(kind)|)
    ensures total == SubTotal(t, kind, m, |t.Table(kind)|)
  {
    total, dues := 0, [];
    var i := 0;
    while i < |t.Table(kind)|
      invariant 0 <= i <= |t.Table(kind)|
      invariant dues == SubDues(t, kind, m, i)
      invariant total == SubTotal(t, kind, m, i)
    {
      var entry, due := CollectDue(t, kind, m, i);
      total := total + due;
      dues := dues + entry;
      i := i + 1;
    }
  }

  /** One turn of the outer loop of `getMembersWithDues`: the member's row,
      built from the two inner loops. */
  method CollectRow(t: Tables, orgId: string, filter: Option<Id>, k: Id) returns (add: seq<MemberDue>)
    requires k < |t.members|
    ensures add == Row(t, orgId, filter, k)
  {
    add := [];
    if InReport(t, orgId, filter, k) {
      var msTotal, ms := CollectSubDues(t, Membership, k);
      var trTotal, tr := CollectSubDues(t, Training, k);
      var member := t.members[k];
      var entry := MemberDue(k, member.firstName, member.lastName, member.phone, member.email,
                             member.isActive, msTotal + trTotal, msTotal, trTotal, ms, tr);
      assert entry == MemberEntry(t, k);
      if entry.totalDue > 0 {
        add := [entry];
      }
    }
  }

  /** The outer loop of `getMembersWithDues`. */
  method CollectDues(t: Tables, orgId: string, filter: Option<Id>) returns (list: seq<MemberDue>)
    ensures list == Listed(t, orgId, filter, |t.members|)
  {
    list := [];
    var k := 0;
    while k < |t.members|
      invariant 0 <= k <= |t.members|
      invariant list == Listed(t, orgId, filter, k)
    {
      var add := CollectRow(t, orgId, filter, k);
      list := list + add;
      k := k + 1;
    }
  }

  // Sort by totalDue, highest first

  predicate SortedDesc(s: seq<MemberDue>) {
    forall i, j :: 0 <= i < j < |s| ==> s[i].totalDue >= s[j].totalDue
  }

  /** Inserts after every entry with at least the same total, which keeps
      equal totals in their original order. */
  function InsertDesc(x: MemberDue, s: seq<MemberDue>): (r: seq<MemberDue>)
    ensures |r| == |s| + 1
  {
    if s == [] then [x]
    else if x.totalDue > s[0].totalDue then [x] + s
    else [s[0]] + InsertDesc(x, s[1..])
  }

  /** Inserting adds exactly the one entry. */
  lemma {:induction false} InsertDescPerm(x: MemberDue, s: seq<MemberDue>)
    ensures multiset(InsertDesc(x, s)) == multiset(s) + multiset{x}
  {
    if s != [] {
      assert s == [s[0]] + s[1..];
      if x.totalDue <= s[0].totalDue {
        InsertDescPerm(x, s[1..]);
      }
    }
  }

  /** No entry of `s` has a total above `b`. */
  predicate AllAtMost(s: seq<MemberDue>, b: int) {
    forall i :: 0 <= i < |s| ==> s[i].totalDue <= b
  }

  lemma {:induction false} InsertDescAtMost(x: MemberDue, s: seq<MemberDue>, b: int)
    requires AllAtMost(s, b) && x.totalDue <= b
    ensures AllAtMost(InsertDesc(x, s), b)
  {
    if s != [] && x.totalDue <= s[0].totalDue {
      InsertDescAtMost(x, s[1..], b);
      var r := InsertDesc(x, s[1..]);
      var w := [s[0]] + r;
      forall i | 0 <= i < |w| ensures w[i].totalDue <= b {
        if i > 0 {
          assert w[i] == r[i - 1];
        }
      }
    }
  }

  /** Inserting into a sorted sequence keeps it sorted. */
  lemma {:induction false} InsertDescSorted(x: MemberDue, s: seq<MemberDue>)
    requires SortedDesc(s)
    ensures SortedDesc(InsertDesc(x, s))
  {
    if s != [] && x.totalDue <= s[0].totalDue {
      var rest := s[1..];
      InsertDescSorted(x, rest);
      assert AllAtMost(rest, s[0].totalDue) by {
        forall i | 0 <= i < |rest| ensures rest[i].totalDue <= s[0].totalDue {
          assert rest[i] == s[i + 1];
        }
      }
      InsertDescAtMost(x, rest, s[0].totalDue);
      var r := InsertDesc(x, rest);
      var w := [s[0]] + r;
      forall i, j | 0 <= i < j < |w|
        ensures w[i].totalDue >= w[j].totalDue
      {
        assert w[j] == r[j - 1];
        if i > 0 {
          assert w[i] == r[i - 1];
        }
      }
    }
  }

  /** `Array.prototype.sort((a, b) => b.totalDue - a.totalDue)`. */
  function SortDesc(s: seq<MemberDue>): (r: seq<MemberDue>)
    ensures |r| == |s|
  {
    if s == [] then [] else InsertDesc(s[|s| - 1], SortDesc(s[..|s| - 1]))
  }

  /** Sorting is a permutation. */
  lemma {:induction false} SortDescPerm(s: seq<MemberDue>)
    ensures multiset(SortDesc(s)) == multiset(s)
  {
    if s != [] {
      var init, last := s[..|s| - 1], s[|s| - 1];
      var sorted := SortDesc(init);
      assert SortDesc(s) == InsertDesc(last, sorted);
      SortDescPerm(init);
      InsertDescPerm(last, sorted);
      MultisetSnoc(s);
    }
  }

  lemma MultisetSnoc<T>(s: seq<T>)
    requires s != []
    ensures multiset(s) == multiset(s[..|s| - 1]) + multiset{s[|s| - 1]}
  {
    assert s == s[..|s| - 1] + [s[|s| - 1]];
  }

  lemma {:induction false} SortDescSorted(s: seq<MemberDue>)
    ensures SortedDesc(SortDesc(s))
  {
    if s != [] {
      SortDescSorted(s[..|s| - 1]);
      InsertDescSorted(s[|s| - 1], SortDesc(s[..|s| - 1]));
    }
  }

  /** `reduce((sum, m) => sum + m.totalDue, 0)`. */
  function TotalOf(s: seq<MemberDue>): int {
    if s == [] then 0 else s[0].totalDue + TotalOf(s[1..])
  }

  lemma {:induction false} TotalOfSnoc(s: seq<MemberDue>, x: MemberDue)
    ensures TotalOf(s + [x]) == TotalOf(s) + x.totalDue
  {
    if s != [] {
      assert (s + [x])[1..] == s[1..] + [x];
      TotalOfSnoc(s[1..], x);
    }
  }

  lemma {:induction false} TotalOfInsert(x: MemberDue, s: seq<MemberDue>)
    ensures TotalOf(InsertDesc(x, s)) == x.totalDue + TotalOf(s)
  {
    if s != [] && x.totalDue <= s[0].totalDue {
      TotalOfInsert(x, s[1..]);
      assert ([s[0]] + InsertDesc(x, s[1..]))[1..] == InsertDesc(x, s[1..]);
    }
  }

  /** Sorting changes no total. */
  lemma {:induction false} TotalOfSort(s: seq<MemberDue>)
    ensures TotalOf(SortDesc(s)) == TotalOf(s)
  {
    if s != [] {
      var init, last := s[..|s| - 1], s[|s| - 1];
      assert SortDesc(s) == InsertDesc(last, SortDesc(init));
      TotalOfSort(init);
      TotalOfInsert(last, SortDesc(init));
      TotalOfSnoc(init, last);
      assert init + [last] == s;
    }
  }

  datatype DuesReport = DuesReport(
    data: seq<MemberDue>,
    totalMembersWithDues: int,
    grandTotal: int,
    pagination: Page)

  /** `getMembersWithDues`: the listed members sorted by total due, one page of
      them, and a summary over all of them, not just the page. The page is an
      `Array.prototype.slice`, so a negative offset or end (from a page
      before the first or a negative limit) counts from the end of the list. */
  method GetMembersWithDues(t: Tables, orgId: string, page: int, limit: int, filter: Option<Id>)
    returns (r: DuesReport)
    requires limit != 0
    ensures var all := Listed(t, orgId, filter, |t.members|);
            && r.data == PageOf(SortDesc(all), page, limit)
            && r.totalMembersWithDues == |all|
            && r.grandTotal == TotalOf(all)
            && r.pagination == Paginate(page, limit, |all|)
    ensures SortedDesc(r.data)
  {
    var list := CollectDues(t, orgId, filter);
    var sorted := SortDesc(list);
    SortDescSorted(list);
    TotalOfSort(list);
    var skip := Offset(page, limit);
    r := DuesReport(JsSlice(sorted, skip, skip + limit), |sorted|, TotalOf(sorted), Paginate(page, limit, |sorted|));
    PageSorted(sorted, page, limit);
  }

  lemma PageSorted(s: seq<MemberDue>, page: int, limit: int)
    requires SortedDesc(s)
    ensures SortedDesc(PageOf(s, page, limit))
  {
    var w := PageOf(s, page, limit);
    var a := SliceIndex(Offset(page, limit), |s|);
    forall i, j | 0 <= i < j < |w| ensures w[i].totalDue >= w[j].totalDue {
      assert w[i] == s[a + i] && w[j] == s[a + j];
    }
  }
}
