/** The reports service: the expiry run, inactive candidates and the daily
    activity snapshot. */
module ReportsService {
  import opened Common
  import opened GymStore
  import opened Pagination
  import opened ReportsRepository
  import PrismaDelegate

  datatype ExpireCounts = ExpireCounts(expiredMemberships: nat, expiredTrainings: nat, deactivatedMembers: nat)

  /** The tables once both kinds of stale subscription are expired. */
  function AfterExpiry(t: Tables, orgId: string, now: int): (r: Tables)
    ensures r.members == t.members && r.payments == t.payments
    ensures r.memberships == ExpireAll(t.memberships, orgId, now)
    ensures r.trainings == ExpireAll(t.trainings, orgId, now)
  {
    t.(memberships := ExpireAll(t.memberships, orgId, now), trainings := ExpireAll(t.trainings, orgId, now))
  }

  /** The tables after a whole `expireSubscriptions` run. */
  function AfterRun(t: Tables, orgId: string, now: int): Tables {
    var e := AfterExpiry(t, orgId, now);
    e.(members := Deactivated(e.members, MembersWithNoActiveSubs(e, orgId)))
  }

  /** The number of members a run deactivates: the idle ones after expiry. */
  function IdleCount(t: Tables, orgId: string): nat {
    |set m: nat | m < |t.members| && Idle(t, orgId, m)|
  }

  /** `expireSubscriptions`: expire both kinds, then deactivate the org's
      members that are left with no active subscription. */
  method ExpireSubscriptions(db: Db, orgId: string, now: int) returns (r: ExpireCounts)
    modifies db`memberships, db`trainings, db`members
    ensures db.View() == AfterRun(old(db.View()), orgId, now)
    ensures r.expiredMemberships == StaleCount(old(db.memberships), orgId, now)
    ensures r.expiredTrainings == StaleCount(old(db.trainings), orgId, now)
    ensures r.deactivatedMembers == IdleCount(AfterExpiry(old(db.View()), orgId, now), orgId)
  {
    ghost var t := db.View();
    var em := ExpireStale(db, Membership, orgId, now);
    var et := ExpireStale(db, Training, orgId, now);
    assert db.View() == AfterExpiry(t, orgId, now);
    var ids := MembersWithNoActiveSubs(db.View(), orgId);
    assert (set i: nat | i < |db.members| && i in ids) == (set m: nat | m < |db.members| && Idle(db.View(), orgId, m));
    var dm := DeactivateMembers(db, ids);
    r := ExpireCounts(em, et, dm);
  }

  /** After a run, every member of the org that is still active has an active
      membership or an active training. */
  lemma ActiveMembersHaveActiveSubs(t: Tables, orgId: string, now: int, m: Id)
    requires m < |AfterRun(t, orgId, now).members|
    requires AfterRun(t, orgId, now).members[m].orgId == orgId && AfterRun(t, orgId, now).members[m].isActive
    ensures HasActive(AfterRun(t, orgId, now).memberships, m) || HasActive(AfterRun(t, orgId, now).trainings, m)
  {
    var e := AfterExpiry(t, orgId, now);
    var ids := MembersWithNoActiveSubs(e, orgId);
    assert m !in ids;
    assert e.members[m] == AfterRun(t, orgId, now).members[m];
    assert !Idle(e, orgId, m);
  }

  /** A run is idempotent: a second run at the same time changes nothing and
      reports zero for all three counts. */
  lemma SecondRunIsNoop(t: Tables, orgId: string, now: int)
    ensures var a := AfterRun(t, orgId, now);
            && StaleCount(a.memberships, orgId, now) == 0
            && StaleCount(a.trainings, orgId, now) == 0
            && IdleCount(AfterExpiry(a, orgId, now), orgId) == 0
            && AfterRun(a, orgId, now) == a
  {
    var a := AfterRun(t, orgId, now);
    ExpireIdempotent(t.memberships, orgId, now);
    ExpireIdempotent(t.trainings, orgId, now);
    assert AfterExpiry(a, orgId, now) == a;
    forall m: Id | m < |a.members| ensures !Idle(a, orgId, m) {
      if Idle(a, orgId, m) {
        ActiveMembersHaveActiveSubs(t, orgId, now, m);
      }
    }
    assert (set m: nat | m < |a.members| && Idle(a, orgId, m)) == {};
    assert Deactivated(a.members, []) == a.members;
  }

  // ---------------------------------------------------------------------
  // Inactive candidates

  /** The later of the two latest end dates, whichever exists, or none. On a
      tie the training's date is taken, which is the same date. */
  function LastSubscriptionEnd(membershipEnd: Option<int>, trainingEnd: Option<int>): (r: Option<int>)
    ensures r.None? <==> membershipEnd.None? && trainingEnd.None?
    ensures r.Some? ==> r == membershipEnd || r == trainingEnd
    ensures membershipEnd.Some? ==> r.Some? && membershipEnd.value <= r.value
    ensures trainingEnd.Some? ==> r.Some? && trainingEnd.value <= r.value
  {
    if membershipEnd.Some? && trainingEnd.Some? then
      (if membershipEnd.value > trainingEnd.value then membershipEnd else trainingEnd)
    else if membershipEnd.Some? then membershipEnd
    else trainingEnd
  }

  /** One row of `getInactiveCandidates`. */
  datatype CandidateView = CandidateView(memberId: Id, lastSubscriptionEnd: Option<int>,
                                         latestMembershipEnd: Option<int>, latestTrainingEnd: Option<int>)

  datatype CandidatesResult = CandidatesResult(members: seq<CandidateView>, pagination: Page)

  function ViewOf(c: Candidate): CandidateView {
    CandidateView(c.memberId, LastSubscriptionEnd(c.latestMembershipEnd, c.latestTrainingEnd),
                  c.latestMembershipEnd, c.latestTrainingEnd)
  }

  /** The views of `rows`, in that order. */
  function Views(rows: seq<Candidate>): (r: seq<CandidateView>)
    ensures |r| == |rows| && forall k :: 0 <= k < |rows| ==> r[k] == ViewOf(rows[k])
  {
    seq(|rows|, k requires 0 <= k < |rows| => ViewOf(rows[k]))
  }

  /** `d` is the latest end date over all the member's memberships and
      trainings, or none when the member has neither. */
  predicate LatestOverall(t: Tables, m: Id, d: Option<int>) {
    && (d.None? <==> (forall i :: 0 <= i < |t.memberships| ==> t.memberships[i].memberId != m)
                     && (forall i :: 0 <= i < |t.trainings| ==> t.trainings[i].memberId != m))
    && (d.Some? ==> && (forall i :: 0 <= i < |t.memberships| && t.memberships[i].memberId == m
                                    ==> t.memberships[i].endDate <= d.value)
                    && (forall i :: 0 <= i < |t.trainings| && t.trainings[i].memberId == m
                                    ==> t.trainings[i].endDate <= d.value))
  }

  /** A candidate's last subscription end is the latest end over both kinds. */
  lemma CandidateLatest(t: Tables, m: Id)
    ensures LatestOverall(t, m, ViewOf(CandidateOf(t, m)).lastSubscriptionEnd)
  {
  }

  /** `getInactiveCandidates`: each row carries the end of the member's latest
      subscription of either kind; a window the repository's query refuses
      is passed on. */
  function GetInactiveCandidates(t: Tables, orgId: string, page: int, limit: int): (r: Result<CandidatesResult>)
    requires limit != 0
    ensures r.Fail? <==> Offset(page, limit) < 0
    ensures r.Fail? <==> (limit > 0 && page < 1) || (limit < 0 && page > 1)
    ensures r.Fail? ==> r.error == PrismaDelegate.InvalidInvocation("member", "findMany")
    ensures r.Ok? ==>
              var window := FindManyWindow(MembersWithNoActiveSubs(t, orgId), Offset(page, limit), limit);
              && r.value.pagination == Paginate(page, limit, |MembersWithNoActiveSubs(t, orgId)|)
              && |r.value.members| == |window|
              && forall k :: 0 <= k < |window| ==> r.value.members[k] == ViewOf(CandidateOf(t, window[k]))
    ensures r.Ok? ==> forall k :: 0 <= k < |r.value.members| ==> Idle(t, orgId, r.value.members[k].memberId)
    ensures r.Ok? ==> forall k :: 0 <= k < |r.value.members| ==>
                        LatestOverall(t, r.value.members[k].memberId, r.value.members[k].lastSubscriptionEnd)
    ensures page >= 1 && limit > 0 ==>
              var window := PageOf(MembersWithNoActiveSubs(t, orgId), page, limit);
              && r.Ok?
              && |r.value.members| == |window| <= limit
              && forall k :: 0 <= k < |window| ==> r.value.members[k] == ViewOf(CandidateOf(t, window[k]))
  {
    var p :- FindInactiveCandidates(t, orgId, page, limit);
    var rows := Views(p.data);
    assert forall k :: 0 <= k < |rows| ==>
             Idle(t, orgId, rows[k].memberId) && LatestOverall(t, rows[k].memberId, rows[k].lastSubscriptionEnd) by {
      forall k | 0 <= k < |rows|
        ensures Idle(t, orgId, rows[k].memberId) && LatestOverall(t, rows[k].memberId, rows[k].lastSubscriptionEnd)
      {
        assert rows[k] == ViewOf(CandidateOf(t, p.data[k].memberId));
        CandidateLatest(t, p.data[k].memberId);
      }
    }
    Ok(CandidatesResult(rows, p.pagination))
  }

  // ---------------------------------------------------------------------
  // Daily snapshot

  /** What `getMemberCounts` returns; that query is not part of this model
      and is taken as an input. */
  datatype MemberCounts = MemberCounts(total: int, active: int, inactive: int)

  /** `setHours(0, 0, 0, 0)`: the start of the day holding `now`. */
  function DayStart(now: int): (r: int)
    ensures r % DayMs == 0
    ensures r <= now < r + DayMs
  {
    now - now % DayMs
  }

  /** The day start is the only multiple of a day within a day of `now`, so two
      snapshots taken on the same day share their key. */
  lemma DayStartUnique(now: int, d: int)
    requires d % DayMs == 0 && d <= now < d + DayMs
    ensures d == DayStart(now)
  {
    var s := DayStart(now);
    assert d == (d / DayMs) * DayMs && s == (s / DayMs) * DayMs;
    assert -DayMs < s - d < DayMs;
    assert (s / DayMs - d / DayMs) * DayMs == s - d;
  }

  /** `takeActivitySnapshot`: the counts, the newly expired total (each part
      defaulting to 0), upserted under (org, day start). */
  method TakeActivitySnapshot(db: Db, orgId: string, expiredMemberships: Option<int>, expiredTrainings: Option<int>,
                              counts: MemberCounts, now: int) returns (s: Snapshot)
    modifies db`snapshots
    ensures s.totalMembers == counts.total && s.activeMembers == counts.active && s.inactiveMembers == counts.inactive
    ensures s.newlyExpired == Default(expiredMemberships, 0) + Default(expiredTrainings, 0)
    ensures db.snapshots == old(db.snapshots)[(orgId, DayStart(now)) := s]
  {
    s := Snapshot(counts.total, counts.active, counts.inactive,
                  Default(expiredMemberships, 0) + Default(expiredTrainings, 0));
    db.snapshots := db.snapshots[(orgId, DayStart(now)) := s];
  }
}
