/**
 * Puzzle-solve notices (src/tasks/solve_notifications.rs): every ten seconds
 * the task compares the year's leaderboard with the one it saw last and
 * announces the parts solved since, with each solver's rank on that part.
 */
module SolveNotifications {
  import opened Wrappers
  import opened Day
  import opened Models
  import opened Sorting
  import opened Client
  import opened Chat

  /** `Notification`; `key` is the member's key in the leaderboard. */
  datatype Notification = Notification(key: string, member: Member, part2: bool, day: AocDay, ts: int, rank: nat)

  /** How many members solved the part of `day` no later than `ts`: the rank of a star earned at `ts`. */
  function RankAmong(members: map<string, Member>, day: nat, part2: bool, ts: int): nat {
    |set k | k in members && PartTs(members[k], day, part2).Some? && PartTs(members[k], day, part2).value <= ts|
  }

  /**
   * The member under `k`, present in both leaderboards, solved the part of
   * `day` since the earlier one: part 1 when the earlier member had not started the
   * day, part 2 when it had no day or no part 2 there.
   */
  predicate NewlySolved(before: map<string, Member>, after: map<string, Member>, k: string, day: nat, part2: bool) {
    && k in before && k in after && day in after[k].completionDayLevel
    && (if !part2 then day !in before[k].completionDayLevel
        else (after[k].completionDayLevel[day].snd.Some?
              && (day !in before[k].completionDayLevel || before[k].completionDayLevel[day].snd.None?)))
  }

  /** The notice for a newly solved part. */
  function NoticeFor(after: map<string, Member>, year: int, k: string, day: nat, part2: bool): (n: Notification)
    requires k in after && PartTs(after[k], day, part2).Some?
  {
    var ts := PartTs(after[k], day, part2).value;
    Notification(k, after[k], part2, AocDay(year, day), ts, RankAmong(after, day, part2, ts))
  }

  /** A notice the comparison of the two leaderboards produces (before the age filter). */
  predicate IsCandidate(before: map<string, Member>, after: map<string, Member>, year: int, n: Notification) {
    && n.day.year == year && n.day.day >= 0
    && NewlySolved(before, after, n.key, n.day.day, n.part2)
    && n == NoticeFor(after, year, n.key, n.day.day, n.part2)
  }

  /** `now <= ts + 24 h`: a star at most a day old. */
  predicate Recent(n: Notification, now: int) {
    now <= n.ts + 24 * 3600
  }

  function TsLe(): (le: (Notification, Notification) -> bool)
    ensures forall a, b :: le(a, b) == (a.ts <= b.ts)
  {
    (a: Notification, b: Notification) => a.ts <= b.ts
  }

  /**
   * What is sent: each candidate at most a day old, once, and nothing else,
   * in order of the star's instant.
   */
  ghost predicate IsNoticeList(ns: seq<Notification>, before: map<string, Member>, after: map<string, Member>, year: int, now: int) {
    && (forall n :: n in ns ==> IsCandidate(before, after, year, n) && Recent(n, now))
    && (forall n :: IsCandidate(before, after, year, n) && Recent(n, now) ==> n in ns)
    && Distinct(ns)
    && SortedBy(ns, TsLe())
  }

  /** A notice ranks its solver among those who solved the part no later: at least 1, at most every member. */
  lemma RankBounds(before: map<string, Member>, after: map<string, Member>, year: int, n: Notification)
    requires IsCandidate(before, after, year, n)
    ensures 1 <= n.rank <= |after|
  {
    var day: nat := n.day.day;
    var counted := set k | k in after && PartTs(after[k], day, n.part2).Some? && PartTs(after[k], day, n.part2).value <= n.ts;
    assert n.key in counted;
    assert counted <= after.Keys;
    assert |counted| <= |after.Keys| by {
      SubsetCardinality(counted, after.Keys);
    }
  }

  lemma SubsetCardinality<T>(a: set<T>, b: set<T>)
    requires a <= b
    ensures |a| <= |b|
  {
    assert b == a + (b - a);
  }

  /** Without a baseline there is nothing to announce. */
  lemma NoBaselineNoNotices(ns: seq<Notification>, after: map<string, Member>, year: int, now: int)
    requires IsNoticeList(ns, map[], after, year, now)
    ensures ns == []
  {
    FirstIsElement(ns);
  }

  lemma FirstIsElement<T>(s: seq<T>)
    ensures s != [] ==> s[0] in s
  {
  }

  /** The notices of one member present in both leaderboards (the inner loop over its days). */
  method MemberNotices(before: map<string, Member>, after: map<string, Member>, year: int, k: string)
    returns (found: seq<Notification>)
    requires k in before && k in after
    ensures forall n :: n in found ==> IsCandidate(before, after, year, n) && n.key == k
    ensures forall n :: IsCandidate(before, after, year, n) && n.key == k ==> n in found
    ensures Distinct(found)
  {
    found := [];
    var days := after[k].completionDayLevel.Keys;
    while days != {}
      invariant days <= after[k].completionDayLevel.Keys
      invariant forall n :: n in found ==>
        IsCandidate(before, after, year, n) && n.key == k && n.day.day as nat !in days
      invariant forall n :: IsCandidate(before, after, year, n) && n.key == k && n.day.day as nat !in days ==> n in found
      invariant Distinct(found)
      decreases |days|
    {
      var day :| day in days;
      days := days - {day};
      var completion := after[k].completionDayLevel[day];
      var oldCompletion: Option<CompletionDay> :=
        if day in before[k].completionDayLevel then Some(before[k].completionDayLevel[day]) else None;
      if oldCompletion.None? {
        found := found + [NoticeFor(after, year, k, day, false)];
      }
      if completion.snd.Some? && (oldCompletion.None? || oldCompletion.value.snd.None?) {
        found := found + [NoticeFor(after, year, k, day, true)];
      }
    }
  }

  /** `retain(|n| now <= n.ts + 24 h)` */
  method RetainRecent(all: seq<Notification>, now: int) returns (kept: seq<Notification>)
    ensures forall n :: n in kept <==> n in all && Recent(n, now)
    ensures Distinct(all) ==> Distinct(kept)
  {
    kept := [];
    var i := 0;
    while i < |all|
      invariant 0 <= i <= |all|
      invariant forall n :: n in kept <==> n in all[..i] && Recent(n, now)
      invariant Distinct(all) ==> Distinct(kept)
    {
      if Recent(all[i], now) {
        assert Distinct(all) ==> all[i] !in all[..i];
        kept := kept + [all[i]];
      }
      assert all[..i + 1] == all[..i] + [all[i]];
      i := i + 1;
    }
    assert all[..i] == all;
  }

  /**
   * The computation of `send_notifications` up to the sending: compare the
   * leaderboards member by member and day by day, drop notices older than a
   * day, sort by the star's instant.
   */
  method Notices(before: map<string, Member>, after: map<string, Member>, year: int, now: int)
    returns (ns: seq<Notification>)
    ensures IsNoticeList(ns, before, after, year, now)
  {
    var all: seq<Notification> := [];
    var keys := after.Keys;
    while keys != {}
      invariant keys <= after.Keys
      invariant forall n :: n in all ==> IsCandidate(before, after, year, n) && n.key !in keys
      invariant forall n :: IsCandidate(before, after, year, n) && n.key !in keys ==> n in all
      invariant Distinct(all)
      decreases |keys|
    {
      var k :| k in keys;
      keys := keys - {k};
      if k in before {
        var found := MemberNotices(before, after, year, k);
        all := all + found;
      }
    }
    var kept := RetainRecent(all, now);
    ns := SortBy(kept, TsLe());
    assert TotalPreorder(TsLe());
    SortBySorted(kept, TsLe());
    SortByKeepsDistinct(kept, TsLe());
    forall n
      ensures n in ns <==> n in kept
    {
      assert n in ns <==> n in multiset(ns);
    }
  }

  /** Why a tick of a background task failed. */
  datatype TaskError = LookupFailed(cause: Error) | SendFailed

  /** The state the solve-notice task keeps between ticks: the year it watches and the last leaderboard seen. */
  class SolveWatcher {
    var year: int
    var baseline: Option<Leaderboard>

    /** `start`: watch the most recent event's year, starting from the cached leaderboard if any. */
    constructor(now: int, client: AocClient)
      ensures year == MostRecent(now).year
      ensures baseline == if year in client.cache then Some(client.cache[year].leaderboard) else None
    {
      var y := MostRecent(now).year;
      var cached := client.GetPrivateLeaderboardCached(y);
      year := y;
      baseline := if cached.Some? then Some(cached.value.leaderboard) else None;
    }

    /**
     * `trigger`: on a change of event year the baseline is dropped; the
     * year's leaderboard is looked up and the notices sent, and only when
     * both succeeded does the new leaderboard become the baseline. A failed
     * send leaves the notices before it posted, and they are computed again
     * on the next tick.
     */
    method Trigger(client: AocClient, room: Room<Notification>, now: int, raced: Option<CacheEntry>)
      returns (r: Result<(), TaskError>, ns: seq<Notification>)
      modifies this, client, client.api, client.store, room
      ensures year == MostRecent(now).year
      ensures client.store.writable == old(client.store.writable)
      ensures var base := if old(year) == year then old(baseline) else None;
        var oldMembers := if base.Some? then base.value.members else map[];
        var o := client.Outcome(old(client.cache), old(client.store.saved), year, now, false, raced);
        && client.Reflects(o, year, old(client.api.requests))
        && (o.result.Err? ==>
              && r == Err(LookupFailed(o.result.error)) && ns == [] && baseline == base
              && room.sent == old(room.sent) && room.outcomes == old(room.outcomes))
        && (o.result.Ok? ==>
              var k := Delivered(old(room.outcomes), |ns|);
              && IsNoticeList(ns, oldMembers, o.result.value.leaderboard.members, year, now)
              && room.sent == old(room.sent) + ns[..k]
              && room.outcomes == Remaining(old(room.outcomes), |ns|)
              && (k == |ns| ==> r == Ok(()) && baseline == Some(o.result.value.leaderboard))
              && (k < |ns| ==> r == Err(SendFailed) && baseline == base))
    {
      var current := MostRecent(now).year;
      if current != year {
        baseline := None;
        year := current;
      }
      var got := client.GetPrivateLeaderboard(year, now, false, raced);
      if got.Err? {
        return Err(LookupFailed(got.error)), [];
      }
      var oldMembers := if baseline.Some? then baseline.value.members else map[];
      ns := Notices(oldMembers, got.value.leaderboard.members, year, now);
      var ok := SendAll(room, ns);
      if !ok {
        return Err(SendFailed), ns;
      }
      baseline := Some(got.value.leaderboard);
      r := Ok(());
    }
  }
}
