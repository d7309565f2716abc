/**
 * Membership notices (src/tasks/join_leave_notifications.rs): every ten
 * seconds the task compares the member keys of the year's leaderboard with
 * the ones it saw last and announces who joined and who left.
 */
module JoinLeaveNotifications {
  import opened Wrappers
  import opened Day
  import opened Models
  import opened Sorting
  import opened Client
  import opened Chat
  import opened SolveNotifications

  /** One notice: the member (under its key) and whether it joined or left. */
  datatype Change = Change(key: string, member: Member, joined: bool)

  /**
   * What is sent: nothing for an empty baseline; otherwise one "joined" per
   * key only in the new map and one "left" per key only in the old map, every
   * "joined" before every "left".
   */
  ghost predicate IsChangeList(cs: seq<Change>, before: map<string, Member>, after: map<string, Member>) {
    && (before == map[] ==> cs == [])
    && (before != map[] ==>
          && (forall c :: c in cs && c.joined ==> c.key in after && c.key !in before && c.member == after[c.key])
          && (forall c :: c in cs && !c.joined ==> c.key in before && c.key !in after && c.member == before[c.key])
          && (forall k :: k in after && k !in before ==> Change(k, after[k], true) in cs)
          && (forall k :: k in before && k !in after ==> Change(k, before[k], false) in cs)
          && (forall i, j :: 0 <= i < j < |cs| ==> cs[i].key != cs[j].key)
          && (forall i, j :: 0 <= i < j < |cs| && cs[j].joined ==> cs[i].joined))
  }

  /**
   * One of the two loops of `send_notifications`: a notice, marked `joined`,
   * for every key of `from` that `other` lacks, each key once.
   */
  method Notices(from: map<string, Member>, other: map<string, Member>, joined: bool) returns (cs: seq<Change>)
    ensures forall c :: c in cs ==> c.joined == joined && c.key in from && c.key !in other && c.member == from[c.key]
    ensures forall k :: k in from && k !in other ==> Change(k, from[k], joined) in cs
    ensures forall i, j :: 0 <= i < j < |cs| ==> cs[i].key != cs[j].key
  {
    cs := [];
    var keys := from.Keys;
    while keys != {}
      invariant keys <= from.Keys
      invariant forall c :: c in cs ==> c.joined == joined && c.key in from && c.key !in other && c.member == from[c.key]
      invariant forall c :: c in cs ==> c.key !in keys
      invariant forall k :: k in from && k !in other && k !in keys ==> Change(k, from[k], joined) in cs
      invariant forall i, j :: 0 <= i < j < |cs| ==> cs[i].key != cs[j].key
      decreases |keys|
    {
      var k :| k in keys;
      keys := keys - {k};
      if k !in other {
        cs := cs + [Change(k, from[k], joined)];
      }
    }
  }

  /** `send_notifications` up to the sending: the joins, then the departures. */
  method Changes(before: map<string, Member>, after: map<string, Member>) returns (cs: seq<Change>)
    ensures IsChangeList(cs, before, after)
  {
    if before == map[] {
      return [];
    }
    var joins := Notices(after, before, true);
    var leaves := Notices(before, after, false);
    cs := joins + leaves;
    forall i, j | 0 <= i < j < |cs|
      ensures cs[i].key != cs[j].key
    {
      if j < |joins| {
      } else if i >= |joins| {
        assert cs[i] == leaves[i - |joins|] && cs[j] == leaves[j - |joins|];
      } else {
        assert cs[i] in joins && cs[j] in leaves;
      }
    }
    forall j | |joins| <= j < |cs|
      ensures !cs[j].joined
    {
      assert cs[j] in leaves;
    }
  }

  /** With a baseline, there are as many notices as keys in exactly one of the two maps. */
  lemma ChangeCount(cs: seq<Change>, before: map<string, Member>, after: map<string, Member>)
    requires IsChangeList(cs, before, after) && before != map[]
    ensures |cs| == |after.Keys - before.Keys| + |before.Keys - after.Keys|
  {
    ChangeKeys(cs, before, after);
    DisjointUnion(after.Keys - before.Keys, before.Keys - after.Keys);
    KeysCardinality(cs);
  }

  /** The keys noticed are exactly the keys in one map but not the other. */
  lemma ChangeKeys(cs: seq<Change>, before: map<string, Member>, after: map<string, Member>)
    requires IsChangeList(cs, before, after) && before != map[]
    ensures (set c | c in cs :: c.key) == (after.Keys - before.Keys) + (before.Keys - after.Keys)
  {
    var keys := set c | c in cs :: c.key;
    forall k | k in after.Keys - before.Keys
      ensures k in keys
    {
      assert Change(k, after[k], true) in cs;
    }
    forall k | k in before.Keys - after.Keys
      ensures k in keys
    {
      assert Change(k, before[k], false) in cs;
    }
  }

  lemma DisjointUnion(a: set<string>, b: set<string>)
    requires a * b == {}
    ensures |a + b| == |a| + |b|
  {
  }

  /** Notices for distinct keys name as many keys as there are notices. */
  lemma KeysCardinality(cs: seq<Change>)
    requires forall i, j :: 0 <= i < j < |cs| ==> cs[i].key != cs[j].key
    ensures |set c | c in cs :: c.key| == |cs|
  {
    var ks := seq(|cs|, i requires 0 <= i < |cs| => cs[i].key);
    DistinctCardinality(ks);
    var named := set c | c in cs :: c.key;
    forall k | k in named
      ensures k in ks
    {
      var c :| c in cs && c.key == k;
      var i :| 0 <= i < |cs| && cs[i] == c;
      assert ks[i] == k;
    }
    forall k | k in ks
      ensures k in named
    {
      var i :| 0 <= i < |ks| && ks[i] == k;
      assert cs[i] in cs;
    }
    assert named == set x | x in ks;
  }

  /** The state the membership task keeps between ticks: the last leaderboard seen. */
  class JoinLeaveWatcher {
    var baseline: Option<Leaderboard>

    /** `start`: the cached leaderboard of the most recent event's year, if any. */
    constructor(now: int, client: AocClient)
      ensures var year := MostRecent(now).year;
        baseline == if year in client.cache then Some(client.cache[year].leaderboard) else None
    {
      var cached := client.GetPrivateLeaderboardCached(MostRecent(now).year);
      baseline := if cached.Some? then Some(cached.value.leaderboard) else None;
    }

    /**
     * `trigger`: the year is read afresh every tick and the baseline is kept
     * across a change of year; the new leaderboard becomes the baseline only
     * when the lookup and the sending succeeded. A failed send leaves the
     * notices before it posted.
     */
    method Trigger(client: AocClient, room: Room<Change>, now: int, raced: Option<CacheEntry>)
      returns (r: Result<(), TaskError>, cs: seq<Change>)
      modifies this, client, client.api, client.store, room
      ensures client.store.writable == old(client.store.writable)
      ensures var year := MostRecent(now).year;
        var oldMembers := if old(baseline).Some? then old(baseline).value.members else map[];
        var o := client.Outcome(old(client.cache), old(client.store.saved), year, now, false, raced);
        && client.Reflects(o, year, old(client.api.requests))
        && (o.result.Err? ==>
              && r == Err(LookupFailed(o.result.error)) && cs == [] && baseline == old(baseline)
              && room.sent == old(room.sent) && room.outcomes == old(room.outcomes))
        && (o.result.Ok? ==>
              var k := Delivered(old(room.outcomes), |cs|);
              && IsChangeList(cs, oldMembers, o.result.value.leaderboard.members)
              && room.sent == old(room.sent) + cs[..k]
              && room.outcomes == Remaining(old(room.outcomes), |cs|)
              && (k == |cs| ==> r == Ok(()) && baseline == Some(o.result.value.leaderboard))
              && (k < |cs| ==> r == Err(SendFailed) && baseline == old(baseline)))
    {
      var year := MostRecent(now).year;
      var got := client.GetPrivateLeaderboard(year, now, false, raced);
      if got.Err? {
        return Err(LookupFailed(got.error)), [];
      }
      var oldMembers := if baseline.Some? then baseline.value.members else map[];
      cs := Changes(oldMembers, got.value.leaderboard.members);
      var ok := SendAll(room, cs);
      if !ok {
        return Err(SendFailed), cs;
      }
      baseline := Some(got.value.leaderboard);
      r := Ok(());
    }
  }
}
