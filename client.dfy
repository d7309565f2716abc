/**
 * The leaderboard client (src/aoc/client.rs): a per-year cache of private
 * leaderboards with a time-to-live that depends on how long ago today's
 * puzzle unlocked, persisted to a key-value store after every change, and the
 * re-scoring of a leaderboard for a single day.
 *
 * Durations and instants are whole seconds.
 */
module Client {
  import opened Wrappers
  import opened DateTime
  import opened Day
  import opened Models
  import opened Sorting

  /**
   * `cache_ttl_rules`, a `BTreeMap<i64, Duration>`: pairs (minutes since
   * unlock, ttl) in strictly increasing key order.
   */
  type TtlRules = seq<(int, nat)>

  predicate ValidRules(rules: TtlRules) {
    forall i, j :: 0 <= i < j < |rules| ==> rules[i].0 < rules[j].0
  }

  /**
   * `range((Excluded(minutes), Unbounded)).next()`: the ttl of the first
   * rule whose key is strictly greater than `minutes`.
   */
  function RuleAbove(rules: TtlRules, minutes: int): (r: Option<nat>)
    ensures r.Some? ==> exists i :: 0 <= i < |rules| && rules[i].0 > minutes && rules[i].1 == r.value
    ensures r.None? ==> forall i :: 0 <= i < |rules| ==> rules[i].0 <= minutes
  {
    if rules == [] then None
    else if rules[0].0 > minutes then Some(rules[0].1)
    else
      var r := RuleAbove(rules[1..], minutes);
      assert r.Some? ==> exists i :: 0 <= i < |rules| && rules[i].0 > minutes && rules[i].1 == r.value by {
        if r.Some? {
          var k :| 0 <= k < |rules[1..]| && rules[1..][k].0 > minutes && rules[1..][k].1 == r.value;
          assert rules[k + 1].0 > minutes;
        }
      }
      assert r.None? ==> forall i :: 0 <= i < |rules| ==> rules[i].0 <= minutes by {
        if r.None? {
          forall i | 0 <= i < |rules|
            ensures rules[i].0 <= minutes
          {
            if i > 0 {
              assert rules[i] == rules[1..][i - 1];
            }
          }
        }
      }
      r
  }

  /**
   * With keys in increasing order, the rule found is the one with the
   * smallest key strictly greater than `minutes`.
   */
  lemma {:induction false} RuleAboveIsSmallest(rules: TtlRules, minutes: int, i: int)
    requires ValidRules(rules)
    requires 0 <= i < |rules| && rules[i].0 > minutes
    requires forall j :: 0 <= j < i ==> rules[j].0 <= minutes
    ensures RuleAbove(rules, minutes) == Some(rules[i].1)
  {
    if i > 0 {
      assert rules[0].0 <= minutes;
      RuleAboveIsSmallest(rules[1..], minutes, i - 1);
    }
  }

  /** `TimeDelta::num_minutes()`: whole minutes, truncated toward zero. */
  function NumMinutes(seconds: int): (m: int)
    ensures seconds >= 0 ==> 0 <= m && m * 60 <= seconds < m * 60 + 60
    ensures seconds < 0 ==> m <= 0 && m * 60 - 60 < seconds <= m * 60
  {
    if seconds >= 0 then seconds / 60 else -((-seconds) / 60)
  }

  /**
   * The ttl of a leaderboard fetched at `now`: while a puzzle is current,
   * chosen by the minutes since it unlocked, else the default.
   */
  function CacheTtl(now: int, rules: TtlRules, defaultTtl: nat): nat {
    match Current(now)
    case Some(day) =>
      CurrentIsTodaysPuzzle(now, day);
      RuleAbove(rules, NumMinutes(now - UnlockInstant(day))).UnwrapOr(defaultTtl)
    case None => defaultTtl
  }

  /** While a puzzle is current, whole minutes since its unlock lie in [0, 1440). */
  lemma MinutesSinceUnlock(now: int)
    requires Current(now).Some?
    ensures var day := Current(now).value;
      IsPuzzleDay(day) && 0 <= NumMinutes(now - UnlockInstant(day)) < 1440
  {
    CurrentIsTodaysPuzzle(now, Current(now).value);
  }

  /**
   * The ttl is the default outside a puzzle's first day; on that day it is
   * the ttl of the rule with the smallest key above the whole minutes since
   * the unlock, or the default when no key is above them.
   */
  lemma CacheTtlChoice(now: int, rules: TtlRules, defaultTtl: nat)
    requires ValidRules(rules)
    ensures Current(now).None? ==> CacheTtl(now, rules, defaultTtl) == defaultTtl
    ensures Current(now).Some? ==>
      var minutes := NumMinutes(now - UnlockInstant(Current(now).value));
      && 0 <= minutes < 1440
      && ((forall i :: 0 <= i < |rules| ==> rules[i].0 <= minutes) ==> CacheTtl(now, rules, defaultTtl) == defaultTtl)
      && (forall i :: 0 <= i < |rules| && rules[i].0 > minutes && (forall j :: 0 <= j < i ==> rules[j].0 <= minutes) ==>
            CacheTtl(now, rules, defaultTtl) == rules[i].1)
  {
    if Current(now).Some? {
      MinutesSinceUnlock(now);
      var minutes := NumMinutes(now - UnlockInstant(Current(now).value));
      forall i | 0 <= i < |rules| && rules[i].0 > minutes && (forall j :: 0 <= j < i ==> rules[j].0 <= minutes)
        ensures CacheTtl(now, rules, defaultTtl) == rules[i].1
      {
        RuleAboveIsSmallest(rules, minutes, i);
      }
    }
  }

  /** Why fetching the leaderboard from the event's website failed. */
  datatype FetchError = Http(status: nat) | Transport | Malformed

  datatype Error = Fetch(cause: FetchError) | Persist

  /** A cached leaderboard and the instant it was fetched. */
  datatype CacheEntry = CacheEntry(leaderboard: Leaderboard, fetchedAt: int)

  type Cache = map<int, CacheEntry>

  /** The cached entry for `year`, if there is one that is still fresh: `now < ts + ttl`. */
  function FreshEntry(cache: Cache, year: int, now: int, ttl: nat): (r: Option<CacheEntry>)
    ensures r.Some? <==> year in cache && now < cache[year].fetchedAt + ttl
    ensures r.Some? ==> r.value == cache[year]
  {
    if year in cache && now < cache[year].fetchedAt + ttl then Some(cache[year]) else None
  }

  /** The event's website, answering each request for a year's private leaderboard. */
  class Api {
    const answer: int -> Result<Leaderboard, FetchError>
    var requests: seq<int>

    constructor(answer: int -> Result<Leaderboard, FetchError>)
      ensures this.answer == answer && requests == []
    {
      this.answer := answer;
      requests := [];
    }

    /** `AocApiClient::get_private_leaderboard` */
    method GetPrivateLeaderboard(year: int) returns (r: Result<Leaderboard, FetchError>)
      modifies this
      ensures r == answer(year)
      ensures requests == old(requests) + [year]
    {
      requests := requests + [year];
      r := answer(year);
    }
  }

  /**
   * The bot's key-value store, holding the encoded cache under one key
   * (src/utils/store.rs). `saved` is what reading it back yields: None when the
   * key is absent or does not decode. Writes fail while `writable` is false.
   */
  class Store {
    var saved: Option<Cache>
    var writable: bool

    constructor(saved: Option<Cache>, writable: bool)
      ensures this.saved == saved && this.writable == writable
    {
      this.saved := saved;
      this.writable := writable;
    }

    /** `Store::set` */
    method Set(value: Cache) returns (ok: bool)
      modifies this
      ensures ok == writable && writable == old(writable)
      ensures saved == if ok then Some(value) else old(saved)
    {
      ok := writable;
      if ok {
        saved := Some(value);
      }
    }
  }

  /**
   * What one `get_private_leaderboard` call does: its result, the cache it
   * leaves, whether it asked the website, and what the store holds after it.
   */
  datatype Lookup = Lookup(result: Result<CacheEntry, Error>, cache: Cache, fetched: bool, saved: Option<Cache>)

  /** The cache as the second freshness check sees it: with the entry another task stored meanwhile. */
  function Seen(cache: Cache, year: int, raced: Option<CacheEntry>): Cache {
    if raced.Some? then cache[year := raced.value] else cache
  }

  /**
   * `get_private_leaderboard` from a cache `cache` and a store holding
   * `saved`, the website answering `answer` and the store accepting writes
   * when `writable`.
   */
  function LookupOf(cache: Cache, year: int, now: int, ttl: nat, force: bool, raced: Option<CacheEntry>,
                    answer: Result<Leaderboard, FetchError>, writable: bool, saved: Option<Cache>): (o: Lookup)
    ensures o.result.Ok? ==> year in o.cache && o.cache[year] == o.result.value
  {
    var first := if force then None else FreshEntry(cache, year, now, ttl);
    if first.Some? then Lookup(Ok(first.value), cache, false, saved)
    else
      var seen := Seen(cache, year, raced);
      var second := if force then None else FreshEntry(seen, year, now, ttl);
      if second.Some? then Lookup(Ok(second.value), seen, false, saved)
      else if answer.Err? then Lookup(Err(Fetch(answer.error)), seen, true, saved)
      else
        var entry := CacheEntry(answer.value, now);
        var updated := seen[year := entry];
        if writable then Lookup(Ok(entry), updated, true, Some(updated))
        else Lookup(Err(Persist), updated, true, saved)
  }

  /**
   * The website is asked exactly when the refresh is forced or neither
   * freshness check found a fresh entry; an entry served without asking is
   * fresh and leaves the store alone, and a fresh entry in the cache is
   * served as it is, changing nothing.
   */
  lemma LookupFetches(cache: Cache, year: int, now: int, ttl: nat, force: bool, raced: Option<CacheEntry>,
                      answer: Result<Leaderboard, FetchError>, writable: bool, saved: Option<Cache>)
    ensures var o := LookupOf(cache, year, now, ttl, force, raced, answer, writable, saved);
      && (o.fetched <==> force || (FreshEntry(cache, year, now, ttl).None? && FreshEntry(Seen(cache, year, raced), year, now, ttl).None?))
      && (!o.fetched ==> o.result.Ok? && now < o.result.value.fetchedAt + ttl && o.saved == saved)
      && (!force && FreshEntry(cache, year, now, ttl).Some? ==>
            o == Lookup(Ok(cache[year]), cache, false, saved))
  {
  }

  /**
   * The lookup succeeds exactly when it did not need the website, or the
   * website answered and the store took the new cache; a failure is the
   * website's error, or else the store's.
   */
  lemma LookupResult(cache: Cache, year: int, now: int, ttl: nat, force: bool, raced: Option<CacheEntry>,
                     answer: Result<Leaderboard, FetchError>, writable: bool, saved: Option<Cache>)
    ensures var o := LookupOf(cache, year, now, ttl, force, raced, answer, writable, saved);
      && (o.result.Ok? <==> !o.fetched || (answer.Ok? && writable))
      && (o.result.Err? ==> o.fetched && o.result.error == if answer.Err? then Fetch(answer.error) else Persist)
  {
  }

  /**
   * A fetched leaderboard is stored with `now` as its timestamp, so it is
   * fresh under any positive ttl, and the whole cache is persisted when the
   * store takes it; a failed fetch changes the cache only by the entry
   * another task stored meanwhile.
   */
  lemma FetchedIsStored(cache: Cache, year: int, now: int, ttl: nat, force: bool, raced: Option<CacheEntry>,
                        answer: Result<Leaderboard, FetchError>, writable: bool, saved: Option<Cache>)
    ensures var o := LookupOf(cache, year, now, ttl, force, raced, answer, writable, saved);
      && (o.fetched && answer.Ok? ==>
            && year in o.cache && o.cache[year] == CacheEntry(answer.value, now)
            && (ttl > 0 ==> FreshEntry(o.cache, year, now, ttl) == Some(o.cache[year]))
            && o.saved == if writable then Some(o.cache) else saved)
      && (o.fetched && answer.Err? ==> o.cache == Seen(cache, year, raced) && o.saved == saved)
  {
  }

  /** A lookup changes the cache for its own year only. */
  lemma LookupTouchesOneYear(cache: Cache, year: int, now: int, ttl: nat, force: bool, raced: Option<CacheEntry>,
                             answer: Result<Leaderboard, FetchError>, writable: bool, saved: Option<Cache>, other: int)
    requires other != year
    ensures var o := LookupOf(cache, year, now, ttl, force, raced, answer, writable, saved);
      && (other in o.cache <==> other in cache)
      && (other in cache ==> o.cache[other] == cache[other])
  {
  }

  /** `AocClient` */
  class AocClient {
    const defaultTtl: nat
    const rules: TtlRules
    const api: Api
    const store: Store
    var cache: Cache

    /** `AocClient::new`: the cache starts as the stored one, or empty. */
    constructor(defaultTtl: nat, rules: TtlRules, api: Api, store: Store)
      requires ValidRules(rules)
      ensures this.defaultTtl == defaultTtl && this.rules == rules && this.api == api && this.store == store
      ensures cache == store.saved.UnwrapOr(map[])
    {
      this.defaultTtl := defaultTtl;
      this.rules := rules;
      this.api := api;
      this.store := store;
      cache := store.saved.UnwrapOr(map[]);
    }

    /**
     * What `get_private_leaderboard` of `year` does when the cache was
     * `cache0` and the store held `saved0`.
     */
    function Outcome(cache0: Cache, saved0: Option<Cache>, year: int, now: int, force: bool, raced: Option<CacheEntry>)
      : Lookup
      reads store
    {
      LookupOf(cache0, year, now, CacheTtl(now, rules, defaultTtl), force, raced, api.answer(year), store.writable, saved0)
    }

    /**
     * The cache, the store and the requests made to the website are as
     * lookup `o` of `year` leaves them, `requests0` being the requests made
     * before it.
     */
    predicate Reflects(o: Lookup, year: int, requests0: seq<int>)
      reads this, api, store
    {
      && cache == o.cache && store.saved == o.saved
      && api.requests == requests0 + (if o.fetched then [year] else [])
    }

    /** `clear_leaderboard_cache`: empties the cache, then persists the empty cache. */
    method ClearLeaderboardCache() returns (r: Result<(), Error>)
      modifies this, store
      ensures cache == map[]
      ensures store.writable == old(store.writable)
      ensures r == if store.writable then Ok(()) else Err(Persist)
      ensures store.saved == if store.writable then Some(map[]) else old(store.saved)
    {
      cache := map[];
      var ok := store.Set(cache);
      r := if ok then Ok(()) else Err(Persist);
    }

    /** `get_private_leaderboard_cached`: the cached entry, fresh or not; never fetches. */
    method GetPrivateLeaderboardCached(year: int) returns (r: Option<CacheEntry>)
      ensures r.Some? <==> year in cache
      ensures r.Some? ==> r.value == cache[year]
    {
      r := if year in cache then Some(cache[year]) else None;
    }

    /**
     * `get_private_leaderboard`, called at `now`. A fresh cached entry is
     * served; otherwise the leaderboard is fetched, stored with `now` as its
     * timestamp and the whole cache persisted. `force` skips both freshness
     * checks.
     *
     * Between the check under the read guard and the one under the write
     * guard another task may store an entry for the same year: `raced` is
     * that entry, if any, which is why the check is made twice.
     */
    method GetPrivateLeaderboard(year: int, now: int, force: bool, raced: Option<CacheEntry>)
      returns (r: Result<CacheEntry, Error>)
      modifies this, api, store
      ensures store.writable == old(store.writable)
      ensures var o := Outcome(old(cache), old(store.saved), year, now, force, raced);
        r == o.result && Reflects(o, year, old(api.requests))
    {
      var ttl := CacheTtl(now, rules, defaultTtl);
      var cached := FreshEntry(cache, year, now, ttl);
      if !force && cached.Some? {
        return Ok(cached.value);
      }
      if raced.Some? {
        cache := cache[year := raced.value];
      }
      cached := FreshEntry(cache, year, now, ttl);
      if !force && cached.Some? {
        return Ok(cached.value);
      }
      var fetched := api.GetPrivateLeaderboard(year);
      if fetched.Err? {
        return Err(Fetch(fetched.error));
      }
      var entry := CacheEntry(fetched.value, now);
      cache := cache[year := entry];
      var ok := store.Set(cache);
      if !ok {
        return Err(Persist);
      }
      r := Ok(entry);
    }

    /**
     * `get_daily_private_leaderboard`: the year's leaderboard, as
     * `get_private_leaderboard` returns it, re-scored for one day and the
     * selected parts. `order` is the order in which the leaderboard's members
     * were visited; the cached entry itself is not re-scored.
     */
    method GetDailyPrivateLeaderboard(year: int, day: nat, parts: Parts, now: int, raced: Option<CacheEntry>)
      returns (r: Result<CacheEntry, Error>, order: seq<string>)
      modifies this, api, store
      ensures store.writable == old(store.writable)
      ensures var o := Outcome(old(cache), old(store.saved), year, now, false, raced);
        && Reflects(o, year, old(api.requests))
        && (r.Ok? <==> o.result.Ok?)
        && (r.Err? ==> r.error == o.result.error)
        && (r.Ok? ==>
              var lb := o.result.value.leaderboard;
              && Enumerates(order, lb.members)
              && r.value == CacheEntry(lb.(members := Rescored(lb.members, order, day, parts)), o.result.value.fetchedAt))
    {
      var got := GetPrivateLeaderboard(year, now, false, raced);
      if got.Err? {
        return Err(got.error), [];
      }
      order := EnumerateKeys(got.value.leaderboard.members);
      var rescored := Rescore(got.value.leaderboard, day, parts, order);
      r := Ok(CacheEntry(rescored, got.value.fetchedAt));
    }
  }

  /** `Parts`: which parts of the day's puzzle a daily leaderboard scores. */
  datatype Parts = P1 | P2 | Both {
    predicate CountsFirst() { this == P1 || this == Both }
    predicate CountsSecond() { this == P2 || this == Both }
  }

  /** A member who solved the part being scored, under its key in the leaderboard. */
  datatype Finisher = Finisher(key: string, member: Member, ts: int)

  /**
   * The members, in iteration order, who solved the part, each with the
   * instant of that star (the `filter_map` over the members).
   */
  function Finishers(members: map<string, Member>, order: seq<string>, day: nat, second: bool): (r: seq<Finisher>)
    requires forall k :: k in order ==> k in members
    ensures |r| <= |order|
    ensures forall f :: f in r ==>
      f.key in order && f.member == members[f.key] && PartTs(f.member, day, second) == Some(f.ts)
    ensures forall k :: k in order && PartTs(members[k], day, second).Some? ==>
      Finisher(k, members[k], PartTs(members[k], day, second).value) in r
    ensures Distinct(order) ==> Distinct(r)
  {
    if order == [] then []
    else
      var k := order[0];
      var rest := Finishers(members, order[1..], day, second);
      assert forall j :: j in order ==> j == k || j in order[1..];
      assert Distinct(order) ==> k !in order[1..];
      match PartTs(members[k], day, second)
      case Some(ts) => [Finisher(k, members[k], ts)] + rest
      case None => rest
  }

  /** The sort key `(ts, m)`: the earlier star first, then member order. */
  function FinisherLe(): (le: (Finisher, Finisher) -> bool)
    ensures forall a, b :: le(a, b) == (a.ts < b.ts || (a.ts == b.ts && Le(a.member, b.member)))
  {
    (a: Finisher, b: Finisher) => a.ts < b.ts || (a.ts == b.ts && Le(a.member, b.member))
  }

  lemma FinisherOrderIsTotalPreorder()
    ensures TotalPreorder(FinisherLe())
  {
    var le := FinisherLe();
    forall x, y
      ensures le(x, y) || le(y, x)
    {
      CompareAntisymmetric(x.member, y.member);
    }
    forall x, y, z | le(x, y) && le(y, z)
      ensures le(x, z)
    {
      CompareTransitive(x.member, y.member, z.member);
    }
  }

  /** The finishers of a part, sorted by `(ts, m)` (`sort_unstable_by_key`). */
  function Ranking(members: map<string, Member>, order: seq<string>, day: nat, second: bool): seq<Finisher>
    requires forall k :: k in order ==> k in members
  {
    SortBy(Finishers(members, order, day, second), FinisherLe())
  }

  ghost predicate DistinctKeys(r: seq<Finisher>) {
    forall i, j :: 0 <= i < j < |r| ==> r[i].key != r[j].key
  }

  /** `order` lists every key of the map exactly once: the map's iteration order. */
  ghost predicate Enumerates(order: seq<string>, members: map<string, Member>) {
    Distinct(order) && forall k :: k in order <==> k in members
  }

  /** Sorting keeps the finishers: every entry of a ranking is one of them. */
  lemma RankedAreFinishers(members: map<string, Member>, order: seq<string>, day: nat, second: bool)
    requires forall k :: k in order ==> k in members
    ensures var r := Ranking(members, order, day, second);
      forall p :: 0 <= p < |r| ==> r[p] in Finishers(members, order, day, second)
  {
    var r := Ranking(members, order, day, second);
    forall p | 0 <= p < |r|
      ensures r[p] in Finishers(members, order, day, second)
    {
      assert r[p] in multiset(r);
    }
  }

  /** A ranking is no longer than the member list and names only members. */
  lemma RankingKeys(members: map<string, Member>, order: seq<string>, day: nat, second: bool)
    requires Enumerates(order, members)
    ensures var r := Ranking(members, order, day, second);
      |r| <= |members| && forall p :: 0 <= p < |r| ==> r[p].key in members
  {
    RankedAreFinishers(members, order, day, second);
    DistinctCardinality(order);
    assert (set x | x in order) == members.Keys;
  }

  /** Every member who solved the part is somewhere in its ranking. */
  lemma RankingComplete(members: map<string, Member>, order: seq<string>, day: nat, second: bool)
    requires Enumerates(order, members)
    ensures var r := Ranking(members, order, day, second);
      forall k :: k in members && PartTs(members[k], day, second).Some? ==>
        exists p :: 0 <= p < |r| && r[p].key == k
  {
    var f := Finishers(members, order, day, second);
    var r := Ranking(members, order, day, second);
    forall k | k in members && PartTs(members[k], day, second).Some?
      ensures exists p :: 0 <= p < |r| && r[p].key == k
    {
      var x := Finisher(k, members[k], PartTs(members[k], day, second).value);
      assert x in multiset(f);
      assert x in r;
    }
  }

  /** A ranking holds no member twice. */
  lemma RankingDistinctKeys(members: map<string, Member>, order: seq<string>, day: nat, second: bool)
    requires Enumerates(order, members)
    ensures DistinctKeys(Ranking(members, order, day, second))
  {
    var f := Finishers(members, order, day, second);
    SortByKeepsDistinct(f, FinisherLe());
    RankedAreFinishers(members, order, day, second);
  }

  /**
   * The ranking of a part is sorted by `(ts, m)`, holds each member who solved
   * the part exactly once, with that member's star instant, and no one else.
   */
  lemma RankingFacts(members: map<string, Member>, order: seq<string>, day: nat, second: bool)
    requires Enumerates(order, members)
    ensures var r := Ranking(members, order, day, second);
      && |r| <= |members|
      && SortedBy(r, FinisherLe())
      && DistinctKeys(r)
      && (forall p :: 0 <= p < |r| ==>
            r[p].key in members && r[p].member == members[r[p].key]
            && PartTs(members[r[p].key], day, second) == Some(r[p].ts))
      && (forall k :: k in members && PartTs(members[k], day, second).Some? ==>
            exists p :: 0 <= p < |r| && r[p].key == k)
  {
    FinisherOrderIsTotalPreorder();
    SortBySorted(Finishers(members, order, day, second), FinisherLe());
    RankingKeys(members, order, day, second);
    RankedAreFinishers(members, order, day, second);
    RankingDistinctKeys(members, order, day, second);
    RankingComplete(members, order, day, second);
  }

  /** `m.global_score = 0; m.local_score = 0; m.stars = 0; m.last_star_ts = epoch` */
  function Reset(m: Member): Member {
    m.(globalScore := 0, localScore := 0, stars := 0, lastStarTs := 0)
  }

  /** One counted star: `points` more, one more star, the later last-star instant. */
  function Award(m: Member, points: nat, ts: int): Member {
    m.(localScore := m.localScore + points, stars := m.stars + 1,
      lastStarTs := if ts > m.lastStarTs then ts else m.lastStarTs)
  }

  /** The first `i` finishers of `ranking` scored: the i-th (from 0) gains `n - i` points. */
  function ApplyRanking(ms: map<string, Member>, ranking: seq<Finisher>, n: nat, i: nat): (r: map<string, Member>)
    requires i <= |ranking| <= n
    requires forall p :: 0 <= p < |ranking| ==> ranking[p].key in ms
    ensures r.Keys == ms.Keys
  {
    if i == 0 then ms
    else
      var prev := ApplyRanking(ms, ranking, n, i - 1);
      var f := ranking[i - 1];
      prev[f.key := Award(prev[f.key], n - (i - 1), f.ts)]
  }

  /** Scoring the first `i` finishers changes exactly their entries, each once. */
  lemma {:induction false} ApplyRankingAt(ms: map<string, Member>, ranking: seq<Finisher>, n: nat, i: nat, k: string)
    requires i <= |ranking| <= n
    requires forall p :: 0 <= p < |ranking| ==> ranking[p].key in ms
    requires DistinctKeys(ranking) && k in ms
    ensures forall p :: 0 <= p < i && ranking[p].key == k ==>
      ApplyRanking(ms, ranking, n, i)[k] == Award(ms[k], n - p, ranking[p].ts)
    ensures (forall p :: 0 <= p < i ==> ranking[p].key != k) ==> ApplyRanking(ms, ranking, n, i)[k] == ms[k]
  {
    if i > 0 {
      ApplyRankingAt(ms, ranking, n, i - 1, k);
    }
  }

  function ResetAll(ms: map<string, Member>): (r: map<string, Member>)
    ensures r.Keys == ms.Keys
  {
    map k | k in ms :: Reset(ms[k])
  }

  /** The members after `get_daily_private_leaderboard` re-scored them. */
  function Rescored(ms: map<string, Member>, order: seq<string>, day: nat, parts: Parts): (r: map<string, Member>)
    requires Enumerates(order, ms)
    ensures r.Keys == ms.Keys
  {
    RankingKeys(ms, order, day, false);
    RankingKeys(ms, order, day, true);
    var n := |ms|;
    var first := Ranking(ms, order, day, false);
    var second := Ranking(ms, order, day, true);
    var reset := ResetAll(ms);
    var afterFirst := if parts.CountsFirst() then ApplyRanking(reset, first, n, |first|) else reset;
    if parts.CountsSecond() then ApplyRanking(afterFirst, second, n, |second|) else afterFirst
  }

  /** Where the member under key `k` stands in a ranking, counting from 0. */
  function Position(r: seq<Finisher>, k: string): (p: Option<nat>)
    ensures p.Some? ==> p.value < |r| && r[p.value].key == k
    ensures p.None? ==> forall i :: 0 <= i < |r| ==> r[i].key != k
  {
    if r == [] then None
    else if r[0].key == k then Some(0)
    else
      var p := Position(r[1..], k);
      assert p.None? ==> forall i :: 0 < i < |r| ==> r[i].key != k by {
        if p.None? {
          forall i | 0 < i < |r|
            ensures r[i].key != k
          {
            assert r[i] == r[1..][i - 1];
          }
        }
      }
      if p.Some? then Some(p.value + 1) else None
  }

  /** The points a part earns the member under key `k`: N - position, or nothing. */
  function Points(r: seq<Finisher>, k: string, n: nat, counted: bool): int {
    match Position(r, k)
    case Some(p) => if counted then n - p else 0
    case None => 0
  }

  lemma PositionUnique(r: seq<Finisher>, k: string, p: nat)
    requires DistinctKeys(r) && p < |r| && r[p].key == k
    ensures Position(r, k) == Some(p)
  {
  }

  /** A member stands in a part's ranking exactly when it solved that part, with that star's instant. */
  lemma RankingPosition(ms: map<string, Member>, order: seq<string>, day: nat, second: bool, k: string)
    requires Enumerates(order, ms) && k in ms
    ensures var r := Ranking(ms, order, day, second);
      && |r| <= |ms| && DistinctKeys(r)
      && (forall q :: 0 <= q < |r| ==> r[q].key in ms)
      && (Position(r, k).Some? <==> PartTs(ms[k], day, second).Some?)
      && (Position(r, k).Some? ==> r[Position(r, k).value].ts == PartTs(ms[k], day, second).value)
  {
    RankingFacts(ms, order, day, second);
    var r := Ranking(ms, order, day, second);
    if PartTs(ms[k], day, second).Some? {
      var p :| 0 <= p < |r| && r[p].key == k;
      PositionUnique(r, k, p);
    }
  }

  /** One scoring pass over a whole ranking awards each ranked member once. */
  lemma PassAt(ms: map<string, Member>, r: seq<Finisher>, n: nat, k: string)
    requires |r| <= n && DistinctKeys(r) && k in ms
    requires forall p :: 0 <= p < |r| ==> r[p].key in ms
    ensures ApplyRanking(ms, r, n, |r|)[k] ==
      match Position(r, k)
      case Some(p) => Award(ms[k], n - p, r[p].ts)
      case None => ms[k]
  {
    ApplyRankingAt(ms, r, n, |r|, k);
    if Position(r, k).Some? {
      PositionUnique(r, k, Position(r, k).value);
    }
  }

  /** A member after one scoring pass, when the pass is counted. */
  function PassResult(m: Member, r: seq<Finisher>, k: string, n: nat, counted: bool): Member
    requires |r| <= n
  {
    match Position(r, k)
    case Some(p) => if counted then Award(m, n - p, r[p].ts) else m
    case None => m
  }

  /** Two scoring passes, each counted or not, act on one member as `PassResult` twice. */
  lemma TwoPasses(ms: map<string, Member>, first: seq<Finisher>, second: seq<Finisher>, n: nat,
                  countFirst: bool, countSecond: bool, k: string)
    requires |first| <= n && |second| <= n && DistinctKeys(first) && DistinctKeys(second) && k in ms
    requires forall p :: 0 <= p < |first| ==> first[p].key in ms
    requires forall p :: 0 <= p < |second| ==> second[p].key in ms
    ensures var afterFirst := if countFirst then ApplyRanking(ms, first, n, |first|) else ms;
      var afterSecond := if countSecond then ApplyRanking(afterFirst, second, n, |second|) else afterFirst;
      afterSecond[k] == PassResult(PassResult(ms[k], first, k, n, countFirst), second, k, n, countSecond)
  {
    var afterFirst := if countFirst then ApplyRanking(ms, first, n, |first|) else ms;
    PassAt(ms, first, n, k);
    assert afterFirst[k] == PassResult(ms[k], first, k, n, countFirst);
    PassAt(afterFirst, second, n, k);
  }

  /** Re-scoring one member is a reset followed by the two passes. */
  lemma RescoredShape(ms: map<string, Member>, order: seq<string>, day: nat, parts: Parts, k: string)
    requires Enumerates(order, ms) && k in ms
    ensures |Ranking(ms, order, day, false)| <= |ms| && |Ranking(ms, order, day, true)| <= |ms|
    ensures Rescored(ms, order, day, parts)[k] ==
        PassResult(PassResult(Reset(ms[k]), Ranking(ms, order, day, false), k, |ms|, parts.CountsFirst()),
          Ranking(ms, order, day, true), k, |ms|, parts.CountsSecond())
  {
    RankingPosition(ms, order, day, false, k);
    RankingPosition(ms, order, day, true, k);
    TwoPasses(ResetAll(ms), Ranking(ms, order, day, false), Ranking(ms, order, day, true), |ms|,
      parts.CountsFirst(), parts.CountsSecond(), k);
  }

  /**
   * What re-scoring does to one member: the global score is 0; each counted
   * part the member solved gives one star and N - position points (N the
   * number of members, position from 0 in that part's ranking, so between 1
   * and N points); the last-star instant is the latest counted star, or the
   * epoch when there is none; everything else about the member is kept.
   */
  lemma RescoredMember(ms: map<string, Member>, order: seq<string>, day: nat, parts: Parts, k: string)
    requires Enumerates(order, ms) && k in ms
    ensures var m := ms[k];
      var m2 := Rescored(ms, order, day, parts)[k];
      var n := |ms|;
      var first := Ranking(ms, order, day, false);
      var second := Ranking(ms, order, day, true);
      var solvedFirst := parts.CountsFirst() && PartTs(m, day, false).Some?;
      var solvedSecond := parts.CountsSecond() && PartTs(m, day, true).Some?;
      && m2.id == m.id && m2.name == m.name && m2.completionDayLevel == m.completionDayLevel
      && m2.globalScore == 0
      && m2.stars == (if solvedFirst then 1 else 0) + (if solvedSecond then 1 else 0)
      && (solvedFirst <==> Points(first, k, n, parts.CountsFirst()) > 0)
      && (solvedSecond <==> Points(second, k, n, parts.CountsSecond()) > 0)
      && 0 <= Points(first, k, n, parts.CountsFirst()) <= n
      && 0 <= Points(second, k, n, parts.CountsSecond()) <= n
      && m2.localScore == Points(first, k, n, parts.CountsFirst()) + Points(second, k, n, parts.CountsSecond())
      && m2.lastStarTs >= 0
      && (solvedFirst ==> m2.lastStarTs >= PartTs(m, day, false).value)
      && (solvedSecond ==> m2.lastStarTs >= PartTs(m, day, true).value)
      && (m2.lastStarTs == 0
          || (solvedFirst && m2.lastStarTs == PartTs(m, day, false).value)
          || (solvedSecond && m2.lastStarTs == PartTs(m, day, true).value))
  {
    RankingPosition(ms, order, day, false, k);
    RankingPosition(ms, order, day, true, k);
    RescoredShape(ms, order, day, parts, k);
  }

  /**
   * Within a part, a member who finished strictly earlier under `(ts, m)`
   * stands earlier in the ranking and so earns strictly more points.
   */
  lemma EarlierFinisherScoresMore(ms: map<string, Member>, order: seq<string>, day: nat, second: bool, a: string, b: string)
    requires Enumerates(order, ms) && a in ms && b in ms
    requires PartTs(ms[a], day, second).Some? && PartTs(ms[b], day, second).Some?
    requires var ta := PartTs(ms[a], day, second).value;
      var tb := PartTs(ms[b], day, second).value;
      ta < tb || (ta == tb && Compare(ms[a], ms[b]) == Less)
    ensures var r := Ranking(ms, order, day, second);
      Position(r, a).Some? && Position(r, b).Some? && Position(r, a).value < Position(r, b).value
      && Points(r, a, |ms|, true) > Points(r, b, |ms|, true)
  {
    var r := Ranking(ms, order, day, second);
    var pa := FinisherAt(ms, order, day, second, a);
    var pb := FinisherAt(ms, order, day, second, b);
    CompareAntisymmetric(ms[a], ms[b]);
    if pb <= pa {
      RankingSorted(ms, order, day, second);
      assert false;
    }
  }

  /** Where a member who solved the part stands in its ranking, with that star's instant. */
  lemma FinisherAt(ms: map<string, Member>, order: seq<string>, day: nat, second: bool, k: string)
    returns (p: nat)
    requires Enumerates(order, ms) && k in ms && PartTs(ms[k], day, second).Some?
    ensures var r := Ranking(ms, order, day, second);
      && p < |r| && Position(r, k) == Some(p)
      && r[p] == Finisher(k, ms[k], PartTs(ms[k], day, second).value)
  {
    var r := Ranking(ms, order, day, second);
    RankingComplete(ms, order, day, second);
    RankingDistinctKeys(ms, order, day, second);
    RankedAreFinishers(ms, order, day, second);
    p :| 0 <= p < |r| && r[p].key == k;
    PositionUnique(r, k, p);
  }

  /** A ranking is sorted by `(ts, m)`. */
  lemma RankingSorted(ms: map<string, Member>, order: seq<string>, day: nat, second: bool)
    requires forall k :: k in order ==> k in ms
    ensures SortedBy(Ranking(ms, order, day, second), FinisherLe())
  {
    FinisherOrderIsTotalPreorder();
    SortBySorted(Finishers(ms, order, day, second), FinisherLe());
  }

  /** Visits every key of the map once, in an order the model leaves open (hash order). */
  method EnumerateKeys(members: map<string, Member>) returns (order: seq<string>)
    ensures Enumerates(order, members)
  {
    order := [];
    var rest := members.Keys;
    while rest != {}
      invariant forall k :: k in members <==> k in order || k in rest
      invariant forall k :: k in order ==> k !in rest
      invariant Distinct(order)
      decreases |rest|
    {
      var k :| k in rest;
      order := order + [k];
      rest := rest - {k};
    }
  }

  /**
   * The re-scoring of `get_daily_private_leaderboard`: rank the finishers of
   * each part by `(ts, m)`, reset every member's scores, then award the
   * counted parts in ranking order.
   */
  method Rescore(lb: Leaderboard, day: nat, parts: Parts, order: seq<string>) returns (r: Leaderboard)
    requires Enumerates(order, lb.members)
    ensures r == lb.(members := Rescored(lb.members, order, day, parts))
  {
    RankingKeys(lb.members, order, day, false);
    RankingKeys(lb.members, order, day, true);
    var n := |lb.members|;
    var first := Ranking(lb.members, order, day, false);
    var second := Ranking(lb.members, order, day, true);

    var members := ResetMembers(lb.members, order);
    if parts.CountsFirst() {
      members := ScorePass(members, first, n);
    }
    if parts.CountsSecond() {
      members := ScorePass(members, second, n);
    }
    r := lb.(members := members);
  }

  /** The `values_mut` loop: every member's scores, stars and last-star instant are cleared. */
  method ResetMembers(ms: map<string, Member>, order: seq<string>) returns (r: map<string, Member>)
    requires Enumerates(order, ms)
    ensures r == ResetAll(ms)
  {
    r := ms;
    var i := 0;
    while i < |order|
      invariant 0 <= i <= |order|
      invariant r.Keys == ms.Keys
      invariant forall k :: k in r ==> r[k] == if k in order[..i] then Reset(ms[k]) else ms[k]
    {
      r := r[order[i] := Reset(r[order[i]])];
      i := i + 1;
    }
    assert order[..i] == order;
  }

  /** One `enumerate` loop: the i-th finisher (from 0) gains `n - i` points and a star. */
  method ScorePass(ms: map<string, Member>, ranking: seq<Finisher>, n: nat) returns (r: map<string, Member>)
    requires |ranking| <= n
    requires forall p :: 0 <= p < |ranking| ==> ranking[p].key in ms
    ensures r == ApplyRanking(ms, ranking, n, |ranking|)
  {
    r := ms;
    var i := 0;
    while i < |ranking|
      invariant 0 <= i <= |ranking|
      invariant r == ApplyRanking(ms, ranking, n, i)
    {
      var f := ranking[i];
      r := r[f.key := Award(r[f.key], n - i, f.ts)];
      i := i + 1;
    }
  }
}
