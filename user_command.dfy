/**
 * The `user` chat command (src/matrix/commands/aoc/user.rs): which year and
 * which member it reports on, the member's overall rank, how many days and
 * stars the year has so far, and the member's rank on each part of each day.
 * The HTML it renders is not modelled; a day row keeps the values shown.
 */
module UserCommand {
  import opened Wrappers
  import opened Text
  import opened Day
  import opened Models
  import opened Sorting
  import opened Client
  import opened Context
  import opened Parser
  import SolveNotifications

  /**
   * The `year` argument: absent means the most recent event's year; present,
   * it must parse as an `i32` from 2015 to that year. None stands for the
   * reply "Failed to parse argument 'year'".
   */
  function ResolveYear(arg: Option<string>, mostRecentYear: int): Option<int> {
    match arg
    case None => Some(mostRecentYear)
    case Some(a) =>
      var y := ParseI32(a);
      if y.Some? && 2015 <= y.value <= mostRecentYear then y else None
  }

  /** A year written in decimal is accepted exactly when it lies in 2015..=most recent. */
  lemma ResolvePrintedYear(y: int, mostRecentYear: int)
    requires I32Min <= y <= I32Max
    ensures ResolveYear(Some(IntToString(y)), mostRecentYear) ==
      if 2015 <= y <= mostRecentYear then Some(y) else None
  {
    ParsePrintedI32(y);
  }

  /**
   * `m` is what `Iterator::find` returns for `p` over the members in visiting
   * order: it satisfies `p`, and every member visited before it does not.
   */
  ghost predicate FirstMatch(members: map<string, Member>, order: seq<string>, p: Member -> bool, m: Member)
    requires forall k :: k in order ==> k in members
  {
    exists i :: 0 <= i < |order| && members[order[i]] == m && p(m) && forall j :: 0 <= j < i ==> !p(members[order[j]])
  }

  /** The first member, in visiting order, that satisfies `p` (`Iterator::find`). */
  function FindFirst(members: map<string, Member>, order: seq<string>, p: Member -> bool): (r: Option<Member>)
    requires forall k :: k in order ==> k in members
    ensures r.Some? ==> FirstMatch(members, order, p, r.value)
    ensures r.None? ==> forall i :: 0 <= i < |order| ==> !p(members[order[i]])
  {
    if order == [] then None
    else if p(members[order[0]]) then
      assert members[order[0]] == members[order[0]] && p(members[order[0]]);
      Some(members[order[0]])
    else
      var r := FindFirst(members, order[1..], p);
      assert forall i :: 0 <= i < |order| - 1 ==> order[1..][i] == order[i + 1];
      assert r.Some? ==> FirstMatch(members, order, p, r.value) by {
        if r.Some? {
          var i :| 0 <= i < |order[1..]| && members[order[1..][i]] == r.value && p(r.value)
            && forall j :: 0 <= j < i ==> !p(members[order[1..][j]]);
          forall j | 0 <= j < i + 1
            ensures !p(members[order[j]])
          {
            if j > 0 {
              assert order[j] == order[1..][j - 1];
            }
          }
          assert members[order[i + 1]] == r.value;
        }
      }
      r
  }

  /** `name` is the member's id in decimal, or the member's name up to case. */
  predicate NameMatches(name: string, m: Member) {
    || ParseU64(name) == Some(m.id)
    || (m.name.Some? && ToLower(m.name.value) == ToLower(name))
  }

  function NameMatcher(name: string): Member -> bool {
    (m: Member) => NameMatches(name, m)
  }

  /** Whether a member has the Advent of Code id `aoc` a configured user is linked to. */
  function IdMatcher(aoc: Option<nat>): Member -> bool {
    (m: Member) => aoc == Some(m.id)
  }

  /** The member a configured user is linked to by Advent of Code id. */
  function LinkedMember(u: User, members: map<string, Member>, order: seq<string>): Option<Member>
    requires forall k :: k in order ==> k in members
  {
    FindFirst(members, order, IdMatcher(u.aoc))
  }

  /**
   * Matrix user ids have the form `@localpart:server`. The full grammar
   * (allowed characters, the server-name syntax, the length limit) is not
   * modelled.
   */
  function ParseUserId(s: string): Option<string> {
    if |s| >= 2 && s[0] == '@' && ':' in s[1..] then Some(s) else None
  }

  /** String order: the order of `str`, which compares code points lexicographically. */
  predicate Below(a: string, b: string) {
    if a == [] then b != []
    else if b == [] then false
    else a[0] < b[0] || (a[0] == b[0] && Below(a[1..], b[1..]))
  }

  /**
   * The ids a message mentions: a `BTreeSet`, so they are visited in
   * ascending order, each once.
   */
  predicate Ascending(mentions: seq<string>) {
    forall i, j :: 0 <= i < j < |mentions| ==> Below(mentions[i], mentions[j])
  }

  /** `user_ids.iter().next()`: the least id mentioned, if any. */
  function FirstMention(mentions: seq<string>): (r: Option<string>)
    requires Ascending(mentions)
    ensures r.None? <==> mentions == []
    ensures r.Some? ==> r.value in mentions && forall m :: m in mentions && m != r.value ==> Below(r.value, m)
  {
    if mentions == [] then None else Some(mentions[0])
  }

  /** The Matrix user a name that matched no member denotes: the name as an id, else the least id mentioned. */
  function FallbackUser(name: string, mentions: seq<string>): Option<string>
    requires Ascending(mentions)
  {
    if ParseUserId(name).Some? then Some(name) else FirstMention(mentions)
  }

  /**
   * The member the command reports on. With a name: the first member whose
   * id or name matches; otherwise the member linked to the Matrix user the
   * name denotes, or to the least user mentioned in the message. Without a
   * name: the member linked to the sender. None stands for "User not found".
   */
  function FindMember(name: Option<string>, sender: string, mentions: seq<string>,
                      members: map<string, Member>, order: seq<string>,
                      byMatrix: map<string, User>): (r: Option<Member>)
    requires Enumerates(order, members) && Ascending(mentions)
    ensures r.Some? ==> r.value in members.Values
    ensures name.Some? && (exists k :: k in members && NameMatches(name.value, members[k])) ==>
      r.Some? && FirstMatch(members, order, NameMatcher(name.value), r.value)
    ensures name.Some? && (forall k :: k in members ==> !NameMatches(name.value, members[k])) ==>
      var id := FallbackUser(name.value, mentions);
      && (r.Some? <==> id.Some? && id.value in byMatrix && exists k :: k in members && byMatrix[id.value].aoc == Some(members[k].id))
      && (r.Some? ==> FirstMatch(members, order, IdMatcher(byMatrix[id.value].aoc), r.value))
    ensures name.None? ==>
      && (r.Some? <==> sender in byMatrix && exists k :: k in members && byMatrix[sender].aoc == Some(members[k].id))
      && (r.Some? ==> FirstMatch(members, order, IdMatcher(byMatrix[sender].aoc), r.value))
  {
    match name
    case Some(n) =>
      var direct := FindFirst(members, order, NameMatcher(n));
      if direct.Some? then direct
      else
        var id := FallbackUser(n, mentions);
        if id.None? || id.value !in byMatrix then None
        else LinkedMember(byMatrix[id.value], members, order)
    case None =>
      if sender in byMatrix then LinkedMember(byMatrix[sender], members, order) else None
  }

  /** The overall rank: how many members are listed no later than `user`. */
  function OverallRank(members: map<string, Member>, user: Member): nat {
    |set k | k in members && Le(members[k], user)|
  }

  /** A member of the leaderboard ranks between 1 and the number of members. */
  lemma OverallRankBounds(members: map<string, Member>, user: Member)
    requires user in members.Values
    ensures 1 <= OverallRank(members, user) <= |members|
  {
    var k :| k in members && members[k] == user;
    CompareAntisymmetric(user, user);
    var counted := set k | k in members && Le(members[k], user);
    assert k in counted;
    assert counted <= members.Keys;
    SolveNotifications.SubsetCardinality(counted, members.Keys);
  }

  /** A member listed no later than another never has a worse overall rank. */
  lemma OverallRankMonotone(members: map<string, Member>, a: Member, b: Member)
    requires Le(a, b)
    ensures OverallRank(members, a) <= OverallRank(members, b)
  {
    var sa := set k | k in members && Le(members[k], a);
    var sb := set k | k in members && Le(members[k], b);
    forall k | k in sa
      ensures k in sb
    {
      CompareTransitive(members[k], a, b);
    }
    SolveNotifications.SubsetCardinality(sa, sb);
  }

  /** How many days the year has had so far, for the stars progress. */
  function Days(year: int, mostRecent: AocDay): nat
    requires IsPuzzleDay(mostRecent)
  {
    if year == mostRecent.year then mostRecent.day else 25
  }

  lemma DaysBounds(year: int, now: int)
    ensures var days := Days(year, MostRecent(now));
      1 <= days <= 25 && (year != MostRecent(now).year ==> days == 25)
  {
  }

  /**
   * `x.map(Reverse) >= y.map(Reverse)` on optional timestamps: no timestamp
   * is below every timestamp, and among timestamps the earlier is greater.
   */
  predicate NoLaterThan(x: Option<int>, y: Option<int>) {
    match y
    case None => true
    case Some(t) => x.Some? && x.value <= t
  }

  /** The rank on one part of one day: how many members have `mine` no later than theirs. */
  function PartRank(members: map<string, Member>, day: nat, second: bool, mine: Option<int>): nat {
    |set k | k in members && NoLaterThan(PartTs(members[k], day, second), mine)|
  }

  /**
   * With a timestamp, the rank counts exactly the members who solved that
   * part no later, so members without the part are not counted, and a member
   * who holds that timestamp ranks at least 1. Without one, every member is
   * counted (such a rank is never shown).
   */
  lemma PartRankCounts(members: map<string, Member>, day: nat, second: bool, mine: Option<int>)
    ensures mine.Some? ==>
      PartRank(members, day, second, mine) ==
        |set k | k in members && PartTs(members[k], day, second).Some? && PartTs(members[k], day, second).value <= mine.value|
    ensures mine.None? ==> PartRank(members, day, second, mine) == |members|
    ensures (exists k :: k in members && PartTs(members[k], day, second) == mine) ==>
      PartRank(members, day, second, mine) >= 1
  {
    var counted := set k | k in members && NoLaterThan(PartTs(members[k], day, second), mine);
    if mine.Some? {
      assert counted == set k | k in members && PartTs(members[k], day, second).Some? && PartTs(members[k], day, second).value <= mine.value;
    } else {
      assert counted == members.Keys;
    }
    if k :| k in members && PartTs(members[k], day, second) == mine {
      assert k in counted;
    }
  }

  /**
   * One row of the per-day table: nothing for an unsolved day; otherwise the
   * part 1 time, its delay after the unlock and its rank; and, when part 2 is
   * solved too, its time, the delay after part 1 and after the unlock, and
   * its rank.
   */
  datatype DayRow =
    | Unsolved(day: nat)
    | FirstPart(day: nat, p1: int, p1Delay: int, rank1: nat)
    | BothParts(day: nat, p1: int, p1Delay: int, rank1: nat, p2: int, p2Split: int, p2Delay: int, rank2: nat)

  function DayRowOf(members: map<string, Member>, user: Member, year: int, d: nat): (row: DayRow)
    requires 1 <= d <= 25
  {
    var unlock := UnlockInstant(AocDay(year, d));
    var p1 := PartTs(user, d, false);
    var p2 := PartTs(user, d, true);
    var rank1 := PartRank(members, d, false, p1);
    var rank2 := PartRank(members, d, true, p2);
    match p1
    case None => Unsolved(d)
    case Some(t1) =>
      match p2
      case None => FirstPart(d, t1, t1 - unlock, rank1)
      case Some(t2) => BothParts(d, t1, t1 - unlock, rank1, t2, t2 - t1, t2 - unlock, rank2)
  }

  /**
   * A day shows a part 2 cell only when part 1 is shown, which is whenever
   * the member has the day; the ranks shown count members no later, so they
   * are at least 1 when the member is on the leaderboard.
   */
  lemma DayRowShape(members: map<string, Member>, user: Member, year: int, d: nat)
    requires 1 <= d <= 25
    ensures var row := DayRowOf(members, user, year, d);
      && row.day == d
      && (row.Unsolved? <==> d !in user.completionDayLevel)
      && (row.BothParts? <==> d in user.completionDayLevel && user.completionDayLevel[d].snd.Some?)
      && (!row.Unsolved? ==>
            row.p1 == user.completionDayLevel[d].fst.getStarTs && row.p1Delay == row.p1 - UnlockInstant(AocDay(year, d)))
      && (row.BothParts? ==>
            row.p2 == user.completionDayLevel[d].snd.value.getStarTs && row.p2Split == row.p2 - row.p1)
      && (user in members.Values && !row.Unsolved? ==> row.rank1 >= 1)
      && (user in members.Values && row.BothParts? ==> row.rank2 >= 1)
  {
    if user in members.Values {
      var k :| k in members && members[k] == user;
      PartRankCounts(members, d, false, PartTs(user, d, false));
      PartRankCounts(members, d, true, PartTs(user, d, true));
    }
  }

  /** The `for d in 1..=days` loop. */
  method DayRows(members: map<string, Member>, user: Member, year: int, days: nat) returns (rows: seq<DayRow>)
    requires days <= 25
    ensures |rows| == days
    ensures forall i :: 0 <= i < days ==> rows[i] == DayRowOf(members, user, year, i + 1)
  {
    rows := [];
    var d := 1;
    while d <= days
      invariant 1 <= d <= days + 1
      invariant |rows| == d - 1
      invariant forall i :: 0 <= i < d - 1 ==> rows[i] == DayRowOf(members, user, year, i + 1)
    {
      rows := rows + [DayRowOf(members, user, year, d)];
      d := d + 1;
    }
  }

  /** The reply the command posts. */
  datatype Reply =
    | YearNotParsed
    | UserNotFound
    | Stats(member: Member, matrixName: string, repo: string, rank: nat, days: nat, maxStars: nat, rows: seq<DayRow>)

  /**
   * `invoke`, at `now`, by `sender`, mentioning `mentions`. The `user` and
   * then the `year` argument are taken from the command; a bad year is
   * answered without a lookup; a failed lookup is an error of the command.
   */
  method Invoke(client: AocClient, cmd: ParsedCommand, sender: string, mentions: seq<string>,
                users: ContextUsers, now: int, raced: Option<CacheEntry>)
    returns (r: Result<Reply, Error>, order: seq<string>)
    requires Ascending(mentions)
    modifies client, client.api, client.store, cmd
    ensures client.store.writable == old(client.store.writable)
    ensures
      var mostRecent := MostRecent(now);
      var (userArg, rest) := KwargOrArg(old(cmd.kwargs), old(cmd.args), "user");
      var (yearArg, rest') := KwargOrArg(old(cmd.kwargs), rest, "year");
      var year := ResolveYear(yearArg, mostRecent.year);
      && cmd.command == old(cmd.command) && cmd.kwargs == old(cmd.kwargs) && cmd.args == rest'
      && (year.None? ==>
            && r == Ok(YearNotParsed)
            && client.cache == old(client.cache) && client.store.saved == old(client.store.saved)
            && client.api.requests == old(client.api.requests))
      && (year.Some? ==>
            var o := client.Outcome(old(client.cache), old(client.store.saved), year.value, now, false, raced);
            && client.Reflects(o, year.value, old(client.api.requests))
            && (o.result.Err? ==> r == Err(o.result.error))
            && (o.result.Ok? ==>
                  var members := o.result.value.leaderboard.members;
                  && Enumerates(order, members)
                  && var found := FindMember(userArg, sender, mentions, members, order, users.byMatrix);
                  && (found.None? ==> r == Ok(UserNotFound))
                  && (found.Some? ==>
                        && r.Ok? && r.value.Stats? && r.value.member == found.value
                        && (r.value.matrixName, r.value.repo) == LinkedColumns(users.byAoc, found.value.id)
                        && r.value.rank == OverallRank(members, found.value)
                        && r.value.days == Days(year.value, mostRecent)
                        && r.value.maxStars == 2 * r.value.days
                        && |r.value.rows| == r.value.days
                        && forall i :: 0 <= i < r.value.days ==>
                             r.value.rows[i] == DayRowOf(members, found.value, year.value, i + 1))))
  {
    order := [];
    var mostRecent := MostRecent(now);
    var userArg := cmd.GetFromKwargsOrArgs("user");
    var yearArg := cmd.GetFromKwargsOrArgs("year");
    var year := ResolveYear(yearArg, mostRecent.year);
    if year.None? {
      return Ok(YearNotParsed), order;
    }
    var got := client.GetPrivateLeaderboard(year.value, now, false, raced);
    if got.Err? {
      return Err(got.error), order;
    }
    var members := got.value.leaderboard.members;
    order := EnumerateKeys(members);
    var reply := Respond(members, order, userArg, sender, mentions, users, year.value, mostRecent);
    r := Ok(reply);
  }

  /** The reply once the leaderboard is known: "User not found", or the member's stats. */
  method Respond(members: map<string, Member>, order: seq<string>, userArg: Option<string>, sender: string,
                 mentions: seq<string>, users: ContextUsers, year: int, mostRecent: AocDay)
    returns (r: Reply)
    requires Enumerates(order, members) && Ascending(mentions) && IsPuzzleDay(mostRecent)
    ensures var found := FindMember(userArg, sender, mentions, members, order, users.byMatrix);
      && (found.None? ==> r == UserNotFound)
      && (found.Some? ==>
            && r.Stats? && r.member == found.value
            && (r.matrixName, r.repo) == LinkedColumns(users.byAoc, found.value.id)
            && r.rank == OverallRank(members, found.value)
            && r.days == Days(year, mostRecent)
            && r.maxStars == 2 * r.days
            && |r.rows| == r.days
            && forall i :: 0 <= i < r.days ==> r.rows[i] == DayRowOf(members, found.value, year, i + 1))
  {
    var found := FindMember(userArg, sender, mentions, members, order, users.byMatrix);
    if found.None? {
      return UserNotFound;
    }
    var days := Days(year, mostRecent);
    var rows := DayRows(members, found.value, year, days);
    var (matrixName, repo) := LinkedColumns(users.byAoc, found.value.id);
    r := Stats(found.value, matrixName, repo, OverallRank(members, found.value), days, 2 * days, rows);
  }
}
