/**
 * The `leaderboard` chat command (src/matrix/commands/aoc/leaderboard.rs):
 * its arguments, the permission check for a forced refresh, and the ranked
 * slice of the private leaderboard it shows. The HTML table is not modelled;
 * a row is its rank, its member and whether it is shown in bold.
 */
module LeaderboardCommand {
  import opened Wrappers
  import opened Text
  import opened Day
  import opened Models
  import opened Sorting
  import opened Client
  import opened Context

  /** What a single argument sets. */
  datatype ArgKind = YearArg(year: int) | CountArg(count: nat) | RefreshArg | InvalidArg

  /**
   * An `i32` of at least 2015 is a year; otherwise a `usize` of at most 200
   * is a row count or offset; otherwise "-r" or "--refresh"; anything else is
   * invalid.
   */
  function Classify(arg: string): ArgKind {
    var asYear := ParseI32(arg);
    var asCount := ParseU64(arg);
    if asYear.Some? && asYear.value >= 2015 then YearArg(asYear.value)
    else if asCount.Some? && asCount.value <= 200 then CountArg(asCount.value)
    else if arg == "-r" || arg == "--refresh" then RefreshArg
    else InvalidArg
  }

  /**
   * A number written in decimal is a year from 2015 up to the largest `i32`,
   * a count from 0 to 200, and invalid otherwise (201..2014, negatives, and
   * values too large for an `i32`).
   */
  lemma ClassifyNumber(n: int)
    ensures Classify(IntToString(n)) ==
      if 2015 <= n <= I32Max then YearArg(n)
      else if 0 <= n <= 200 then CountArg(n)
      else InvalidArg
  {
    if n >= 0 {
      ClassifyNonNegative(n);
    } else {
      NegativeParses(n);
    }
  }

  /** A printed non-negative number parses as a `usize` or an `i32` exactly when it fits the type. */
  lemma ClassifyNonNegative(n: nat)
    ensures ParseU64(IntToString(n)) == if n <= U64Max then Some(n) else None
    ensures ParseI32(IntToString(n)) == if n <= I32Max then Some(n) else None
  {
    DigitsOfNat(n);
  }

  /** A printed negative number is no `usize`, and an `i32` only within its range. */
  lemma NegativeParses(n: int)
    requires n < 0
    ensures ParseU64(IntToString(n)).None?
    ensures ParseI32(IntToString(n)) == if I32Min <= n then Some(n) else None
  {
    var s := IntToString(n);
    DigitsOfNat(-n);
    assert s[1..] == NatToString(-n);
    assert !AllDigits(s) by {
      assert !IsDigit(s[0]);
    }
  }

  /** The command's settings once every argument is read. */
  datatype Args = Args(year: int, rows: nat, offset: nat, refresh: bool)

  /** What each argument sets, in order. */
  function Kinds(args: seq<string>): (kinds: seq<ArgKind>)
    ensures |kinds| == |args| && forall i :: 0 <= i < |args| ==> kinds[i] == Classify(args[i])
  {
    seq(|args|, i requires 0 <= i < |args| => Classify(args[i]))
  }

  /** The years the arguments name, in order. */
  function Years(kinds: seq<ArgKind>): seq<int> {
    if kinds == [] then []
    else Years(kinds[..|kinds| - 1]) + (match kinds[|kinds| - 1] case YearArg(y) => [y] case _ => [])
  }

  /** The counts the arguments name, in order. */
  function Counts(kinds: seq<ArgKind>): seq<nat> {
    if kinds == [] then []
    else Counts(kinds[..|kinds| - 1]) + (match kinds[|kinds| - 1] case CountArg(c) => [c] case _ => [])
  }

  /**
   * The settings the arguments give, or None ("Invalid arguments") when one
   * of them is invalid. The year is the last one named (default: the most
   * recent event's), the rows the first count (default: the configured
   * number), the offset the last count after the first (default 0), and a
   * refresh is forced when asked for anywhere.
   */
  function ArgsOf(kinds: seq<ArgKind>, mostRecentYear: int, defaultRows: nat): Option<Args> {
    if InvalidArg in kinds then None
    else
      var years := Years(kinds);
      var counts := Counts(kinds);
      Some(Args(
        if years == [] then mostRecentYear else years[|years| - 1],
        if counts == [] then defaultRows else counts[0],
        if |counts| < 2 then 0 else counts[|counts| - 1],
        RefreshArg in kinds))
  }

  /** The `for arg in args` loop, which stops at the first invalid argument. */
  method ParseArgs(args: seq<string>, mostRecentYear: int, defaultRows: nat) returns (r: Option<Args>)
    ensures r == ArgsOf(Kinds(args), mostRecentYear, defaultRows)
  {
    r := ReadKinds(Kinds(args), mostRecentYear, defaultRows);
  }

  /** The loop's variables hold what the arguments in `prefix` set. */
  predicate ReadSoFar(prefix: seq<ArgKind>, mostRecentYear: int,
    year: int, rows: Option<nat>, offset: nat, refresh: bool)
  {
    var years := Years(prefix);
    var counts := Counts(prefix);
    && InvalidArg !in prefix
    && year == (if years == [] then mostRecentYear else years[|years| - 1])
    && (rows.None? <==> counts == [])
    && (rows.Some? ==> rows.value == counts[0])
    && offset == (if |counts| < 2 then 0 else counts[|counts| - 1])
    && (refresh <==> RefreshArg in prefix)
  }

  /** What reading one more valid argument does to the loop's variables. */
  lemma ReadStep(prefix: seq<ArgKind>, k: ArgKind, mostRecentYear: int,
    year: int, rows: Option<nat>, offset: nat, refresh: bool)
    requires ReadSoFar(prefix, mostRecentYear, year, rows, offset, refresh)
    ensures k.YearArg? ==> ReadSoFar(prefix + [k], mostRecentYear, k.year, rows, offset, refresh)
    ensures k.CountArg? && rows.None? ==> ReadSoFar(prefix + [k], mostRecentYear, year, Some(k.count), offset, refresh)
    ensures k.CountArg? && rows.Some? ==> ReadSoFar(prefix + [k], mostRecentYear, year, rows, k.count, refresh)
    ensures k.RefreshArg? ==> ReadSoFar(prefix + [k], mostRecentYear, year, rows, offset, true)
  {
    var next := prefix + [k];
    assert next[..|next| - 1] == prefix;
  }

  method ReadKinds(kinds: seq<ArgKind>, mostRecentYear: int, defaultRows: nat) returns (r: Option<Args>)
    ensures r == ArgsOf(kinds, mostRecentYear, defaultRows)
  {
    var year := mostRecentYear;
    var offset := 0;
    var rows: Option<nat> := None;
    var refresh := false;
    var i := 0;
    while i < |kinds|
      invariant 0 <= i <= |kinds|
      invariant ReadSoFar(kinds[..i], mostRecentYear, year, rows, offset, refresh)
    {
      ReadStep(kinds[..i], kinds[i], mostRecentYear, year, rows, offset, refresh);
      assert kinds[..i + 1] == kinds[..i] + [kinds[i]];
      match kinds[i] {
        case YearArg(y) =>
          year := y;
        case CountArg(c) =>
          if rows.None? {
            rows := Some(c);
          } else {
            offset := c;
          }
        case RefreshArg =>
          refresh := true;
        case InvalidArg =>
          assert InvalidArg in kinds;
          return None;
      }
      i := i + 1;
    }
    assert kinds[..i] == kinds;
    r := Some(Args(year, rows.UnwrapOr(defaultRows), offset, refresh));
  }

  /** Without arguments: the most recent event, the configured rows, no offset, no refresh. */
  lemma NoArgs()
    ensures ArgsOf(Kinds([]), 2024, 20) == Some(Args(2024, 20, 0, false))
  {
  }

  /** "2020" is a year; "2014" is too early for one and too large for a count. */
  lemma ClassifyYearExamples()
    ensures Classify("2020") == YearArg(2020) && Classify("2014") == InvalidArg
  {
    assert Classify("2020") == YearArg(2020) by {
      assert IntToString(2020) == "2020";
      ClassifyNumber(2020);
    }
    assert IntToString(2014) == "2014";
    ClassifyNumber(2014);
  }

  /** "200" is the largest count; "201" is invalid. */
  lemma ClassifyCountExamples()
    ensures Classify("200") == CountArg(200) && Classify("201") == InvalidArg
  {
    assert Classify("200") == CountArg(200) by {
      assert IntToString(200) == "200";
      ClassifyNumber(200);
    }
    assert IntToString(201) == "201";
    ClassifyNumber(201);
  }

  /** Both spellings of the refresh flag are recognised. */
  lemma ClassifyFlagExamples()
    ensures Classify("-r") == RefreshArg && Classify("--refresh") == RefreshArg
  {
  }

  /** A later year overrides an earlier one, and a flag may come anywhere. */
  lemma YearAndFlagArgs()
    ensures ArgsOf([YearArg(2020), CountArg(10), RefreshArg, YearArg(2022)], 2024, 20)
         == Some(Args(2022, 10, 0, true))
  {
    var kinds := [YearArg(2020), CountArg(10), RefreshArg, YearArg(2022)];
    YearAndFlagKinds();
    assert kinds[2] == RefreshArg;
    assert InvalidArg !in kinds;
  }

  /** The years and counts the arguments of `YearAndFlagArgs` name. */
  lemma YearAndFlagKinds()
    ensures var kinds := [YearArg(2020), CountArg(10), RefreshArg, YearArg(2022)];
      Years(kinds) == [2020, 2022] && Counts(kinds) == [10]
  {
    var k1 := [YearArg(2020)];
    var k2 := k1 + [CountArg(10)];
    var k3 := k2 + [RefreshArg];
    var kinds := k3 + [YearArg(2022)];
    assert k1[..0] == [] && k2[..1] == k1 && k3[..2] == k2 && kinds[..3] == k3;
    assert Years(k1) == [2020] && Counts(k1) == [];
    assert Years(k2) == [2020] && Counts(k2) == [10];
    assert Years(k3) == [2020] && Counts(k3) == [10];
    assert kinds == [YearArg(2020), CountArg(10), RefreshArg, YearArg(2022)];
  }

  /** The first count is the number of rows, the last later one the offset. */
  lemma CountArgs()
    ensures ArgsOf([CountArg(5), CountArg(10), CountArg(30)], 2024, 20) == Some(Args(2024, 5, 30, false))
  {
    var k1 := [CountArg(5)];
    var k2 := k1 + [CountArg(10)];
    var kinds := k2 + [CountArg(30)];
    assert k1[..0] == [] && k2[..1] == k1 && kinds[..2] == k2;
    assert Years(k1) == [] && Counts(k1) == [5];
    assert Years(k2) == [] && Counts(k2) == [5, 10];
    assert Years(kinds) == [] && Counts(kinds) == [5, 10, 30];
    assert kinds == [CountArg(5), CountArg(10), CountArg(30)];
    assert InvalidArg !in kinds && RefreshArg !in kinds;
  }

  /** A forced refresh is refused ("Permission denied") unless the sender is an admin. */
  predicate Permitted(args: Args, sender: string, admins: set<string>) {
    !args.refresh || sender in admins
  }

  const U32Max := 0xffff_ffff

  /** The first index of the run of equal scores that ends at `i`. */
  function RunStart(scores: seq<nat>, i: nat): (j: nat)
    requires i < |scores|
    ensures j <= i && forall k :: j <= k <= i ==> scores[k] == scores[i]
    ensures j > 0 ==> scores[j - 1] != scores[i]
  {
    if i == 0 || scores[i - 1] != scores[i] then i else RunStart(scores, i - 1)
  }

  /**
   * The rank the loop gives the member at index `i`: 1 + the start of its
   * run of equal scores. The loop starts with `last_score = u32::MAX` and
   * `rank = 0`, so a first run scoring exactly `u32::MAX` keeps rank 0.
   */
  function RankAt(scores: seq<nat>, i: nat): nat
    requires i < |scores|
  {
    var start := RunStart(scores, i);
    if start == 0 && scores[0] == U32Max then 0 else start + 1
  }

  function Ranks(scores: seq<nat>): seq<nat> {
    seq(|scores|, i requires 0 <= i < |scores| => RankAt(scores, i))
  }

  /** The rank closure over the sorted members' local scores. */
  method AssignRanks(scores: seq<nat>) returns (ranks: seq<nat>)
    ensures ranks == Ranks(scores)
  {
    var lastScore := U32Max;
    var rank := 0;
    ranks := [];
    var i := 0;
    while i < |scores|
      invariant 0 <= i <= |scores|
      invariant |ranks| == i
      invariant forall k :: 0 <= k < i ==> ranks[k] == RankAt(scores, k)
      invariant i > 0 ==> lastScore == scores[i - 1] && rank == RankAt(scores, i - 1)
      invariant i == 0 ==> lastScore == U32Max && rank == 0
    {
      if scores[i] != lastScore {
        lastScore := scores[i];
        rank := i + 1;
      }
      ranks := ranks + [rank];
      i := i + 1;
    }
  }

  predicate NonIncreasing(scores: seq<nat>) {
    forall i, j :: 0 <= i < j < |scores| ==> scores[i] >= scores[j]
  }

  /**
   * On scores sorted best first (none equal to `u32::MAX`), a member's rank
   * is 1 + the index of the first member with the same score: tied members
   * share a rank, and the next score's rank skips the places the tie took.
   */
  lemma RankIsFirstWithSameScore(scores: seq<nat>, i: nat)
    requires NonIncreasing(scores) && i < |scores| && scores[0] != U32Max
    ensures RankAt(scores, i) >= 1
    ensures scores[RankAt(scores, i) - 1] == scores[i]
    ensures forall k :: 0 <= k < RankAt(scores, i) - 1 ==> scores[k] > scores[i]
  {
    var start := RunStart(scores, i);
    if start > 0 {
      assert scores[start - 1] > scores[i];
      forall k | 0 <= k < start
        ensures scores[k] > scores[i]
      {
        assert scores[k] >= scores[start - 1];
      }
    }
  }

  lemma RankExample()
    ensures var scores := [100, 100, 80, 50, 50];
      RankAt(scores, 0) == 1 && RankAt(scores, 1) == 1 && RankAt(scores, 2) == 3
      && RankAt(scores, 3) == 4 && RankAt(scores, 4) == 4
  {
  }

  /** `skip(offset).take(rows)` */
  function Window<T>(all: seq<T>, offset: nat, rows: nat): (w: seq<T>)
    ensures |w| <= rows
    ensures forall j :: 0 <= j < |w| ==> offset + j < |all| && w[j] == all[offset + j]
    ensures |w| == if offset >= |all| then 0 else if |all| - offset < rows then |all| - offset else rows
  {
    if offset >= |all| then []
    else if |all| - offset <= rows then all[offset..]
    else all[offset..offset + rows]
  }

  /**
   * One row of the table: the rank shown, the member, whether the row is
   * bold (ranks 1 to 3), and the Matrix link and repository of the
   * configured user with the member's id ("" when there is none).
   */
  datatype Row = Row(rank: nat, member: Member, bold: bool, matrixName: string, repo: string)

  /** The ranked table of sorted members, before the window is cut out of it. */
  function RankedRows(sorted: seq<Member>, ranks: seq<nat>, byAoc: map<nat, User>): (rows: seq<Row>)
    requires |ranks| == |sorted|
    ensures |rows| == |sorted|
    ensures forall i :: 0 <= i < |rows| ==>
      && rows[i].member == sorted[i] && rows[i].rank == ranks[i] && (rows[i].bold <==> ranks[i] <= 3)
      && (rows[i].matrixName, rows[i].repo) == LinkedColumns(byAoc, sorted[i].id)
  {
    seq(|sorted|, i requires 0 <= i < |sorted| =>
      var (matrixName, repo) := LinkedColumns(byAoc, sorted[i].id);
      Row(ranks[i], sorted[i], ranks[i] <= 3, matrixName, repo))
  }

  function LocalScores(ms: seq<Member>): (scores: seq<nat>)
    ensures |scores| == |ms| && forall i :: 0 <= i < |ms| ==> scores[i] == ms[i].localScore
  {
    seq(|ms|, i requires 0 <= i < |ms| => ms[i].localScore)
  }

  /** The reply the command posts. */
  datatype Reply =
    | InvalidArguments
    | PermissionDenied
    | FetchFailed(year: int, status: nat)
    | Table(year: int, rows: seq<Row>)

  /**
   * `invoke`, at `now`, by `sender`. Bad arguments and a refresh forced by a
   * non-admin are answered without looking the leaderboard up. A lookup that
   * failed with an HTTP status is answered; other failures are errors of the
   * command. Otherwise the members are sorted best first, ranked, and the
   * window of `rows` rows from `offset` is shown.
   */
  method Invoke(client: AocClient, users: ContextUsers, args: seq<string>, sender: string,
                admins: set<string>, defaultRows: nat, now: int, raced: Option<CacheEntry>)
    returns (r: Result<Reply, Error>, order: seq<string>)
    modifies client, client.api, client.store
    ensures client.store.writable == old(client.store.writable)
    ensures var parsed := ArgsOf(Kinds(args), MostRecent(now).year, defaultRows);
      && (parsed.None? ==> r == Ok(InvalidArguments))
      && (parsed.Some? && !Permitted(parsed.value, sender, admins) ==> r == Ok(PermissionDenied))
      && (parsed.None? || !Permitted(parsed.value, sender, admins) ==>
            && client.cache == old(client.cache) && client.store.saved == old(client.store.saved)
            && client.api.requests == old(client.api.requests))
      && (parsed.Some? && Permitted(parsed.value, sender, admins) ==>
            var a := parsed.value;
            var o := client.Outcome(old(client.cache), old(client.store.saved), a.year, now, a.refresh, raced);
            && client.Reflects(o, a.year, old(client.api.requests))
            && (o.result.Err? && o.result.error.Fetch? && o.result.error.cause.Http? ==>
                  r == Ok(FetchFailed(a.year, o.result.error.cause.status)))
            && (o.result.Err? && !(o.result.error.Fetch? && o.result.error.cause.Http?) ==> r == Err(o.result.error))
            && (o.result.Ok? ==>
                  var members := o.result.value.leaderboard.members;
                  && Enumerates(order, members)
                  && var sorted := SortBy(Values(members, order), MemberLe());
                  && r == Ok(Table(a.year, Window(RankedRows(sorted, Ranks(LocalScores(sorted)), users.byAoc), a.offset, a.rows)))))
  {
    order := [];
    var mostRecentYear := MostRecent(now).year;
    var parsed := ParseArgs(args, mostRecentYear, defaultRows);
    if parsed.None? {
      return Ok(InvalidArguments), order;
    }
    var a := parsed.value;
    if !Permitted(a, sender, admins) {
      return Ok(PermissionDenied), order;
    }
    var got := client.GetPrivateLeaderboard(a.year, now, a.refresh, raced);
    if got.Err? {
      if got.error.Fetch? && got.error.cause.Http? {
        return Ok(FetchFailed(a.year, got.error.cause.status)), order;
      }
      return Err(got.error), order;
    }
    var members := got.value.leaderboard.members;
    order := EnumerateKeys(members);
    var sorted := SortBy(Values(members, order), MemberLe());
    var ranks := AssignRanks(LocalScores(sorted));
    r := Ok(Table(a.year, Window(RankedRows(sorted, ranks, users.byAoc), a.offset, a.rows)));
  }
}
