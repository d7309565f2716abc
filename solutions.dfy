/**
 * The `solutions` chat command (src/matrix/commands/aoc/solutions.rs): one
 * row per configured user with a repository, linked to that user's member of
 * the current leaderboard when there is one, and sorted so that linked rows
 * come first in member order, then by name. The HTML is not modelled.
 */
module Solutions {
  import opened Wrappers
  import opened Day
  import opened Models
  import opened Sorting
  import opened Client
  import opened Context

  /** A row: the linked member, the name shown, the Matrix link and the repository. */
  datatype SolutionRow = SolutionRow(member: Option<Member>, name: string, matrixName: string, repo: string)

  function IdKey(): Member -> Option<nat> {
    (m: Member) => Some(m.id)
  }

  /** The leaderboard's members by id, visited in `order`. */
  function ById(members: map<string, Member>, order: seq<string>): (byId: map<nat, Member>)
    requires forall k :: k in order ==> k in members
    ensures forall id :: id in byId <==> exists k :: k in order && members[k].id == id
    ensures forall id :: id in byId ==> byId[id].id == id && byId[id] in members.Values
  {
    var vs := Values(members, order);
    var byId := Index(vs, IdKey());
    forall id
      ensures id in byId <==> exists k :: k in order && members[k].id == id
    {
      if id in byId {
        var i :| 0 <= i < |vs| && IdKey()(vs[i]) == Some(id);
        assert order[i] in order && members[order[i]].id == id;
      }
      if exists k :: k in order && members[k].id == id {
        var k :| k in order && members[k].id == id;
        var i :| 0 <= i < |order| && order[i] == k;
        assert IdKey()(vs[i]) == Some(id);
      }
    }
    forall id | id in byId
      ensures byId[id] in members.Values
    {
      var i :| 0 <= i < |vs| && vs[i] == byId[id];
      assert members[order[i]] == byId[id];
    }
    byId
  }

  /** The row of a user who has a repository. */
  function RowFor(u: User, byId: map<nat, Member>): (row: SolutionRow)
    requires u.repo.Some?
    ensures row.member.Some? <==> u.aoc.Some? && u.aoc.value in byId
    ensures row.member.Some? ==> row.member.value == byId[u.aoc.value] && row.name == DisplayName(row.member.value)
    ensures row.member.None? ==> row.name == ""
    ensures row.repo == u.repo.value
  {
    var member := if u.aoc.Some? && u.aoc.value in byId then Some(byId[u.aoc.value]) else None;
    SolutionRow(
      member,
      if member.Some? then DisplayName(member.value) else "",
      if u.matrix.Some? then MatrixToUri(u.matrix.value) else "",
      u.repo.value)
  }

  /** The users with a repository, in configuration order. */
  function WithRepo(users: seq<User>): (r: seq<User>)
    ensures |r| <= |users|
    ensures forall i :: 0 <= i < |r| ==> r[i].repo.Some?
  {
    if users == [] then []
    else
      var init := users[..|users| - 1];
      var last := users[|users| - 1];
      if last.repo.Some? then WithRepo(init) + [last] else WithRepo(init)
  }

  /** Every user with a repository is kept, as often as it occurs, and no other. */
  lemma {:induction false} WithRepoKeeps(users: seq<User>)
    ensures forall u: User :: u.repo.Some? ==> multiset(WithRepo(users))[u] == multiset(users)[u]
    ensures forall u: User :: u.repo.None? ==> multiset(WithRepo(users))[u] == 0
  {
    if users != [] {
      var init := users[..|users| - 1];
      var last := users[|users| - 1];
      assert users == init + [last];
      WithRepoKeeps(init);
    }
  }

  /** The rows, one per user with a repository, in configuration order. */
  function Rows(users: seq<User>, byId: map<nat, Member>): (rows: seq<SolutionRow>)
    ensures |rows| == |WithRepo(users)|
    ensures forall i :: 0 <= i < |rows| ==> rows[i] == RowFor(WithRepo(users)[i], byId)
  {
    var withRepo := WithRepo(users);
    seq(|withRepo|, i requires 0 <= i < |withRepo| => RowFor(withRepo[i], byId))
  }

  /** One more user adds its row, if it has a repository. */
  lemma RowsStep(users: seq<User>, u: User, byId: map<nat, Member>)
    ensures Rows(users + [u], byId) == Rows(users, byId) + (if u.repo.Some? then [RowFor(u, byId)] else [])
  {
    var all := users + [u];
    assert all[..|all| - 1] == users;
    var extra := if u.repo.Some? then [u] else [];
    assert WithRepo(all) == WithRepo(users) + extra;
    var a := Rows(all, byId);
    var b := Rows(users, byId) + (if u.repo.Some? then [RowFor(u, byId)] else []);
    assert |a| == |b|;
    forall i | 0 <= i < |a|
      ensures a[i] == b[i]
    {
      if i < |WithRepo(users)| {
        assert WithRepo(all)[i] == WithRepo(users)[i];
      } else {
        assert WithRepo(all)[i] == u;
      }
    }
  }

  /** The `for user in &config.users` loop, which skips users without a repository. */
  method BuildRows(users: seq<User>, byId: map<nat, Member>) returns (rows: seq<SolutionRow>)
    ensures rows == Rows(users, byId)
  {
    rows := [];
    var i := 0;
    assert users[..0] == [];
    while i < |users|
      invariant 0 <= i <= |users|
      invariant rows == Rows(users[..i], byId)
    {
      assert users[..i + 1] == users[..i] + [users[i]];
      RowsStep(users[..i], users[i], byId);
      if users[i].repo.Some? {
        rows := rows + [RowFor(users[i], byId)];
      }
      i := i + 1;
    }
    assert users[..i] == users;
  }

  /** Lexicographic order of strings, by character code. */
  function CompareStrings(a: string, b: string): Ordering {
    if a == [] && b == [] then Equal
    else if a == [] then Less
    else if b == [] then Greater
    else Lex(CompareInt(a[0] as int, b[0] as int), CompareStrings(a[1..], b[1..]))
  }

  /**
   * The first part of the sort key, `Reverse(member.map(Reverse))`: a row
   * with a member before one without, and members in member order.
   */
  function CompareSlots(a: Option<Member>, b: Option<Member>): Ordering {
    match (a, b)
    case (Some(x), Some(y)) => Compare(x, y)
    case (Some(_), None) => Less
    case (None, Some(_)) => Greater
    case (None, None) => Equal
  }

  /** The `sort_unstable_by` comparison: the member slot, then the name. */
  function CompareRows(a: SolutionRow, b: SolutionRow): Ordering {
    Lex(CompareSlots(a.member, b.member), CompareStrings(a.name, b.name))
  }

  function RowLe(): (le: (SolutionRow, SolutionRow) -> bool)
    ensures forall a, b :: le(a, b) == (CompareRows(a, b) != Greater)
  {
    (a: SolutionRow, b: SolutionRow) => CompareRows(a, b) != Greater
  }

  lemma {:induction false} CompareStringsFlip(a: string, b: string)
    ensures CompareStrings(b, a) == CompareStrings(a, b).Flip()
  {
    if a != [] && b != [] {
      CompareStringsFlip(a[1..], b[1..]);
    }
  }

  lemma {:induction false} CompareStringsTransitive(a: string, b: string, c: string)
    ensures CompareStrings(a, b) != Greater && CompareStrings(b, c) != Greater ==> CompareStrings(a, c) != Greater
    ensures CompareStrings(a, b) == Less && CompareStrings(b, c) != Greater ==> CompareStrings(a, c) == Less
    ensures CompareStrings(a, b) != Greater && CompareStrings(b, c) == Less ==> CompareStrings(a, c) == Less
    ensures CompareStrings(a, b) == Equal && CompareStrings(b, c) == Equal ==> CompareStrings(a, c) == Equal
  {
    if a != [] && b != [] && c != [] {
      CompareStringsTransitive(a[1..], b[1..], c[1..]);
    }
  }

  lemma CompareSlotsLaws(a: Option<Member>, b: Option<Member>, c: Option<Member>)
    ensures CompareSlots(b, a) == CompareSlots(a, b).Flip()
    ensures CompareSlots(a, b) != Greater && CompareSlots(b, c) != Greater ==> CompareSlots(a, c) != Greater
    ensures CompareSlots(a, b) == Less && CompareSlots(b, c) != Greater ==> CompareSlots(a, c) == Less
    ensures CompareSlots(a, b) != Greater && CompareSlots(b, c) == Less ==> CompareSlots(a, c) == Less
    ensures CompareSlots(a, b) == Equal && CompareSlots(b, c) == Equal ==> CompareSlots(a, c) == Equal
  {
    if a.Some? && b.Some? {
      CompareAntisymmetric(a.value, b.value);
      if c.Some? {
        CompareIsRanking(a.value, b.value);
        CompareIsRanking(b.value, c.value);
        CompareIsRanking(a.value, c.value);
      }
    }
  }

  /** The row order is total and transitive, so the sorted rows are sorted. */
  lemma RowOrderIsTotalPreorder()
    ensures TotalPreorder(RowLe())
  {
    var le := RowLe();
    forall x, y
      ensures le(x, y) || le(y, x)
    {
      CompareSlotsLaws(x.member, y.member, y.member);
      CompareStringsFlip(x.name, y.name);
    }
    forall x, y, z | le(x, y) && le(y, z)
      ensures le(x, z)
    {
      CompareSlotsLaws(x.member, y.member, z.member);
      CompareStringsTransitive(x.name, y.name, z.name);
    }
  }

  /** Two rows without a member compare Equal: neither goes first. */
  lemma UnlinkedRowsTie(u: User, v: User, byId: map<nat, Member>)
    requires u.repo.Some? && v.repo.Some?
    requires RowFor(u, byId).member.None? && RowFor(v, byId).member.None?
    ensures CompareRows(RowFor(u, byId), RowFor(v, byId)) == Equal
  {
  }

  /**
   * In the sorted rows, every row with a member comes before every row
   * without one, and rows with members follow member order, best first. The
   * rows without a member all carry the empty name, so the name decides
   * nothing among them and `sort_unstable_by` may list them in any order.
   */
  lemma SortedRowsOrder(rows: seq<SolutionRow>)
    ensures var sorted := SortBy(rows, RowLe());
      && multiset(sorted) == multiset(rows)
      && forall i, j :: 0 <= i < j < |sorted| ==>
           && (sorted[j].member.Some? ==> sorted[i].member.Some?)
           && (sorted[i].member.Some? && sorted[j].member.Some? ==>
                 Le(sorted[i].member.value, sorted[j].member.value))
  {
    RowOrderIsTotalPreorder();
    SortBySorted(rows, RowLe());
    var sorted := SortBy(rows, RowLe());
    forall i, j | 0 <= i < j < |sorted|
      ensures sorted[j].member.Some? ==> sorted[i].member.Some?
      ensures sorted[i].member.Some? && sorted[j].member.Some? ==>
                Le(sorted[i].member.value, sorted[j].member.value)
    {
      assert RowLe()(sorted[i], sorted[j]);
    }
  }

  /**
   * `invoke`: the rows for the most recent event's leaderboard at `now`,
   * sorted; a failed lookup is an error of the command.
   */
  method Invoke(client: AocClient, users: seq<User>, now: int, raced: Option<CacheEntry>)
    returns (r: Result<seq<SolutionRow>, Error>, order: seq<string>)
    modifies client, client.api, client.store
    ensures client.store.writable == old(client.store.writable)
    ensures var year := MostRecent(now).year;
      var o := client.Outcome(old(client.cache), old(client.store.saved), year, now, false, raced);
      && client.Reflects(o, year, old(client.api.requests))
      && (o.result.Err? ==> r == Err(o.result.error))
      && (o.result.Ok? ==>
            var members := o.result.value.leaderboard.members;
            && Enumerates(order, members)
            && r == Ok(SortBy(Rows(users, ById(members, order)), RowLe())))
  {
    order := [];
    var got := client.GetPrivateLeaderboard(MostRecent(now).year, now, false, raced);
    if got.Err? {
      return Err(got.error), order;
    }
    var members := got.value.leaderboard.members;
    order := EnumerateKeys(members);
    var rows := BuildRows(users, ById(members, order));
    r := Ok(SortBy(rows, RowLe()));
  }
}
