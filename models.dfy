/**
 * Private leaderboard data (src/aoc/models.rs): members, their completion
 * records, the order in which members are ranked and the names shown for them.
 * Timestamps are Unix seconds; the epoch (`DateTime::default()`) is 0.
 */
module Models {
  import opened Wrappers
  import opened Text
  import opened Sorting

  /** One solved part of a puzzle: when its star was earned. */
  datatype CompletionPart = CompletionPart(getStarTs: int, starIndex: nat)

  /** A solved puzzle day: part 1 is always there, part 2 only once solved. */
  datatype CompletionDay = CompletionDay(fst: CompletionPart, snd: Option<CompletionPart>)

  datatype Member = Member(
    id: nat,
    name: Option<string>,
    globalScore: nat,
    localScore: nat,
    stars: nat,
    lastStarTs: int,
    completionDayLevel: map<nat, CompletionDay>)

  /** Members are keyed by their id written in decimal, as the event's JSON has them. */
  datatype Leaderboard = Leaderboard(event: string, ownerId: nat, members: map<string, Member>)

  /** The members of the map, in the visiting order `order`. */
  function Values(members: map<string, Member>, order: seq<string>): (vs: seq<Member>)
    requires forall k :: k in order ==> k in members
    ensures |vs| == |order| && forall i :: 0 <= i < |order| ==> vs[i] == members[order[i]]
  {
    seq(|order|, i requires 0 <= i < |order| => members[order[i]])
  }

  /** When the member earned the star of part 1 (or, if `second`, part 2) of `day`. */
  function PartTs(m: Member, day: nat, second: bool): Option<int> {
    if day !in m.completionDayLevel then None
    else if !second then Some(m.completionDayLevel[day].fst.getStarTs)
    else match m.completionDayLevel[day].snd
      case Some(part) => Some(part.getStarTs)
      case None => None
  }

  /** `std::cmp::Ordering` */
  datatype Ordering = Less | Equal | Greater {
    function Flip(): Ordering {
      match this
      case Less => Greater
      case Equal => Equal
      case Greater => Less
    }
  }

  function CompareInt(a: int, b: int): Ordering {
    if a < b then Less else if a == b then Equal else Greater
  }

  /** Lexicographic combination: the first component decides unless it ties. */
  function Lex(first: Ordering, rest: Ordering): Ordering {
    if first == Equal then rest else first
  }

  /**
   * `Ord for PrivateLeaderboardMember`: compares the key
   * (Reverse(local_score), Reverse(stars), last_star_ts, id).
   */
  function Compare(a: Member, b: Member): Ordering {
    Lex(CompareInt(b.localScore, a.localScore),
      Lex(CompareInt(b.stars, a.stars),
        Lex(CompareInt(a.lastStarTs, b.lastStarTs), CompareInt(a.id, b.id))))
  }

  /** `PartialOrd for PrivateLeaderboardMember` */
  function PartialCompare(a: Member, b: Member): Option<Ordering> {
    Some(Compare(a, b))
  }

  /** `a <= b` in member order: `a` is listed no later than `b`. */
  predicate Le(a: Member, b: Member) {
    Compare(a, b) != Greater
  }

  /**
   * The ranking rule in words: a higher local score first; on a tie more
   * stars first; then the earlier last star; then the smaller id.
   */
  predicate RanksAbove(a: Member, b: Member) {
    || a.localScore > b.localScore
    || (a.localScore == b.localScore && a.stars > b.stars)
    || (a.localScore == b.localScore && a.stars == b.stars && a.lastStarTs < b.lastStarTs)
    || (a.localScore == b.localScore && a.stars == b.stars && a.lastStarTs == b.lastStarTs && a.id < b.id)
  }

  predicate SameKey(a: Member, b: Member) {
    a.localScore == b.localScore && a.stars == b.stars && a.lastStarTs == b.lastStarTs && a.id == b.id
  }

  /** `Compare` is the ranking rule: Less, Equal and Greater mean above, same key and below. */
  lemma CompareIsRanking(a: Member, b: Member)
    ensures Compare(a, b) == Less <==> RanksAbove(a, b)
    ensures Compare(a, b) == Equal <==> SameKey(a, b)
    ensures Compare(a, b) == Greater <==> RanksAbove(b, a)
  {
  }

  /** Swapping the arguments flips the result; in particular a member compares Equal to itself. */
  lemma CompareAntisymmetric(a: Member, b: Member)
    ensures Compare(b, a) == Compare(a, b).Flip()
    ensures Compare(a, a) == Equal
  {
  }

  lemma CompareTransitive(a: Member, b: Member, c: Member)
    ensures Le(a, b) && Le(b, c) ==> Le(a, c)
    ensures Compare(a, b) == Less && Compare(b, c) == Less ==> Compare(a, c) == Less
  {
    CompareIsRanking(a, b);
    CompareIsRanking(b, c);
    CompareIsRanking(a, c);
  }

  /** Members with different ids never compare Equal. */
  lemma DistinctIdsNeverEqual(a: Member, b: Member)
    requires a.id != b.id
    ensures Compare(a, b) != Equal
  {
  }

  /** `partial_cmp` always answers, and agrees with `cmp`. */
  lemma PartialCompareAgrees(a: Member, b: Member)
    ensures PartialCompare(a, b).Some?
    ensures PartialCompare(a, b).value == Compare(a, b)
  {
  }

  /** Member order as a comparison for sorting. */
  function MemberLe(): (le: (Member, Member) -> bool)
    ensures forall a, b :: le(a, b) == Le(a, b)
  {
    (a, b) => Le(a, b)
  }

  /** Member order is total and transitive, so sorting by it yields a sorted list. */
  lemma MemberOrderIsTotalPreorder()
    ensures TotalPreorder(MemberLe())
  {
    var le := MemberLe();
    forall x, y, z | le(x, y) && le(y, z)
      ensures le(x, z)
    {
      CompareTransitive(x, y, z);
    }
  }

  /** `display_name()` */
  function DisplayName(m: Member): string {
    match m.name
    case Some(name) => name
    case None => "[anonymous user #" + NatToString(m.id) + "]"
  }

  /**
   * An anonymous member's display name determines its id, so two anonymous
   * members are shown alike only when they are the same user.
   */
  lemma AnonymousNamesDistinct(a: Member, b: Member)
    requires a.name.None? && b.name.None?
    ensures DisplayName(a) == DisplayName(b) <==> a.id == b.id
  {
    if DisplayName(a) == DisplayName(b) {
      var prefix := "[anonymous user #";
      var sa := NatToString(a.id);
      var sb := NatToString(b.id);
      assert |sa| == |sb|;
      assert sa == DisplayName(a)[|prefix|..|prefix| + |sa|];
      assert sb == DisplayName(b)[|prefix|..|prefix| + |sb|];
      DigitsOfNat(a.id);
      DigitsOfNat(b.id);
    }
  }

  /** `UserId::matrix_to_uri()`: a matrix.to link for a Matrix user id. */
  function MatrixToUri(user: string): string {
    "https://matrix.to/#/" + user
  }

  /** `matrix_mention_or_display_name()` */
  function MentionOrDisplayName(m: Member, matrix: Option<string>): string {
    match matrix
    case Some(user) => MatrixToUri(user) + " (" + DisplayName(m) + ")"
    case None => "**" + DisplayName(m) + "**"
  }

  /**
   * The display name can be read back from the mention: between the bold
   * markers without a Matrix user, between the parentheses after the link
   * with one.
   */
  lemma MentionShowsDisplayName(m: Member, matrix: Option<string>)
    ensures var s := MentionOrDisplayName(m, matrix);
      match matrix
      case None => |s| == |DisplayName(m)| + 4 && s[..2] == "**" && s[|s| - 2..] == "**"
        && s[2..|s| - 2] == DisplayName(m)
      case Some(user) =>
        var link := MatrixToUri(user);
        && |s| == |link| + |DisplayName(m)| + 3 && s[..|link|] == link
        && s[|link|..|link| + 2] == " (" && s[|s| - 1] == ')'
        && s[|link| + 2..|s| - 1] == DisplayName(m)
  {
  }
}
