/** Rank formatting (src/utils/fmt.rs): an ordinal with a medal for the first three places. */
module Fmt {
  import opened Wrappers
  import opened Text

  /** The medal shown in front of ranks 1, 2 and 3. */
  function Medal(rank: nat): string {
    if rank == 1 then "\U{1F947} "
    else if rank == 2 then "\U{1F948} "
    else if rank == 3 then "\U{1F949} "
    else ""
  }

  /** The English ordinal suffix: decided by the tens digit first, then the last digit. */
  function Suffix(rank: nat): string {
    if rank / 10 % 10 == 1 then "th"
    else if rank % 10 == 1 then "st"
    else if rank % 10 == 2 then "nd"
    else if rank % 10 == 3 then "rd"
    else "th"
  }

  /** `format_rank` */
  function FormatRank(rank: nat): string {
    Medal(rank) + NatToString(rank) + Suffix(rank)
  }

  /** Only the first three places get a medal, and each a different one. */
  lemma MedalOnlyOnPodium(rank: nat)
    ensures Medal(rank) != "" <==> 1 <= rank <= 3
    ensures rank != 0 && rank <= 3 ==> forall other: nat :: 1 <= other <= 3 && other != rank ==> Medal(other) != Medal(rank)
  {
  }

  /**
   * The suffix rule: "th" in every teen (11th, 12th, 13th, 111th, ...);
   * otherwise "st", "nd", "rd" after a last digit 1, 2, 3 and "th" after any other.
   */
  lemma SuffixRule(rank: nat)
    ensures rank % 100 / 10 == 1 ==> Suffix(rank) == "th"
    ensures rank % 100 / 10 != 1 ==>
      Suffix(rank) == (if rank % 10 == 1 then "st" else if rank % 10 == 2 then "nd" else if rank % 10 == 3 then "rd" else "th")
  {
    TensDigit(rank);
  }

  /** The tens digit read from `rank / 10` is the one read from the last two digits. */
  lemma TensDigit(rank: nat)
    ensures rank / 10 % 10 == rank % 100 / 10
  {
    var a := rank % 10;
    var t := rank / 10;
    var b := t % 10;
    var c := t / 10;
    assert rank == 100 * c + (10 * b + a);
    assert 0 <= 10 * b + a < 100;
    assert rank % 100 == 10 * b + a;
    assert (10 * b + a) / 10 == b;
  }

  /** The text is the medal, the rank in decimal and the suffix, and the number can be read back. */
  lemma FormatRankParts(rank: nat)
    requires rank <= U64Max
    ensures var s := FormatRank(rank);
      var digits := NatToString(rank);
      && s[..|Medal(rank)|] == Medal(rank)
      && s[|Medal(rank)|..|s| - |Suffix(rank)|] == digits
      && s[|s| - |Suffix(rank)|..] == Suffix(rank)
      && ParseU64(digits) == Some(rank)
  {
    ParsePrinted(rank);
  }

  lemma FormatRankExamples()
    ensures FormatRank(1) == "\U{1F947} 1st"
    ensures FormatRank(2) == "\U{1F948} 2nd"
    ensures FormatRank(3) == "\U{1F949} 3rd"
    ensures FormatRank(4) == "4th"
    ensures FormatRank(11) == "11th"
    ensures FormatRank(12) == "12th"
    ensures FormatRank(13) == "13th"
    ensures FormatRank(21) == "21st"
    ensures FormatRank(102) == "102nd"
    ensures FormatRank(112) == "112th"
  {
    FormatRankTeens();
  }

  /** The ranks of `FormatRankExamples` from 11 on. */
  lemma FormatRankTeens()
    ensures FormatRank(11) == "11th"
    ensures FormatRank(12) == "12th"
    ensures FormatRank(13) == "13th"
    ensures FormatRank(21) == "21st"
    ensures FormatRank(102) == "102nd"
    ensures FormatRank(112) == "112th"
  {
  }
}
