/**
 * The unit tests of the command tokenizer (src/matrix/commands/parser.rs),
 * and two edge cases, worked out token by token.
 */
module ParserExamples {
  import opened Text
  import opened Parser

  lemma NoArgsExamples()
    ensures ParseSpec("test") == Parsed("test", [], map[])
    ensures ParseSpec(" test") == Parsed("test", [], map[])
    ensures ParseSpec("test ") == Parsed("test", [], map[])
  {
  }

  lemma ArgsExampleToken1()
    ensures ReadToken("test foo  bar", 5, [], map[])
         == Scan(8, ["foo"], map[])
  {
    var s := "test foo  bar";
    assert s[5] == 'f';
    assert s[6] == 'o';
    assert s[7] == 'o';
    assert s[8] == ' ';
    assert SkipUntil(s, 5, SpaceOrEquals) == 8;
    assert s[5..8] == "foo";
  }

  lemma ArgsExampleToken2()
    ensures ReadToken("test foo  bar", 10, ["foo"], map[])
         == Scan(13, ["foo", "bar"], map[])
  {
    var s := "test foo  bar";
    assert s[10] == 'b';
    assert s[11] == 'a';
    assert s[12] == 'r';
    assert SkipUntil(s, 10, SpaceOrEquals) == 13;
    assert s[10..13] == "bar";
  }

  lemma ArgsExampleFrom4()
    ensures Rest("test foo  bar", 4, [], map[])
         == (["foo", "bar"], map[])
  {
    var s := "test foo  bar";
    assert s[4] == ' ';
    assert s[5] == 'f';
    assert SkipUntil(s, 4, NotSpace) == 5;
    ArgsExampleToken1();
    ArgsExampleFrom8();
  }

  lemma ArgsExampleFrom8()
    ensures Rest("test foo  bar", 8, ["foo"], map[])
         == (["foo", "bar"], map[])
  {
    var s := "test foo  bar";
    assert s[8] == ' ';
    assert s[9] == ' ';
    assert s[10] == 'b';
    assert SkipUntil(s, 8, NotSpace) == 10;
    ArgsExampleToken2();
    ArgsExampleFrom13();
  }

  lemma ArgsExampleFrom13()
    ensures Rest("test foo  bar", 13, ["foo", "bar"], map[])
         == (["foo", "bar"], map[])
  {
    var s := "test foo  bar";
    assert SkipUntil(s, 13, NotSpace) == 13;
  }

  /** Runs of whitespace between bare words are skipped. */
  lemma ArgsExample()
    ensures ParseSpec("test foo  bar")
         == Parsed("test", ["foo", "bar"], map[])
  {
    var s := "test foo  bar";
    assert s[0] == 't';
    assert s[1] == 'e';
    assert s[2] == 's';
    assert s[3] == 't';
    assert s[4] == ' ';
    assert SkipUntil(s, 0, NotSpace) == 0;
    assert SkipUntil(s, 0, Space) == 4;
    assert s[0..4] == "test";
    ArgsExampleFrom4();
  }

  lemma ArgsTrailingSpaceExampleToken1()
    ensures ReadToken("test foo  bar ", 5, [], map[])
         == Scan(8, ["foo"], map[])
  {
    var s := "test foo  bar ";
    assert s[5] == 'f';
    assert s[6] == 'o';
    assert s[7] == 'o';
    assert s[8] == ' ';
    assert SkipUntil(s, 5, SpaceOrEquals) == 8;
    assert s[5..8] == "foo";
  }

  lemma ArgsTrailingSpaceExampleToken2()
    ensures ReadToken("test foo  bar ", 10, ["foo"], map[])
         == Scan(13, ["foo", "bar"], map[])
  {
    var s := "test foo  bar ";
    assert s[10] == 'b';
    assert s[11] == 'a';
    assert s[12] == 'r';
    assert s[13] == ' ';
    assert SkipUntil(s, 10, SpaceOrEquals) == 13;
    assert s[10..13] == "bar";
  }

  lemma ArgsTrailingSpaceExampleFrom4()
    ensures Rest("test foo  bar ", 4, [], map[])
         == (["foo", "bar"], map[])
  {
    var s := "test foo  bar ";
    assert s[4] == ' ';
    assert s[5] == 'f';
    assert SkipUntil(s, 4, NotSpace) == 5;
    ArgsTrailingSpaceExampleToken1();
    ArgsTrailingSpaceExampleFrom8();
  }

  lemma ArgsTrailingSpaceExampleFrom8()
    ensures Rest("test foo  bar ", 8, ["foo"], map[])
         == (["foo", "bar"], map[])
  {
    var s := "test foo  bar ";
    assert s[8] == ' ';
    assert s[9] == ' ';
    assert s[10] == 'b';
    assert SkipUntil(s, 8, NotSpace) == 10;
    ArgsTrailingSpaceExampleToken2();
    ArgsTrailingSpaceExampleFrom13();
  }

  lemma ArgsTrailingSpaceExampleFrom13()
    ensures Rest("test foo  bar ", 13, ["foo", "bar"], map[])
         == (["foo", "bar"], map[])
  {
    var s := "test foo  bar ";
    assert s[13] == ' ';
    assert SkipUntil(s, 13, NotSpace) == 14;
  }

  /** Trailing whitespace adds nothing. */
  lemma ArgsTrailingSpaceExample()
    ensures ParseSpec("test foo  bar ")
         == Parsed("test", ["foo", "bar"], map[])
  {
    var s := "test foo  bar ";
    assert s[0] == 't';
    assert s[1] == 'e';
    assert s[2] == 's';
    assert s[3] == 't';
    assert s[4] == ' ';
    assert SkipUntil(s, 0, NotSpace) == 0;
    assert SkipUntil(s, 0, Space) == 4;
    assert s[0..4] == "test";
    ArgsTrailingSpaceExampleFrom4();
  }

  lemma KwargsExampleToken1()
    ensures ReadToken("test foo=bar X=123", 5, [], map[])
         == Scan(12, [], map["foo" := "bar"])
  {
    var s := "test foo=bar X=123";
    assert s[5] == 'f';
    assert s[6] == 'o';
    assert s[7] == 'o';
    assert s[8] == '=';
    assert s[9] == 'b';
    assert s[10] == 'a';
    assert s[11] == 'r';
    assert s[12] == ' ';
    assert SkipUntil(s, 5, SpaceOrEquals) == 8;
    assert s[5..8] == "foo";
    assert ToLower("foo") == "foo";
    assert SkipUntil(s, 9, Space) == 12;
    assert s[9..12] == "bar";
  }

  lemma KwargsExampleToken2()
    ensures ReadToken("test foo=bar X=123", 13, [], map["foo" := "bar"])
         == Scan(18, [], map["foo" := "bar", "x" := "123"])
  {
    var s := "test foo=bar X=123";
    assert s[13] == 'X';
    assert s[14] == '=';
    assert s[15] == '1';
    assert s[16] == '2';
    assert s[17] == '3';
    assert SkipUntil(s, 13, SpaceOrEquals) == 14;
    assert s[13..14] == "X";
    assert ToLower("X") == "x";
    assert SkipUntil(s, 15, Space) == 18;
    assert s[15..18] == "123";
  }

  lemma KwargsExampleFrom4()
    ensures Rest("test foo=bar X=123", 4, [], map[])
         == ([], map["foo" := "bar", "x" := "123"])
  {
    var s := "test foo=bar X=123";
    assert s[4] == ' ';
    assert s[5] == 'f';
    assert SkipUntil(s, 4, NotSpace) == 5;
    KwargsExampleToken1();
    KwargsExampleFrom12();
  }

  lemma KwargsExampleFrom12()
    ensures Rest("test foo=bar X=123", 12, [], map["foo" := "bar"])
         == ([], map["foo" := "bar", "x" := "123"])
  {
    var s := "test foo=bar X=123";
    assert s[12] == ' ';
    assert s[13] == 'X';
    assert SkipUntil(s, 12, NotSpace) == 13;
    KwargsExampleToken2();
    KwargsExampleFrom18();
  }

  lemma KwargsExampleFrom18()
    ensures Rest("test foo=bar X=123", 18, [], map["foo" := "bar", "x" := "123"])
         == ([], map["foo" := "bar", "x" := "123"])
  {
    var s := "test foo=bar X=123";
    assert SkipUntil(s, 18, NotSpace) == 18;
  }

  /** `key=value` pairs, with the key lower-cased. */
  lemma KwargsExample()
    ensures ParseSpec("test foo=bar X=123")
         == Parsed("test", [], map["foo" := "bar", "x" := "123"])
  {
    var s := "test foo=bar X=123";
    assert s[0] == 't';
    assert s[1] == 'e';
    assert s[2] == 's';
    assert s[3] == 't';
    assert s[4] == ' ';
    assert SkipUntil(s, 0, NotSpace) == 0;
    assert SkipUntil(s, 0, Space) == 4;
    assert s[0..4] == "test";
    KwargsExampleFrom4();
  }

  lemma KwargsTrailingSpaceExampleToken1()
    ensures ReadToken("test Foo=bar x=123 ", 5, [], map[])
         == Scan(12, [], map["foo" := "bar"])
  {
    var s := "test Foo=bar x=123 ";
    assert s[5] == 'F';
    assert s[6] == 'o';
    assert s[7] == 'o';
    assert s[8] == '=';
    assert s[9] == 'b';
    assert s[10] == 'a';
    assert s[11] == 'r';
    assert s[12] == ' ';
    assert SkipUntil(s, 5, SpaceOrEquals) == 8;
    assert s[5..8] == "Foo";
    assert ToLower("Foo") == "foo";
    assert SkipUntil(s, 9, Space) == 12;
    assert s[9..12] == "bar";
  }

  lemma KwargsTrailingSpaceExampleToken2()
    ensures ReadToken("test Foo=bar x=123 ", 13, [], map["foo" := "bar"])
         == Scan(18, [], map["foo" := "bar", "x" := "123"])
  {
    var s := "test Foo=bar x=123 ";
    assert s[13] == 'x';
    assert s[14] == '=';
    assert s[15] == '1';
    assert s[16] == '2';
    assert s[17] == '3';
    assert s[18] == ' ';
    assert SkipUntil(s, 13, SpaceOrEquals) == 14;
    assert s[13..14] == "x";
    assert ToLower("x") == "x";
    assert SkipUntil(s, 15, Space) == 18;
    assert s[15..18] == "123";
  }

  lemma KwargsTrailingSpaceExampleFrom4()
    ensures Rest("test Foo=bar x=123 ", 4, [], map[])
         == ([], map["foo" := "bar", "x" := "123"])
  {
    var s := "test Foo=bar x=123 ";
    assert s[4] == ' ';
    assert s[5] == 'F';
    assert SkipUntil(s, 4, NotSpace) == 5;
    KwargsTrailingSpaceExampleToken1();
    KwargsTrailingSpaceExampleFrom12();
  }

  lemma KwargsTrailingSpaceExampleFrom12()
    ensures Rest("test Foo=bar x=123 ", 12, [], map["foo" := "bar"])
         == ([], map["foo" := "bar", "x" := "123"])
  {
    var s := "test Foo=bar x=123 ";
    assert s[12] == ' ';
    assert s[13] == 'x';
    assert SkipUntil(s, 12, NotSpace) == 13;
    KwargsTrailingSpaceExampleToken2();
    KwargsTrailingSpaceExampleFrom18();
  }

  lemma KwargsTrailingSpaceExampleFrom18()
    ensures Rest("test Foo=bar x=123 ", 18, [], map["foo" := "bar", "x" := "123"])
         == ([], map["foo" := "bar", "x" := "123"])
  {
    var s := "test Foo=bar x=123 ";
    assert s[18] == ' ';
    assert SkipUntil(s, 18, NotSpace) == 19;
  }

  lemma KwargsTrailingSpaceExample()
    ensures ParseSpec("test Foo=bar x=123 ")
         == Parsed("test", [], map["foo" := "bar", "x" := "123"])
  {
    var s := "test Foo=bar x=123 ";
    assert s[0] == 't';
    assert s[1] == 'e';
    assert s[2] == 's';
    assert s[3] == 't';
    assert s[4] == ' ';
    assert SkipUntil(s, 0, NotSpace) == 0;
    assert SkipUntil(s, 0, Space) == 4;
    assert s[0..4] == "test";
    KwargsTrailingSpaceExampleFrom4();
  }

  lemma QuoteExampleToken1()
    ensures ReadToken("test foo \"bar  baz\" test=\"a b\" 42", 5, [], map[])
         == Scan(8, ["foo"], map[])
  {
    var s := "test foo \"bar  baz\" test=\"a b\" 42";
    assert s[5] == 'f';
    assert s[6] == 'o';
    assert s[7] == 'o';
    assert s[8] == ' ';
    assert SkipUntil(s, 5, SpaceOrEquals) == 8;
    assert s[5..8] == "foo";
  }

  lemma QuoteExampleToken2()
    ensures ReadToken("test foo \"bar  baz\" test=\"a b\" 42", 9, ["foo"], map[])
         == Scan(19, ["foo", "bar  baz"], map[])
  {
    var s := "test foo \"bar  baz\" test=\"a b\" 42";
    assert s[9] == '\"';
    QuoteExampleQuoted();
  }

  /** The quoted argument of the example runs from position 10 up to the closing quote at 18. */
  lemma QuoteExampleQuoted()
    ensures var s := "test foo \"bar  baz\" test=\"a b\" 42";
      SkipUntil(s, 10, Quote) == 18 && s[10..18] == "bar  baz"
  {
    var s := "test foo \"bar  baz\" test=\"a b\" 42";
    assert s[10] == 'b';
    assert s[11] == 'a';
    assert s[12] == 'r';
    assert s[13] == ' ';
    assert s[14] == ' ';
    assert s[15] == 'b';
    assert s[16] == 'a';
    assert s[17] == 'z';
    assert s[18] == '\"';
  }

  lemma QuoteExampleToken3()
    ensures ReadToken("test foo \"bar  baz\" test=\"a b\" 42", 20, ["foo", "bar  baz"], map[])
         == Scan(30, ["foo", "bar  baz"], map["test" := "a b"])
  {
    var s := "test foo \"bar  baz\" test=\"a b\" 42";
    QuoteExampleKey();
    QuoteExampleValue();
  }

  /** The key of the example's pair runs from position 20 up to the `=` at 24. */
  lemma QuoteExampleKey()
    ensures var s := "test foo \"bar  baz\" test=\"a b\" 42";
      && !IsWhitespace(s[20]) && s[20] != '\"'
      && SkipUntil(s, 20, SpaceOrEquals) == 24 && s[24] == '=' && ToLower(s[20..24]) == "test"
  {
    var s := "test foo \"bar  baz\" test=\"a b\" 42";
    assert s[20] == 't';
    assert s[21] == 'e';
    assert s[22] == 's';
    assert s[23] == 't';
    assert s[24] == '=';
    assert s[20..24] == "test";
    assert ToLower("test") == "test";
  }

  /** The quoted value of the example's pair runs from position 26 up to the closing quote at 29. */
  lemma QuoteExampleValue()
    ensures var s := "test foo \"bar  baz\" test=\"a b\" 42";
      && s[25] == '\"' && SkipUntil(s, 26, Quote) == 29 && s[26..29] == "a b"
  {
    var s := "test foo \"bar  baz\" test=\"a b\" 42";
    assert s[25] == '\"';
    assert s[26] == 'a';
    assert s[27] == ' ';
    assert s[28] == 'b';
    assert s[29] == '\"';
  }

  lemma QuoteExampleToken4()
    ensures ReadToken("test foo \"bar  baz\" test=\"a b\" 42", 31, ["foo", "bar  baz"], map["test" := "a b"])
         == Scan(33, ["foo", "bar  baz", "42"], map["test" := "a b"])
  {
    var s := "test foo \"bar  baz\" test=\"a b\" 42";
    assert s[31] == '4';
    assert s[32] == '2';
    assert SkipUntil(s, 31, SpaceOrEquals) == 33;
    assert s[31..33] == "42";
  }

  lemma QuoteExampleFrom4()
    ensures Rest("test foo \"bar  baz\" test=\"a b\" 42", 4, [], map[])
         == (["foo", "bar  baz", "42"], map["test" := "a b"])
  {
    var s := "test foo \"bar  baz\" test=\"a b\" 42";
    assert s[4] == ' ';
    assert s[5] == 'f';
    assert SkipUntil(s, 4, NotSpace) == 5;
    QuoteExampleToken1();
    QuoteExampleFrom8();
  }

  lemma QuoteExampleFrom8()
    ensures Rest("test foo \"bar  baz\" test=\"a b\" 42", 8, ["foo"], map[])
         == (["foo", "bar  baz", "42"], map["test" := "a b"])
  {
    var s := "test foo \"bar  baz\" test=\"a b\" 42";
    assert s[8] == ' ';
    assert s[9] == '\"';
    assert SkipUntil(s, 8, NotSpace) == 9;
    QuoteExampleToken2();
    QuoteExampleFrom19();
  }

  lemma QuoteExampleFrom19()
    ensures Rest("test foo \"bar  baz\" test=\"a b\" 42", 19, ["foo", "bar  baz"], map[])
         == (["foo", "bar  baz", "42"], map["test" := "a b"])
  {
    var s := "test foo \"bar  baz\" test=\"a b\" 42";
    assert s[19] == ' ';
    assert s[20] == 't';
    assert SkipUntil(s, 19, NotSpace) == 20;
    QuoteExampleToken3();
    QuoteExampleFrom30();
  }

  lemma QuoteExampleFrom30()
    ensures Rest("test foo \"bar  baz\" test=\"a b\" 42", 30, ["foo", "bar  baz"], map["test" := "a b"])
         == (["foo", "bar  baz", "42"], map["test" := "a b"])
  {
    var s := "test foo \"bar  baz\" test=\"a b\" 42";
    assert s[30] == ' ';
    assert s[31] == '4';
    assert SkipUntil(s, 30, NotSpace) == 31;
    QuoteExampleToken4();
    QuoteExampleFrom33();
  }

  lemma QuoteExampleFrom33()
    ensures Rest("test foo \"bar  baz\" test=\"a b\" 42", 33, ["foo", "bar  baz", "42"], map["test" := "a b"])
         == (["foo", "bar  baz", "42"], map["test" := "a b"])
  {
    var s := "test foo \"bar  baz\" test=\"a b\" 42";
    assert SkipUntil(s, 33, NotSpace) == 33;
  }

  /** A quoted argument keeps its spaces; `key="value"` quotes the value. */
  lemma QuoteExample()
    ensures ParseSpec("test foo \"bar  baz\" test=\"a b\" 42")
         == Parsed("test", ["foo", "bar  baz", "42"], map["test" := "a b"])
  {
    var s := "test foo \"bar  baz\" test=\"a b\" 42";
    assert s[0] == 't';
    assert s[1] == 'e';
    assert s[2] == 's';
    assert s[3] == 't';
    assert s[4] == ' ';
    assert SkipUntil(s, 0, NotSpace) == 0;
    assert SkipUntil(s, 0, Space) == 4;
    assert s[0..4] == "test";
    QuoteExampleFrom4();
  }

  lemma QuotedEqualsExampleToken1()
    ensures ReadToken("test \"x=y\"", 5, [], map[])
         == Scan(10, ["x=y"], map[])
  {
    var s := "test \"x=y\"";
    assert s[5] == '\"';
    assert s[6] == 'x';
    assert s[7] == '=';
    assert s[8] == 'y';
    assert s[9] == '\"';
    assert SkipUntil(s, 6, Quote) == 9;
    assert s[6..9] == "x=y";
  }

  lemma QuotedEqualsExampleFrom4()
    ensures Rest("test \"x=y\"", 4, [], map[])
         == (["x=y"], map[])
  {
    var s := "test \"x=y\"";
    assert s[4] == ' ';
    assert s[5] == '\"';
    assert SkipUntil(s, 4, NotSpace) == 5;
    QuotedEqualsExampleToken1();
    QuotedEqualsExampleFrom10();
  }

  lemma QuotedEqualsExampleFrom10()
    ensures Rest("test \"x=y\"", 10, ["x=y"], map[])
         == (["x=y"], map[])
  {
    var s := "test \"x=y\"";
    assert SkipUntil(s, 10, NotSpace) == 10;
  }

  /** An `=` inside quotes is part of the argument. */
  lemma QuotedEqualsExample()
    ensures ParseSpec("test \"x=y\"")
         == Parsed("test", ["x=y"], map[])
  {
    var s := "test \"x=y\"";
    assert s[0] == 't';
    assert s[1] == 'e';
    assert s[2] == 's';
    assert s[3] == 't';
    assert s[4] == ' ';
    assert SkipUntil(s, 0, NotSpace) == 0;
    assert SkipUntil(s, 0, Space) == 4;
    assert s[0..4] == "test";
    QuotedEqualsExampleFrom4();
  }

  lemma UnterminatedQuoteExampleToken1()
    ensures ReadToken("say \"a b", 4, [], map[])
         == Scan(8, ["a b"], map[])
  {
    var s := "say \"a b";
    assert s[4] == '\"';
    assert s[5] == 'a';
    assert s[6] == ' ';
    assert s[7] == 'b';
    assert SkipUntil(s, 5, Quote) == 8;
    assert s[5..8] == "a b";
  }

  lemma UnterminatedQuoteExampleFrom3()
    ensures Rest("say \"a b", 3, [], map[])
         == (["a b"], map[])
  {
    var s := "say \"a b";
    assert s[3] == ' ';
    assert s[4] == '\"';
    assert SkipUntil(s, 3, NotSpace) == 4;
    UnterminatedQuoteExampleToken1();
    UnterminatedQuoteExampleFrom8();
  }

  lemma UnterminatedQuoteExampleFrom8()
    ensures Rest("say \"a b", 8, ["a b"], map[])
         == (["a b"], map[])
  {
    var s := "say \"a b";
    assert SkipUntil(s, 8, NotSpace) == 8;
  }

  /** An unterminated quote runs to the end of the input. */
  lemma UnterminatedQuoteExample()
    ensures ParseSpec("say \"a b")
         == Parsed("say", ["a b"], map[])
  {
    var s := "say \"a b";
    assert s[0] == 's';
    assert s[1] == 'a';
    assert s[2] == 'y';
    assert s[3] == ' ';
    assert SkipUntil(s, 0, NotSpace) == 0;
    assert SkipUntil(s, 0, Space) == 3;
    assert s[0..3] == "say";
    UnterminatedQuoteExampleFrom3();
  }

  lemma RepeatedKeyExampleToken1()
    ensures ReadToken("get k=1 K=2", 4, [], map[])
         == Scan(7, [], map["k" := "1"])
  {
    var s := "get k=1 K=2";
    assert s[4] == 'k';
    assert s[5] == '=';
    assert s[6] == '1';
    assert s[7] == ' ';
    assert SkipUntil(s, 4, SpaceOrEquals) == 5;
    assert s[4..5] == "k";
    assert ToLower("k") == "k";
    assert SkipUntil(s, 6, Space) == 7;
    assert s[6..7] == "1";
  }

  lemma RepeatedKeyExampleToken2()
    ensures ReadToken("get k=1 K=2", 8, [], map["k" := "1"])
         == Scan(11, [], map["k" := "2"])
  {
    var s := "get k=1 K=2";
    assert s[8] == 'K';
    assert s[9] == '=';
    assert s[10] == '2';
    assert SkipUntil(s, 8, SpaceOrEquals) == 9;
    assert s[8..9] == "K";
    assert ToLower("K") == "k";
    assert SkipUntil(s, 10, Space) == 11;
    assert s[10..11] == "2";
  }

  lemma RepeatedKeyExampleFrom3()
    ensures Rest("get k=1 K=2", 3, [], map[])
         == ([], map["k" := "2"])
  {
    var s := "get k=1 K=2";
    assert s[3] == ' ';
    assert s[4] == 'k';
    assert SkipUntil(s, 3, NotSpace) == 4;
    RepeatedKeyExampleToken1();
    RepeatedKeyExampleFrom7();
  }

  lemma RepeatedKeyExampleFrom7()
    ensures Rest("get k=1 K=2", 7, [], map["k" := "1"])
         == ([], map["k" := "2"])
  {
    var s := "get k=1 K=2";
    assert s[7] == ' ';
    assert s[8] == 'K';
    assert SkipUntil(s, 7, NotSpace) == 8;
    RepeatedKeyExampleToken2();
    RepeatedKeyExampleFrom11();
  }

  lemma RepeatedKeyExampleFrom11()
    ensures Rest("get k=1 K=2", 11, [], map["k" := "2"])
         == ([], map["k" := "2"])
  {
    var s := "get k=1 K=2";
    assert SkipUntil(s, 11, NotSpace) == 11;
  }

  /** A repeated key keeps its last value, whatever the case it was written in. */
  lemma RepeatedKeyExample()
    ensures ParseSpec("get k=1 K=2")
         == Parsed("get", [], map["k" := "2"])
  {
    var s := "get k=1 K=2";
    assert s[0] == 'g';
    assert s[1] == 'e';
    assert s[2] == 't';
    assert s[3] == ' ';
    assert SkipUntil(s, 0, NotSpace) == 0;
    assert SkipUntil(s, 0, Space) == 3;
    assert s[0..3] == "get";
    RepeatedKeyExampleFrom3();
  }
}
