/**
 * The command tokenizer (src/matrix/commands/parser.rs): the first word is
 * the command; the rest are positional arguments, `"quoted arguments"`, and
 * `key=value` or `key="quoted value"` pairs whose keys are lower-cased.
 *
 * `Rest` is the scanner written as a function; `Parse` is the scanning loop
 * of the source, proved to compute the same thing.
 */
module Parser {
  import opened Wrappers
  import opened Text

  /**
   * The first position from `i` on whose character satisfies `stop`, or the
   * end of the input (`skip_until!` followed by `position!`).
   */
  function SkipUntil(s: string, i: nat, stop: Stop): (j: nat)
    requires i <= |s|
    ensures i <= j <= |s|
    ensures forall k :: i <= k < j ==> !stop.Holds(s[k])
    ensures j < |s| ==> stop.Holds(s[j])
    decreases |s| - i
  {
    if i == |s| || stop.Holds(s[i]) then i else SkipUntil(s, i + 1, stop)
  }

  /** The conditions `skip_until!` is used with in `parse`. */
  datatype Stop = NotSpace | Space | SpaceOrEquals | Quote {
    predicate Holds(c: char) {
      match this
      case NotSpace => !IsWhitespace(c)
      case Space => IsWhitespace(c)
      case SpaceOrEquals => IsWhitespace(c) || c == '='
      case Quote => c == '"'
    }
  }

  /** The position after a closing quote at `q`, if there is one. */
  function PastQuote(s: string, q: nat): nat
    requires q <= |s|
  {
    if q < |s| then q + 1 else q
  }

  /** The command's value before its arguments are taken from it. */
  datatype Parsed = Parsed(command: string, args: seq<string>, kwargs: map<string, string>)

  /** Where scanning resumes, and the arguments read so far. */
  datatype Scan = Scan(next: nat, args: seq<string>, kwargs: map<string, string>)

  /**
   * Reads the token starting at `j`: a quoted argument, `key="value"`,
   * `key=value` or a bare word. A later value for a key replaces an earlier
   * one; keys are lower-cased.
   */
  function ReadToken(s: string, j: nat, args: seq<string>, kwargs: map<string, string>): (r: Scan)
    requires j < |s| && !IsWhitespace(s[j])
    ensures j < r.next <= |s|
  {
    if s[j] == '"' then
      var q := SkipUntil(s, j + 1, Quote);
      Scan(PastQuote(s, q), args + [s[j + 1..q]], kwargs)
    else
      var e := SkipUntil(s, j, SpaceOrEquals);
      if e < |s| && s[e] == '=' then
        var key := ToLower(s[j..e]);
        if e + 1 < |s| && s[e + 1] == '"' then
          var q := SkipUntil(s, e + 2, Quote);
          Scan(PastQuote(s, q), args, kwargs[key := s[e + 2..q]])
        else
          var v := SkipUntil(s, e + 1, Space);
          Scan(v, args, kwargs[key := s[e + 1..v]])
      else
        Scan(e, args + [s[j..e]], kwargs)
  }

  /** The tokens from position `i` on, added to the arguments read so far. */
  function Rest(s: string, i: nat, args: seq<string>, kwargs: map<string, string>)
    : (seq<string>, map<string, string>)
    requires i <= |s|
    decreases |s| - i
  {
    var j := SkipUntil(s, i, NotSpace);
    if j == |s| then (args, kwargs)
    else
      var r := ReadToken(s, j, args, kwargs);
      Rest(s, r.next, r.args, r.kwargs)
  }

  /** `parse`: the first word, then the tokens after it. */
  function ParseSpec(s: string): Parsed {
    var start := SkipUntil(s, 0, NotSpace);
    var end := SkipUntil(s, start, Space);
    var (args, kwargs) := Rest(s, end, [], map[]);
    Parsed(s[start..end], args, kwargs)
  }

  /**
   * The value `get_from_kwargs_or_args` returns for `key`, and the positional
   * arguments left after it.
   */
  function KwargOrArg(kwargs: map<string, string>, args: seq<string>, key: string)
    : (Option<string>, seq<string>)
  {
    if key in kwargs then (Some(kwargs[key]), args)
    else if args == [] then (None, [])
    else (Some(args[0]), args[1..])
  }

  /** `ParsedCommand`, whose arguments `get_from_kwargs_or_args` consumes. */
  class ParsedCommand {
    var command: string
    var args: seq<string>
    var kwargs: map<string, string>

    constructor (command: string, args: seq<string>, kwargs: map<string, string>)
      ensures this.command == command && this.args == args && this.kwargs == kwargs
    {
      this.command := command;
      this.args := args;
      this.kwargs := kwargs;
    }

    /**
     * `get_from_kwargs_or_args`: the value given for `key`, leaving the
     * positional arguments alone; otherwise the first positional argument,
     * which is removed.
     */
    method GetFromKwargsOrArgs(key: string) returns (r: Option<string>)
      modifies this
      ensures command == old(command) && kwargs == old(kwargs)
      ensures key in kwargs ==> r == Some(kwargs[key]) && args == old(args)
      ensures key !in kwargs && old(args) != [] ==> r == Some(old(args)[0]) && args == old(args)[1..]
      ensures key !in kwargs && old(args) == [] ==> r == None && args == []
      ensures (r, args) == KwargOrArg(old(kwargs), old(args), key)
    {
      if key in kwargs {
        return Some(kwargs[key]);
      }
      if args == [] {
        return None;
      }
      r := Some(args[0]);
      args := args[1..];
    }
  }

  /** `skip_until!`: advances past the characters that do not satisfy `stop`. */
  method Skip(s: string, i: nat, stop: Stop) returns (j: nat)
    requires i <= |s|
    ensures j == SkipUntil(s, i, stop)
  {
    j := i;
    while j < |s| && !stop.Holds(s[j])
      invariant i <= j <= |s|
      invariant SkipUntil(s, j, stop) == SkipUntil(s, i, stop)
      decreases |s| - j
    {
      j := j + 1;
    }
  }

  /** One token of the scanning loop, read with `skip_until!`. */
  method Word(s: string, j: nat, args: seq<string>, kwargs: map<string, string>) returns (r: Scan)
    requires j < |s| && !IsWhitespace(s[j])
    ensures r == ReadToken(s, j, args, kwargs)
  {
    if s[j] == '"' {
      var q := Skip(s, j + 1, Quote);
      return Scan(PastQuote(s, q), args + [s[j + 1..q]], kwargs);
    }
    var e := Skip(s, j, SpaceOrEquals);
    if e < |s| && s[e] == '=' {
      var key := ToLower(s[j..e]);
      if e + 1 < |s| && s[e + 1] == '"' {
        var q := Skip(s, e + 2, Quote);
        r := Scan(PastQuote(s, q), args, kwargs[key := s[e + 2..q]]);
      } else {
        var v := Skip(s, e + 1, Space);
        r := Scan(v, args, kwargs[key := s[e + 1..v]]);
      }
    } else {
      r := Scan(e, args + [s[j..e]], kwargs);
    }
  }

  /** `parse`, scanning the input once. */
  method Parse(s: string) returns (p: ParsedCommand)
    ensures fresh(p)
    ensures Parsed(p.command, p.args, p.kwargs) == ParseSpec(s)
  {
    var start := Skip(s, 0, NotSpace);
    var end := Skip(s, start, Space);
    var args: seq<string> := [];
    var kwargs: map<string, string> := map[];
    var i := end;
    while true
      invariant end <= i <= |s|
      invariant Rest(s, i, args, kwargs) == Rest(s, end, [], map[])
      decreases |s| - i
    {
      var j := Skip(s, i, NotSpace);
      if j == |s| {
        break;
      }
      var r := Word(s, j, args, kwargs);
      i, args, kwargs := r.next, r.args, r.kwargs;
    }
    p := new ParsedCommand(s[start..end], args, kwargs);
  }

  /** `x` is a contiguous piece of `s`. */
  ghost predicate IsSlice(x: string, s: string) {
    exists a, b :: 0 <= a <= b <= |s| && x == s[a..b]
  }

  predicate NoUpper(k: string) {
    forall i :: 0 <= i < |k| ==> !('A' <= k[i] <= 'Z')
  }

  /** Every argument and value is a slice of `s`, and every key is lower-case. */
  ghost predicate Borrowed(s: string, args: seq<string>, kwargs: map<string, string>) {
    && (forall i :: 0 <= i < |args| ==> IsSlice(args[i], s))
    && (forall k :: k in kwargs ==> IsSlice(kwargs[k], s) && NoUpper(k))
  }

  lemma ReadTokenBorrows(s: string, j: nat, args: seq<string>, kwargs: map<string, string>)
    requires j < |s| && !IsWhitespace(s[j]) && Borrowed(s, args, kwargs)
    ensures var r := ReadToken(s, j, args, kwargs); Borrowed(s, r.args, r.kwargs)
  {
    if s[j] == '"' {
      var q := SkipUntil(s, j + 1, Quote);
      assert IsSlice(s[j + 1..q], s);
    } else {
      var e := SkipUntil(s, j, SpaceOrEquals);
      if e < |s| && s[e] == '=' {
        var key := ToLower(s[j..e]);
        assert NoUpper(key);
        if e + 1 < |s| && s[e + 1] == '"' {
          var q := SkipUntil(s, e + 2, Quote);
          assert IsSlice(s[e + 2..q], s);
        } else {
          var v := SkipUntil(s, e + 1, Space);
          assert IsSlice(s[e + 1..v], s);
        }
      } else {
        assert IsSlice(s[j..e], s);
      }
    }
  }

  lemma {:induction false} RestBorrows(s: string, i: nat, args: seq<string>, kwargs: map<string, string>)
    requires i <= |s| && Borrowed(s, args, kwargs)
    ensures var (args', kwargs') := Rest(s, i, args, kwargs); Borrowed(s, args', kwargs')
    decreases |s| - i
  {
    var j := SkipUntil(s, i, NotSpace);
    if j < |s| {
      ReadTokenBorrows(s, j, args, kwargs);
      var r := ReadToken(s, j, args, kwargs);
      RestBorrows(s, r.next, r.args, r.kwargs);
    }
  }

  /**
   * The command is the first word: only whitespace comes before it, it holds
   * no whitespace, and whitespace or the end of the input follows it. Every
   * argument and value borrows a contiguous piece of the input, and every
   * key is lower-case.
   */
  lemma ParseSpecShape(s: string)
    ensures var p := ParseSpec(s);
      && (forall k :: 0 <= k < |p.command| ==> !IsWhitespace(p.command[k]))
      && (exists a, b :: 0 <= a <= b <= |s| && p.command == s[a..b]
            && (forall k :: 0 <= k < a ==> IsWhitespace(s[k]))
            && (b == |s| || IsWhitespace(s[b])))
      && Borrowed(s, p.args, p.kwargs)
  {
    var start := SkipUntil(s, 0, NotSpace);
    var end := SkipUntil(s, start, Space);
    assert forall k :: 0 <= k < start ==> IsWhitespace(s[k]);
    RestBorrows(s, end, [], map[]);
  }
}
