/** The few regular expressions the bot's command handlers use, as string
    functions. Each pattern is a literal command prefix followed by a tail
    (`(.+)`, `(.+) (.+)`, `\.?([^\s]+)` or nothing); `exec` on an unanchored
    pattern reports the leftmost position where the literal occurs AND the tail
    matches after it, and the tail's captures are the greedy ones. */
module Patterns {
  import opened Wrappers
  import opened Text

  /** `lit` occurs in `text` starting at position `i`. */
  predicate OccursAt(text: string, lit: string, i: int) {
    0 <= i && i + |lit| <= |text| && text[i..i + |lit|] == lit
  }

  /** `lit` occurs at `i` in `text` and `tail` accepts what follows it. */
  predicate MatchesAt<T>(text: string, lit: string, tail: string -> Option<T>, i: int) {
    OccursAt(text, lit, i) && tail(text[i + |lit|..]).Some?
  }

  /** `i` is the leftmost position where the pattern matches. */
  predicate Leftmost<T>(text: string, lit: string, tail: string -> Option<T>, i: int) {
    MatchesAt(text, lit, tail, i) && forall j :: 0 <= j < i ==> !MatchesAt(text, lit, tail, j)
  }

  /** The leftmost match position at or after `from`, if there is one. */
  function SearchFrom<T>(text: string, lit: string, tail: string -> Option<T>, from: nat): (r: Option<nat>)
    ensures r.Some? ==> from <= r.value && MatchesAt(text, lit, tail, r.value)
    ensures r.Some? ==> forall j :: from <= j < r.value ==> !MatchesAt(text, lit, tail, j)
    ensures r.None? ==> forall j :: from <= j ==> !MatchesAt(text, lit, tail, j)
    decreases |text| - from
  {
    if from + |lit| > |text| then None
    else if MatchesAt(text, lit, tail, from) then Some(from)
    else SearchFrom(text, lit, tail, from + 1)
  }

  /** `RegExp.prototype.exec` for the pattern literal-then-tail: the tail's
      captures at the leftmost match, or no match at all. */
  function Exec<T>(text: string, lit: string, tail: string -> Option<T>): (r: Option<T>)
    ensures r.None? <==> forall j :: !MatchesAt(text, lit, tail, j)
    ensures r.Some? ==> exists i :: Leftmost(text, lit, tail, i) && r == tail(text[i + |lit|..])
  {
    match SearchFrom(text, lit, tail, 0)
    case None => None
    case Some(i) =>
      assert Leftmost(text, lit, tail, i);
      tail(text[i + |lit|..])
  }

  /** A text that starts with the literal and whose rest the tail accepts is
      matched at position 0, so the captures are the tail's on that rest. */
  lemma ExecAtStart<T>(lit: string, rest: string, tail: string -> Option<T>)
    requires tail(rest).Some?
    ensures Exec(lit + rest, lit, tail) == tail(rest)
  {
    var text := lit + rest;
    assert text[0..|lit|] == lit && text[|lit|..] == rest;
    assert MatchesAt(text, lit, tail, 0);
  }

  /** The tail of a pattern that ends right after its literal: it accepts anything. */
  function AnyTail(rest: string): Option<()> {
    Some(())
  }

  /** A pattern with nothing after its literal matches exactly the texts that
      contain the literal somewhere. */
  lemma {:induction false} ExecAnyTail(text: string, lit: string)
    ensures Exec(text, lit, AnyTail).Some? <==> exists i :: OccursAt(text, lit, i)
  {
    if Exec(text, lit, AnyTail).None? {
      forall i | OccursAt(text, lit, i)
        ensures false
      {
        assert MatchesAt(text, lit, AnyTail, i);
      }
    } else {
      var i :| MatchesAt(text, lit, AnyTail, i);
      assert OccursAt(text, lit, i);
    }
  }

  /** The part of `s` before its first line terminator: as far as a greedy `.+`
      reaches. */
  function Line(s: string): (r: string)
    ensures |r| <= |s| && r == s[..|r|]
    ensures forall i :: 0 <= i < |r| ==> !IsLineTerminator(r[i])
    ensures |r| == |s| || IsLineTerminator(s[|r|])
  {
    if s == [] || IsLineTerminator(s[0]) then [] else [s[0]] + Line(s[1..])
  }

  /** The run of non-white-space characters that starts `s`: as far as a greedy
      `[^\s]+` reaches. */
  function Word(s: string): (r: string)
    ensures |r| <= |s| && r == s[..|r|]
    ensures NoSpace(r)
    ensures |r| == |s| || IsSpace(s[|r|])
  {
    if s == [] || IsSpace(s[0]) then [] else [s[0]] + Word(s[1..])
  }

  /** `(.+)` as the whole tail: one or more characters, up to the end of the line. */
  function OneArg(rest: string): (r: Option<string>)
    ensures r.Some? <==> rest != [] && !IsLineTerminator(rest[0])
    ensures r.Some? ==> r.value == Line(rest)
  {
    var line := Line(rest);
    if line == [] then None else Some(line)
  }

  /** `line` can be cut at `k` by `(.+) (.+)`: a space with at least one
      character before it and one after it. */
  predicate SplitsAt(line: string, k: int) {
    1 <= k < |line| - 1 && line[k] == ' '
  }

  /** The greatest cut at or below `hi`: the greedy first group backs off from
      the end of the line one character at a time until it finds one. */
  function LastSplit(line: string, hi: int): (r: Option<nat>)
    ensures r.Some? ==> r.value <= hi && SplitsAt(line, r.value)
    ensures r.Some? ==> forall k :: r.value < k <= hi ==> !SplitsAt(line, k)
    ensures r.None? ==> forall k :: k <= hi ==> !SplitsAt(line, k)
    decreases hi
  {
    if hi < 1 then None
    else if SplitsAt(line, hi) then Some(hi)
    else LastSplit(line, hi - 1)
  }

  /** `(.+) (.+)` as the whole tail: both groups are non-empty, they and the
      space between them make up the first line of `rest`, and the cut is the
      last space that still has a character after it, so the second group holds
      no space except possibly as its final character. */
  function TwoArgs(rest: string): (r: Option<(string, string)>)
    ensures r.Some? ==> |r.value.0| >= 1 && |r.value.1| >= 1
    ensures r.Some? ==> r.value.0 + " " + r.value.1 == Line(rest)
    ensures r.Some? ==> forall i :: 0 <= i < |r.value.1| - 1 ==> r.value.1[i] != ' '
    ensures r.None? <==> forall k :: !SplitsAt(Line(rest), k)
  {
    var line := Line(rest);
    match LastSplit(line, |line| - 2)
    case None => None
    case Some(k) =>
      assert line == line[..k] + " " + line[k + 1..];
      var second := line[k + 1..];
      forall i | 0 <= i < |second| - 1
        ensures second[i] != ' '
      {
        assert !SplitsAt(line, k + 1 + i);
      }
      Some((line[..k], second))
  }

  /** A line made of a non-empty first part, a space and a non-empty second part
      without spaces (but for a trailing one) is cut at that space. */
  lemma TwoArgsOfJoin(a: string, b: string, after: string)
    requires |a| >= 1 && |b| >= 1 && Line(a + " " + b + after) == a + " " + b
    requires forall i :: 0 <= i < |b| - 1 ==> b[i] != ' '
    ensures TwoArgs(a + " " + b + after) == Some((a, b))
  {
    var line := a + " " + b;
    assert SplitsAt(line, |a|);
    var r := TwoArgs(a + " " + b + after);
    var k := |r.value.0|;
    assert line == r.value.0 + " " + r.value.1;
    assert r.value.0 == line[..k] == a;
    assert r.value.1 == line[k + 1..] == b;
  }

  /** A string of one line ends where the text after it starts with a line
      terminator, or where the text ends. */
  lemma {:induction false} LineOfJoin(s: string, after: string)
    requires forall i :: 0 <= i < |s| ==> !IsLineTerminator(s[i])
    requires after == [] || IsLineTerminator(after[0])
    ensures Line(s + after) == s
  {
    if s != [] {
      assert (s + after)[1..] == s[1..] + after;
      LineOfJoin(s[1..], after);
    } else {
      assert s + after == after;
    }
  }

  /** A run without white space ends where white space or the text ends. */
  lemma {:induction false} WordOfJoin(s: string, after: string)
    requires NoSpace(s)
    requires after == [] || IsSpace(after[0])
    ensures Word(s + after) == s
  {
    if s != [] {
      assert (s + after)[1..] == s[1..] + after;
      WordOfJoin(s[1..], after);
    } else {
      assert s + after == after;
    }
  }
}
