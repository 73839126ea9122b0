/** The JavaScript string built-ins the core relies on: `trim`, `includes`,
    `split`/`join` on a one-character separator, and the decimal rendering of
    an integer inside a template literal. */
module JsStrings {

  /** The characters `String.prototype.trim` removes: the ECMAScript
      WhiteSpace and LineTerminator code points. */
  predicate IsWhitespace(c: char) {
    || '\U{0009}' <= c <= '\U{000D}'
    || c == ' ' || c == '\U{00A0}' || c == '\U{1680}' || c == '\U{2028}' || c == '\U{2029}'
    || c == '\U{202F}' || c == '\U{205F}' || c == '\U{3000}' || c == '\U{FEFF}'
    || '\U{2000}' <= c <= '\U{200A}'
  }

  predicate AllWhitespace(s: string) {
    forall i | 0 <= i < |s| :: IsWhitespace(s[i])
  }

  /** The first index at or after `i` that does not hold whitespace (`|s|` if none). */
  function SkipWhitespaceForward(s: string, i: nat): (j: nat)
    requires i <= |s|
    ensures i <= j <= |s|
    decreases |s| - i
  {
    if i < |s| && IsWhitespace(s[i]) then SkipWhitespaceForward(s, i + 1) else i
  }

  /** The end of `s[lo..hi]` once its trailing whitespace is dropped. */
  function SkipWhitespaceBackward(s: string, lo: nat, hi: nat): (j: nat)
    requires lo <= hi <= |s|
    ensures lo <= j <= hi
    decreases hi
  {
    if lo < hi && IsWhitespace(s[hi - 1]) then SkipWhitespaceBackward(s, lo, hi - 1) else hi
  }

  /** Skipping forward passes over whitespace only, and stops at the first other character. */
  lemma {:induction false} SkipWhitespaceForwardSpec(s: string, i: nat)
    requires i <= |s|
    ensures forall k | i <= k < SkipWhitespaceForward(s, i) :: IsWhitespace(s[k])
    ensures SkipWhitespaceForward(s, i) < |s| ==> !IsWhitespace(s[SkipWhitespaceForward(s, i)])
    decreases |s| - i
  {
    if i < |s| && IsWhitespace(s[i]) {
      SkipWhitespaceForwardSpec(s, i + 1);
    }
  }

  /** Skipping backward passes over whitespace only, and stops after the last other character. */
  lemma {:induction false} SkipWhitespaceBackwardSpec(s: string, lo: nat, hi: nat)
    requires lo <= hi <= |s|
    ensures forall k | SkipWhitespaceBackward(s, lo, hi) <= k < hi :: IsWhitespace(s[k])
    ensures lo < SkipWhitespaceBackward(s, lo, hi) ==> !IsWhitespace(s[SkipWhitespaceBackward(s, lo, hi) - 1])
    decreases hi
  {
    if lo < hi && IsWhitespace(s[hi - 1]) {
      SkipWhitespaceBackwardSpec(s, lo, hi - 1);
    }
  }

  /** `String.prototype.trim`: `s` without its leading and trailing whitespace.
      What is left neither starts nor ends with whitespace. */
  function Trim(s: string): (r: string)
    ensures r != [] ==> !IsWhitespace(r[0]) && !IsWhitespace(r[|r| - 1])
  {
    var start := SkipWhitespaceForward(s, 0);
    var end := SkipWhitespaceBackward(s, start, |s|);
    SkipWhitespaceForwardSpec(s, 0);
    SkipWhitespaceBackwardSpec(s, start, |s|);
    s[start..end]
  }

  /** The trimmed string is the middle of `s` between a whitespace prefix and a
      whitespace suffix. */
  lemma TrimIsMiddle(s: string)
    ensures var lead := SkipWhitespaceForward(s, 0);
      && lead + |Trim(s)| <= |s|
      && Trim(s) == s[lead..lead + |Trim(s)|]
      && (forall i | 0 <= i < lead :: IsWhitespace(s[i]))
      && (forall i | lead + |Trim(s)| <= i < |s| :: IsWhitespace(s[i]))
  {
    var lead := SkipWhitespaceForward(s, 0);
    SkipWhitespaceForwardSpec(s, 0);
    SkipWhitespaceBackwardSpec(s, lead, |s|);
  }

  /** A string trims to the empty string exactly when it is all whitespace. */
  lemma TrimEmptyIff(s: string)
    ensures Trim(s) == [] <==> AllWhitespace(s)
  {
    TrimIsMiddle(s);
    var lead := SkipWhitespaceForward(s, 0);
    if Trim(s) != [] {
      assert s[lead] == Trim(s)[0];
    }
  }

  /** `String.prototype.includes`: some position of `s` starts with `sub`. */
  function Includes(s: string, sub: string): bool
  {
    if sub <= s then true
    else if |s| == 0 then false
    else Includes(s[1..], sub)
  }

  /** `sub` occurs in `s` starting at index `i`. */
  predicate OccursAt(s: string, sub: string, i: int) {
    0 <= i <= |s| - |sub| && s[i..i + |sub|] == sub
  }

  /** An occurrence past the first position is an occurrence in the tail. */
  lemma OccursAtTail(s: string, sub: string, i: int)
    requires 0 < i && |s| > 0
    ensures OccursAt(s, sub, i) <==> OccursAt(s[1..], sub, i - 1)
  {
    if 0 < i <= |s| - |sub| {
      assert s[1..][i - 1..i - 1 + |sub|] == s[i..i + |sub|];
    }
  }

  /** `Includes` holds exactly when `sub` occurs in `s` at some index. */
  lemma {:induction false} IncludesIff(s: string, sub: string)
    ensures Includes(s, sub) <==> exists i :: OccursAt(s, sub, i)
  {
    if sub <= s {
      assert OccursAt(s, sub, 0);
    } else if |s| == 0 {
      assert forall i :: !OccursAt(s, sub, i);
    } else {
      IncludesIff(s[1..], sub);
      if Includes(s[1..], sub) {
        var i :| OccursAt(s[1..], sub, i);
        OccursAtTail(s, sub, i + 1);
      } else {
        assert !OccursAt(s, sub, 0);
        forall i | 0 < i ensures !OccursAt(s, sub, i) {
          OccursAtTail(s, sub, i);
        }
      }
    }
  }

  /** The first index at or after `i` holding `sep` (`|s|` if there is none). */
  function NextSeparator(s: string, sep: char, i: nat): (j: nat)
    requires i <= |s|
    ensures i <= j <= |s|
    decreases |s| - i
  {
    if i < |s| && s[i] != sep then NextSeparator(s, sep, i + 1) else i
  }

  /** The search passes over other characters only, and stops at a separator or the end. */
  lemma {:induction false} NextSeparatorSpec(s: string, sep: char, i: nat)
    requires i <= |s|
    ensures forall k | i <= k < NextSeparator(s, sep, i) :: s[k] != sep
    ensures NextSeparator(s, sep, i) < |s| ==> s[NextSeparator(s, sep, i)] == sep
    decreases |s| - i
  {
    if i < |s| && s[i] != sep {
      NextSeparatorSpec(s, sep, i + 1);
    }
  }

  /** The parts of `s[i..]` between separators. */
  function SplitFrom(s: string, sep: char, i: nat): (parts: seq<string>)
    requires i <= |s|
    ensures |parts| >= 1
    decreases |s| - i
  {
    var j := NextSeparator(s, sep, i);
    if j == |s| then [s[i..]] else [s[i..j]] + SplitFrom(s, sep, j + 1)
  }

  /** `s.split(sep)`: the maximal runs of `s` between separators, always at
      least one (the empty string splits into one empty part). */
  function Split(s: string, sep: char): (parts: seq<string>)
    ensures |parts| >= 1
  {
    SplitFrom(s, sep, 0)
  }

  lemma {:induction false} SplitFromPartsFree(s: string, sep: char, i: nat)
    requires i <= |s|
    ensures forall k | 0 <= k < |SplitFrom(s, sep, i)| :: sep !in SplitFrom(s, sep, i)[k]
    decreases |s| - i
  {
    var j := NextSeparator(s, sep, i);
    NextSeparatorSpec(s, sep, i);
    assert sep !in s[i..j];
    if j < |s| {
      SplitFromPartsFree(s, sep, j + 1);
    }
  }

  /** No part of a split contains the separator. */
  lemma SplitPartsFree(s: string, sep: char)
    ensures forall k | 0 <= k < |Split(s, sep)| :: sep !in Split(s, sep)[k]
  {
    SplitFromPartsFree(s, sep, 0);
  }

  /** `parts.join(sep)`; the join of no parts is the empty string. */
  function Join(parts: seq<string>, sep: char): string
  {
    if |parts| == 0 then ""
    else if |parts| == 1 then parts[0]
    else parts[0] + [sep] + Join(parts[1..], sep)
  }

  /** Joining one more part in front adds it and a separator. */
  lemma JoinCons(x: string, ys: seq<string>, sep: char)
    requires |ys| >= 1
    ensures Join([x] + ys, sep) == x + [sep] + Join(ys, sep)
  {
    assert ([x] + ys)[1..] == ys;
  }

  /** Cutting `s[i..]` at position `j` and putting it back together. */
  lemma SliceAround(s: string, i: nat, j: nat)
    requires i <= j < |s|
    ensures s[i..j] + [s[j]] + s[j + 1..] == s[i..]
  {
  }

  lemma {:induction false} JoinSplitFrom(s: string, sep: char, i: nat)
    requires i <= |s|
    ensures Join(SplitFrom(s, sep, i), sep) == s[i..]
    decreases |s| - i
  {
    var j := NextSeparator(s, sep, i);
    if j < |s| {
      NextSeparatorSpec(s, sep, i);
      JoinSplitFrom(s, sep, j + 1);
      JoinCons(s[i..j], SplitFrom(s, sep, j + 1), sep);
      SliceAround(s, i, j);
    }
  }

  /** Joining the parts of a split gives back the string. */
  lemma JoinSplit(s: string, sep: char)
    ensures Join(Split(s, sep), sep) == s
  {
    JoinSplitFrom(s, sep, 0);
    assert s[0..] == s;
  }

  /** A string without the separator splits into itself. */
  lemma SplitFree(s: string, sep: char)
    requires sep !in s
    ensures Split(s, sep) == [s]
  {
    NextSeparatorSpec(s, sep, 0);
    assert s[0..] == s;
  }

  /** The search in `a + b` past `a` is the search in `b`, shifted. */
  lemma {:induction false} NextSeparatorShift(a: string, b: string, sep: char, i: nat)
    requires i <= |b|
    ensures NextSeparator(a + b, sep, |a| + i) == |a| + NextSeparator(b, sep, i)
    decreases |b| - i
  {
    if i < |b| {
      assert (a + b)[|a| + i] == b[i];
      NextSeparatorShift(a, b, sep, i + 1);
    }
  }

  /** Splitting `a + b` past `a` is splitting `b`. */
  lemma {:induction false} SplitFromShift(a: string, b: string, sep: char, i: nat)
    requires i <= |b|
    ensures SplitFrom(a + b, sep, |a| + i) == SplitFrom(b, sep, i)
    decreases |b| - i
  {
    NextSeparatorShift(a, b, sep, i);
    var j := NextSeparator(b, sep, i);
    if j < |b| {
      SplitFromShift(a, b, sep, j + 1);
      assert (a + b)[|a| + i..|a| + j] == b[i..j];
    } else {
      assert (a + b)[|a| + i..] == b[i..];
    }
  }

  /** The search in `p` is unchanged by appending something that starts with the separator. */
  lemma {:induction false} NextSeparatorExtend(p: string, x: string, sep: char, i: nat)
    requires i <= |p| && |x| > 0 && x[0] == sep
    ensures NextSeparator(p + x, sep, i) == NextSeparator(p, sep, i)
    decreases |p| - i
  {
    if i < |p| {
      assert (p + x)[i] == p[i];
      NextSeparatorExtend(p, x, sep, i + 1);
    } else {
      assert (p + x)[i] == sep;
    }
  }

  /** The last part of `p` is cut off by the separator that starts `x`. */
  lemma SplitFromAroundLast(p: string, x: string, sep: char, i: nat)
    requires i <= |p| && |x| > 0 && x[0] == sep
    requires NextSeparator(p, sep, i) == |p|
    ensures SplitFrom(p + x, sep, i) == SplitFrom(p, sep, i) + SplitFrom(x, sep, 1)
  {
    NextSeparatorExtend(p, x, sep, i);
    SplitFromShift(p, x, sep, 1);
    assert (p + x)[i..|p|] == p[i..];
  }

  lemma {:induction false} SplitFromAround(p: string, x: string, sep: char, i: nat)
    requires i <= |p| && |x| > 0 && x[0] == sep
    ensures SplitFrom(p + x, sep, i) == SplitFrom(p, sep, i) + SplitFrom(x, sep, 1)
    decreases |p| - i
  {
    var j := NextSeparator(p, sep, i);
    if j < |p| {
      var s := p + x;
      NextSeparatorExtend(p, x, sep, i);
      SplitFromAround(p, x, sep, j + 1);
      assert s[i..j] == p[i..j];
      var rest := SplitFrom(p, sep, j + 1);
      var tail := SplitFrom(x, sep, 1);
      assert [p[i..j]] + (rest + tail) == ([p[i..j]] + rest) + tail;
    } else {
      SplitFromAroundLast(p, x, sep, i);
    }
  }

  /** Splitting around one separator concatenates the splits of the two sides. */
  lemma SplitAround(p: string, q: string, sep: char)
    ensures Split(p + [sep] + q, sep) == Split(p, sep) + Split(q, sep)
  {
    var x := [sep] + q;
    assert p + [sep] + q == p + x;
    SplitFromAround(p, x, sep, 0);
    SplitFromShift([sep], q, sep, 0);
  }

  /** Splitting a join of separator-free parts gives back the parts. */
  lemma {:induction false} SplitJoin(parts: seq<string>, sep: char)
    requires |parts| >= 1
    requires forall k | 0 <= k < |parts| :: sep !in parts[k]
    ensures Split(Join(parts, sep), sep) == parts
  {
    if |parts| == 1 {
      SplitFree(parts[0], sep);
    } else {
      SplitJoin(parts[1..], sep);
      SplitAround(parts[0], Join(parts[1..], sep), sep);
      SplitFree(parts[0], sep);
      assert [parts[0]] + parts[1..] == parts;
    }
  }

  /** The value of a non-empty run of decimal digits. */
  predicate IsDigits(s: string) {
    |s| >= 1 && forall i | 0 <= i < |s| :: '0' <= s[i] <= '9'
  }

  function DigitChar(d: nat): (c: char)
    requires d < 10
  {
    (('0' as int) + d) as char
  }

  /** The decimal rendering of a natural number, without leading zeros. */
  function NatToString(n: nat): (r: string)
    ensures |r| >= 1
  {
    if n < 10 then [DigitChar(n)] else NatToString(n / 10) + [DigitChar(n % 10)]
  }

  /** The rendering of a natural number is a non-empty run of digits. */
  lemma {:induction false} NatToStringIsDigits(n: nat)
    ensures IsDigits(NatToString(n))
  {
    if n >= 10 {
      NatToStringIsDigits(n / 10);
    }
  }

  /** The number a run of decimal digits denotes. */
  function DigitsValue(s: string): nat
    requires forall i | 0 <= i < |s| :: '0' <= s[i] <= '9'
  {
    if |s| == 0 then 0
    else DigitsValue(s[..|s| - 1]) * 10 + ((s[|s| - 1] as int) - ('0' as int))
  }

  /** Reading back the rendering of a natural number gives the number. */
  lemma {:induction false} NatToStringRoundTrip(n: nat)
    ensures IsDigits(NatToString(n)) && DigitsValue(NatToString(n)) == n
  {
    NatToStringIsDigits(n);
    if n >= 10 {
      var s := NatToString(n);
      NatToStringRoundTrip(n / 10);
      assert s[..|s| - 1] == NatToString(n / 10);
    }
  }

  /** `${i}` for an integer `i`: a minus sign before the digits of a negative number. */
  function IntToString(i: int): (r: string)
    ensures |r| >= 1 && (i < 0 <==> r[0] == '-')
  {
    NatToStringIsDigits(if i < 0 then -i else i);
    if i < 0 then "-" + NatToString(-i) else NatToString(i)
  }

  /** The integer a rendering produced by `IntToString` denotes. */
  function ParseInt(s: string): int
    requires IsDigits(s) || (|s| >= 2 && s[0] == '-' && IsDigits(s[1..]))
  {
    if s[0] == '-' then -(DigitsValue(s[1..]) as int) else DigitsValue(s)
  }

  /** Reading back the rendering of an integer gives the integer. */
  lemma IntToStringRoundTrip(i: int)
    ensures var s := IntToString(i);
      (IsDigits(s) || (|s| >= 2 && s[0] == '-' && IsDigits(s[1..]))) && ParseInt(s) == i
  {
    if i < 0 {
      NatToStringRoundTrip(-i);
      assert IntToString(i)[1..] == NatToString(-i);
    } else {
      NatToStringRoundTrip(i);
    }
  }

  /** Distinct integers have distinct renderings. */
  lemma IntToStringInjective(i: int, j: int)
    ensures IntToString(i) == IntToString(j) ==> i == j
  {
    IntToStringRoundTrip(i);
    IntToStringRoundTrip(j);
  }
}
