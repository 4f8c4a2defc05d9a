/**
 * String helpers that reproduce the Python built-ins the scripts rely on:
 * str.join, str.split / re.split on a literal, strip / lstrip (with and without
 * a character set), startswith / endswith / `in`, str(int) and ASCII lower().
 */
module Strings {

  /** Python's str.isspace() for one character: strip() and lstrip() with no argument remove
      exactly these code points. */
  predicate IsSpace(c: char) {
    ('\t' <= c <= '\r') || ('\U{1C}' <= c <= ' ') || c == '\U{85}' || c == '\U{A0}'
    || c == '\U{1680}' || ('\U{2000}' <= c <= '\U{200A}') || c == '\U{2028}' || c == '\U{2029}'
    || c == '\U{202F}' || c == '\U{205F}' || c == '\U{3000}'
  }

  /** Every character of s is in cs. */
  predicate AllIn(s: string, cs: set<char>) {
    forall i :: 0 <= i < |s| ==> s[i] in cs
  }

  /** Every character of s is whitespace. */
  predicate Blank(s: string) {
    forall i :: 0 <= i < |s| ==> IsSpace(s[i])
  }

  predicate StartsWith(s: string, prefix: string) {
    |prefix| <= |s| && s[..|prefix|] == prefix
  }

  predicate EndsWith(s: string, suffix: string) {
    |suffix| <= |s| && s[|s| - |suffix|..] == suffix
  }

  /** Python's `sub in s` for strings. */
  predicate Contains(s: string, sub: string)
    decreases |s|
  {
    StartsWith(s, sub) || (s != [] && Contains(s[1..], sub))
  }

  lemma {:induction false} ContainsAt(s: string, sub: string, i: nat)
    requires i + |sub| <= |s| && s[i..i + |sub|] == sub
    ensures Contains(s, sub)
    decreases i
  {
    if i > 0 {
      assert s[1..][i - 1..i - 1 + |sub|] == s[i..i + |sub|];
      ContainsAt(s[1..], sub, i - 1);
    }
  }

  /** Python `s.rfind(c)` for one character: the last index holding c, or -1. */
  function RFind(s: string, c: char): (r: int)
    ensures -1 <= r < |s|
    ensures r >= 0 ==> s[r] == c
    ensures forall k :: r < k < |s| ==> s[k] != c
    decreases |s|
  {
    if s == [] then -1
    else if s[|s| - 1] == c then |s| - 1
    else RFind(s[..|s| - 1], c)
  }

  // The strip functions promise only that they shorten; what they keep and what they drop
  // is stated by the lemma beside each, so that callers pay for those facts only where they
  // need them.

  /** `s.lstrip(cs)`: drops the longest prefix made of characters of cs. */
  function LStripSet(s: string, cs: set<char>): (r: string)
    ensures |r| <= |s|
    decreases |s|
  {
    if s != [] && s[0] in cs then LStripSet(s[1..], cs) else s
  }

  /** lstrip(cs) keeps a suffix of s, drops only characters of cs, and stops at the first
      character outside cs. */
  lemma {:induction false} LStripSetSuffix(s: string, cs: set<char>)
    ensures var r := LStripSet(s, cs);
      r == s[|s| - |r|..] && AllIn(s[..|s| - |r|], cs) && (r == [] || r[0] !in cs)
    decreases |s|
  {
    if s != [] && s[0] in cs {
      var r := LStripSet(s[1..], cs);
      LStripSetSuffix(s[1..], cs);
      assert s[1..][|s| - 1 - |r|..] == s[|s| - |r|..];
      assert s[..|s| - |r|] == [s[0]] + s[1..][..|s| - 1 - |r|];
    }
  }

  /** `s.rstrip(cs)`: drops the longest suffix made of characters of cs. */
  function RStripSet(s: string, cs: set<char>): (r: string)
    ensures |r| <= |s|
    decreases |s|
  {
    if s != [] && s[|s| - 1] in cs then RStripSet(s[..|s| - 1], cs) else s
  }

  /** rstrip(cs) keeps a prefix of s, drops only characters of cs, and stops at the last
      character outside cs. */
  lemma {:induction false} RStripSetPrefix(s: string, cs: set<char>)
    ensures var r := RStripSet(s, cs);
      r == s[..|r|] && AllIn(s[|r|..], cs) && (r == [] || r[|r| - 1] !in cs)
    decreases |s|
  {
    if s != [] && s[|s| - 1] in cs {
      var r := RStripSet(s[..|s| - 1], cs);
      RStripSetPrefix(s[..|s| - 1], cs);
      assert s[..|s| - 1][..|r|] == s[..|r|];
      assert s[|r|..] == s[..|s| - 1][|r|..] + [s[|s| - 1]];
    }
  }

  /** `s.strip(cs)`: rstrip after lstrip. */
  function StripSet(s: string, cs: set<char>): (r: string)
    ensures |r| <= |s|
  {
    RStripSet(LStripSet(s, cs), cs)
  }

  /** strip(cs) leaves the slice of s between a run of cs-characters at each end; the slice
      neither starts nor ends with one, and it is empty exactly when all of s is in cs. */
  lemma StripSetSlice(s: string, cs: set<char>)
    ensures var r := StripSet(s, cs); var i := |s| - |LStripSet(s, cs)|;
      i + |r| <= |s| && r == s[i..i + |r|] && AllIn(s[..i], cs) && AllIn(s[i + |r|..], cs)
    ensures var r := StripSet(s, cs); r == [] || (r[0] !in cs && r[|r| - 1] !in cs)
    ensures StripSet(s, cs) == [] <==> AllIn(s, cs)
  {
    var l := LStripSet(s, cs);
    LStripSetSuffix(s, cs);
    RStripSetPrefix(l, cs);
    TrimBothEnds(s, l, RStripSet(l, cs), cs);
  }

  /** A prefix r of a suffix l of s, with only cs-characters cut off on either side. */
  lemma TrimBothEnds(s: string, l: string, r: string, cs: set<char>)
    requires |l| <= |s| && l == s[|s| - |l|..] && AllIn(s[..|s| - |l|], cs)
    requires l == [] || l[0] !in cs
    requires |r| <= |l| && r == l[..|r|] && AllIn(l[|r|..], cs)
    requires r == [] || r[|r| - 1] !in cs
    ensures var i := |s| - |l|;
      i + |r| <= |s| && r == s[i..i + |r|] && AllIn(s[..i], cs) && AllIn(s[i + |r|..], cs)
    ensures r == [] || (r[0] !in cs && r[|r| - 1] !in cs)
    ensures r == [] <==> AllIn(s, cs)
  {
    var i := |s| - |l|;
    assert s[i..][..|r|] == s[i..i + |r|];
    assert s[i + |r|..] == l[|r|..];
    if r == [] {
      assert s == s[..i] + l[|r|..];
      AllInConcat(s[..i], l[|r|..], cs);
    } else {
      assert r[0] == l[0];
    }
  }

  lemma AllInConcat(a: string, b: string, cs: set<char>)
    requires AllIn(a, cs) && AllIn(b, cs)
    ensures AllIn(a + b, cs)
  {
  }

  /** Python `s.lstrip()` with no argument: drops leading whitespace. */
  function LStrip(s: string): (r: string)
    ensures |r| <= |s|
    decreases |s|
  {
    if s != [] && IsSpace(s[0]) then LStrip(s[1..]) else s
  }

  /** lstrip() keeps a suffix of s, drops only whitespace, and stops at the first
      non-whitespace character. */
  lemma {:induction false} LStripSuffix(s: string)
    ensures var r := LStrip(s);
      r == s[|s| - |r|..] && Blank(s[..|s| - |r|]) && (r == [] || !IsSpace(r[0]))
    decreases |s|
  {
    if s != [] && IsSpace(s[0]) {
      var r := LStrip(s[1..]);
      LStripSuffix(s[1..]);
      assert s[1..][|s| - 1 - |r|..] == s[|s| - |r|..];
      assert s[..|s| - |r|] == [s[0]] + s[1..][..|s| - 1 - |r|];
    }
  }

  /** Python `s.rstrip()` with no argument: drops trailing whitespace. */
  function RStrip(s: string): (r: string)
    ensures |r| <= |s|
    decreases |s|
  {
    if s != [] && IsSpace(s[|s| - 1]) then RStrip(s[..|s| - 1]) else s
  }

  /** rstrip() keeps a prefix of s, drops only whitespace, and stops at the last
      non-whitespace character. */
  lemma {:induction false} RStripPrefix(s: string)
    ensures var r := RStrip(s);
      r == s[..|r|] && Blank(s[|r|..]) && (r == [] || !IsSpace(r[|r| - 1]))
    decreases |s|
  {
    if s != [] && IsSpace(s[|s| - 1]) {
      var r := RStrip(s[..|s| - 1]);
      RStripPrefix(s[..|s| - 1]);
      assert s[..|s| - 1][..|r|] == s[..|r|];
      assert s[|r|..] == s[..|s| - 1][|r|..] + [s[|s| - 1]];
    }
  }

  /** Python `s.strip()` with no argument. */
  function Strip(s: string): (r: string)
    ensures |r| <= |s|
  {
    RStrip(LStrip(s))
  }

  /** strip() is empty exactly when s is all whitespace, and otherwise neither starts nor
      ends with whitespace. */
  lemma StripBlank(s: string)
    ensures Strip(s) == [] <==> Blank(s)
    ensures var r := Strip(s); r == [] || (!IsSpace(r[0]) && !IsSpace(r[|r| - 1]))
  {
    var l := LStrip(s);
    var r := RStrip(l);
    LStripSuffix(s);
    RStripPrefix(l);
    var i := |s| - |l|;
    if r == [] {
      assert s == s[..i] + l;
      BlankConcat(s[..i], l);
    } else {
      assert r[0] == l[0];
    }
  }

  lemma BlankConcat(a: string, b: string)
    requires Blank(a) && Blank(b)
    ensures Blank(a + b)
  {
  }

  /** `sep.join(parts)`. */
  function Join(sep: string, parts: seq<string>): string
    decreases |parts|
  {
    if |parts| == 0 then ""
    else if |parts| == 1 then parts[0]
    else parts[0] + sep + Join(sep, parts[1..])
  }

  /** `"".join(parts)`. */
  function Concat(parts: seq<string>): string
    decreases |parts|
  {
    if |parts| == 0 then "" else parts[0] + Concat(parts[1..])
  }

  lemma {:induction false} ConcatAppend(parts: seq<string>, last: string)
    ensures Concat(parts + [last]) == Concat(parts) + last
    decreases |parts|
  {
    if |parts| > 0 {
      assert (parts + [last])[1..] == parts[1..] + [last];
      ConcatAppend(parts[1..], last);
    }
  }

  lemma {:induction false} JoinAppend(sep: string, parts: seq<string>, last: string)
    requires |parts| >= 1
    ensures Join(sep, parts + [last]) == Join(sep, parts) + sep + last
    decreases |parts|
  {
    if |parts| > 1 {
      assert (parts + [last])[1..] == parts[1..] + [last];
      JoinAppend(sep, parts[1..], last);
    }
  }

  /** `re.split(re.escape(d), s)` or `s.split(d)`: cut s at every leftmost, non-overlapping
      occurrence of the non-empty literal d. */
  function SplitOnStr(s: string, d: string): (parts: seq<string>)
    requires |d| > 0
    ensures |parts| >= 1 && StartsWith(s, parts[0])
    decreases |s|
  {
    if |s| < |d| then [s]
    else if s[..|d|] == d then [""] + SplitOnStr(s[|d|..], d)
    else
      var rest := SplitOnStr(s[1..], d);
      [[s[0]] + rest[0]] + rest[1..]
  }

  /** Joining the pieces with the delimiter gives back the input. */
  lemma {:induction false} SplitOnStrJoins(s: string, d: string)
    requires |d| > 0
    ensures Join(d, SplitOnStr(s, d)) == s
    decreases |s|
  {
    if |s| < |d| {
    } else if s[..|d|] == d {
      SplitOnStrJoins(s[|d|..], d);
      JoinAtDelimiter(s, d, SplitOnStr(s[|d|..], d));
    } else {
      SplitOnStrJoins(s[1..], d);
      JoinPastChar(s, d, SplitOnStr(s[1..], d));
    }
  }

  /** The step of SplitOnStrJoins where s starts with the delimiter. */
  lemma JoinAtDelimiter(s: string, d: string, rest: seq<string>)
    requires |s| >= |d| && s[..|d|] == d && rest != [] && Join(d, rest) == s[|d|..]
    ensures Join(d, [""] + rest) == s
  {
    assert ([""] + rest)[1..] == rest;
    DelimiterThenRest(s, d, Join(d, rest));
  }

  lemma DelimiterThenRest(s: string, d: string, j: string)
    requires |s| >= |d| && s[..|d|] == d && j == s[|d|..]
    ensures "" + d + j == s
  {
    assert s == d + s[|d|..];
  }

  /** The step of SplitOnStrJoins where the first character stays with the first piece. */
  lemma JoinPastChar(s: string, d: string, rest: seq<string>)
    requires s != [] && rest != [] && Join(d, rest) == s[1..]
    ensures Join(d, [[s[0]] + rest[0]] + rest[1..]) == s
  {
    var tail := rest[1..];
    assert rest == [rest[0]] + tail;
    JoinCons(d, rest[0], tail);
    JoinCons(d, [s[0]] + rest[0], tail);
    assert s == [s[0]] + s[1..];
    if tail != [] {
      var j := Join(d, tail);
      assert ([s[0]] + rest[0]) + d + j == [s[0]] + (rest[0] + d + j);
    }
  }

  lemma JoinCons(sep: string, x: string, tail: seq<string>)
    ensures Join(sep, [x] + tail) == if tail == [] then x else x + sep + Join(sep, tail)
  {
    assert ([x] + tail)[1..] == tail;
  }

  /** No piece produced by the split contains the delimiter. */
  lemma {:induction false} SplitOnStrPiecesFree(s: string, d: string)
    requires |d| > 0
    ensures forall k :: 0 <= k < |SplitOnStr(s, d)| ==> !Contains(SplitOnStr(s, d)[k], d)
    decreases |s|
  {
    var parts := SplitOnStr(s, d);
    if |s| < |d| {
      NotContainsShorter(s, d);
    } else if s[..|d|] == d {
      SplitOnStrPiecesFree(s[|d|..], d);
      assert !Contains("", d);
      assert parts == [""] + SplitOnStr(s[|d|..], d);
    } else {
      var rest := SplitOnStr(s[1..], d);
      SplitOnStrPiecesFree(s[1..], d);
      var first := [s[0]] + rest[0];
      assert first[1..] == rest[0];
      assert StartsWith(s[1..], rest[0]);
      assert s[..|first|] == first;
      assert !Contains(first, d);
      assert parts == [first] + rest[1..];
    }
  }

  /** A character absent from s is absent from every piece of the split. */
  lemma {:induction false} SplitOnStrPiecesWithout(s: string, d: string, c: char)
    requires |d| > 0 && c !in s
    ensures forall k :: 0 <= k < |SplitOnStr(s, d)| ==> c !in SplitOnStr(s, d)[k]
    decreases |s|
  {
    var parts := SplitOnStr(s, d);
    if |s| < |d| {
    } else if s[..|d|] == d {
      assert c !in s[|d|..];
      SplitOnStrPiecesWithout(s[|d|..], d, c);
      assert parts == [""] + SplitOnStr(s[|d|..], d);
    } else {
      var rest := SplitOnStr(s[1..], d);
      assert c !in s[1..];
      SplitOnStrPiecesWithout(s[1..], d, c);
      assert parts == [[s[0]] + rest[0]] + rest[1..];
      assert forall k :: 1 <= k < |parts| ==> parts[k] == rest[k];
    }
  }

  lemma {:induction false} NotContainsShorter(s: string, sub: string)
    requires |s| < |sub|
    ensures !Contains(s, sub)
    decreases |s|
  {
    if s != [] { NotContainsShorter(s[1..], sub); }
  }

  /** Splitting a join on a one-character delimiter returns the parts, when no part holds
      the delimiter: the join is a round trip. */
  lemma {:induction false} SplitJoinRoundTrip(parts: seq<string>, c: char)
    requires |parts| >= 1
    requires forall k :: 0 <= k < |parts| ==> c !in parts[k]
    ensures SplitOnStr(Join([c], parts), [c]) == parts
    decreases |parts|, |parts[0]|
  {
    var j := Join([c], parts);
    if parts[0] == [] {
      if |parts| == 1 {
      } else {
        assert j == [c] + Join([c], parts[1..]);
        assert j[..1] == [c];
        assert j[1..] == Join([c], parts[1..]);
        SplitJoinRoundTrip(parts[1..], c);
      }
    } else {
      var p0 := parts[0];
      var parts' := [p0[1..]] + parts[1..];
      assert forall k :: 0 <= k < |parts'| ==> c !in parts'[k] by {
        forall k | 0 <= k < |parts'| ensures c !in parts'[k] {
          if k > 0 {
            assert parts'[k] == parts[k];
          }
        }
      }
      SplitJoinRoundTrip(parts', c);
      assert p0 == [p0[0]] + p0[1..];
      if |parts| == 1 {
        assert j == p0;
        assert Join([c], parts') == p0[1..];
      } else {
        assert parts'[1..] == parts[1..];
        assert Join([c], parts') == p0[1..] + [c] + Join([c], parts[1..]);
      }
      assert j == [p0[0]] + Join([c], parts');
      assert j[1..] == Join([c], parts');
      assert p0[0] != c;
      assert |j| >= 1;
      assert j[..1] != [c];
    }
  }

  function DigitChar(d: nat): (c: char)
    requires d < 10
    ensures '0' <= c <= '9'
  {
    "0123456789"[d]
  }

  /** Python `str(n)` for a non-negative int: decimal digits, no leading zero. */
  function NatToString(n: nat): (r: string)
    ensures |r| >= 1 && forall i :: 0 <= i < |r| ==> '0' <= r[i] <= '9'
    ensures (n < 10) <==> (|r| == 1)
    decreases n
  {
    if n < 10 then [DigitChar(n)] else NatToString(n / 10) + [DigitChar(n % 10)]
  }

  /** Python `str(i)` for any int. */
  function IntToString(i: int): string {
    if i < 0 then "-" + NatToString(-i) else NatToString(i)
  }

  lemma DigitCharInjective(a: nat, b: nat)
    requires a < 10 && b < 10 && DigitChar(a) == DigitChar(b)
    ensures a == b
  {
  }

  /** Different numbers print differently. */
  lemma {:induction false} NatToStringInjective(a: nat, b: nat)
    requires NatToString(a) == NatToString(b)
    ensures a == b
    decreases a
  {
    var s := NatToString(a);
    if a < 10 {
      DigitCharInjective(a, b);
    } else {
      assert b >= 10;
      var sa := NatToString(a / 10);
      var sb := NatToString(b / 10);
      assert s == sa + [DigitChar(a % 10)];
      assert s == sb + [DigitChar(b % 10)];
      assert sa == s[..|s| - 1] == sb;
      NatToStringInjective(a / 10, b / 10);
      DigitCharInjective(a % 10, b % 10);
    }
  }

  function AsciiLowerChar(c: char): char {
    if 'A' <= c <= 'Z' then (c as int + 32) as char else c
  }

  /** `s.lower()` restricted to ASCII letters (all the comparisons in the scripts are against
      ASCII literals). */
  function AsciiLower(s: string): (r: string)
    ensures |r| == |s|
    ensures forall i :: 0 <= i < |s| ==> r[i] == AsciiLowerChar(s[i])
  {
    seq(|s|, i requires 0 <= i < |s| => AsciiLowerChar(s[i]))
  }

  /** Prefix and suffix cancel: equal strings with the same frame have the same middle. */
  lemma FrameCancel(a: string, x: string, y: string, z: string)
    requires a + x + z == a + y + z
    ensures x == y
  {
    var s := a + x + z;
    assert |x| == |y|;
    assert x == s[|a|..|a| + |x|];
    assert y == (a + y + z)[|a|..|a| + |y|];
  }

  /** Position of the first occurrence of c in s (|s| when there is none). */
  function FirstIndex(s: string, c: char): nat
    decreases |s|
  {
    if s == [] || s[0] == c then 0 else 1 + FirstIndex(s[1..], c)
  }

  lemma {:induction false} FirstIndexAfter(a: string, b: string, sep: char)
    requires sep !in a
    ensures FirstIndex(a + [sep] + b, sep) == |a|
    decreases |a|
  {
    if a != [] {
      assert (a + [sep] + b)[1..] == a[1..] + [sep] + b;
      FirstIndexAfter(a[1..], b, sep);
    }
  }

  /** A string with a separator that occurs in neither left part splits uniquely. */
  lemma SeparatorCancel(a: string, b: string, c: string, d: string, sep: char)
    requires sep !in a && sep !in c
    requires a + [sep] + b == c + [sep] + d
    ensures a == c && b == d
  {
    var s := a + [sep] + b;
    FirstIndexAfter(a, b, sep);
    FirstIndexAfter(c, d, sep);
    assert a == s[..|a|];
    assert c == (c + [sep] + d)[..|c|];
    assert b == s[|a| + 1..];
    assert d == (c + [sep] + d)[|c| + 1..];
  }
}
