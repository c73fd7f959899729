/** The string operations of the JavaScript runtime that the components share. */
module Text {
  import opened Wrappers

  const NL: char := '\n'
  const CRLF: string := "\r\n"

  /** The characters matched by `\s` and removed by `trim`: white space and line terminators. */
  predicate IsSpace(c: char) {
    var n := c as int;
    || 0x09 <= n <= 0x0D || n == 0x20 || n == 0xA0 || n == 0x1680
    || 0x2000 <= n <= 0x200A || n == 0x2028 || n == 0x2029 || n == 0x202F
    || n == 0x205F || n == 0x3000 || n == 0xFEFF
  }

  /** The white space of section 12.2 of ECMA-262: TAB, VT, FF, ZWNBSP and the space separators. */
  const WHITE_SPACE: seq<int> := [
    0x09, 0x0B, 0x0C, 0xFEFF, 0x20, 0xA0, 0x1680, 0x2000, 0x2001, 0x2002, 0x2003, 0x2004, 0x2005, 0x2006, 0x2007,
    0x2008, 0x2009, 0x200A, 0x202F, 0x205F, 0x3000
  ]

  /** The line terminators of its section 12.3: LF, CR, LS and PS. */
  const LINE_TERMINATORS: seq<int> := [0x0A, 0x0D, 0x2028, 0x2029]

  /** White space is what the standard lists as such or as a line terminator. */
  lemma SpaceIff(c: char)
    ensures IsSpace(c) <==> c as int in WHITE_SPACE || c as int in LINE_TERMINATORS
  {
  }

  /** The characters matched by `\w`. */
  predicate IsWord(c: char) {
    'a' <= c <= 'z' || 'A' <= c <= 'Z' || '0' <= c <= '9' || c == '_'
  }

  /** The end of the longest run of characters satisfying `p` that starts at `i`. */
  function Span(s: string, i: nat, p: char -> bool): (end: nat)
    requires i <= |s|
    ensures i <= end <= |s|
    ensures end < |s| ==> !p(s[end])
    decreases |s| - i
  {
    if i < |s| && p(s[i]) then Span(s, i + 1, p) else i
  }

  lemma {:induction false} SpanAll(s: string, i: nat, p: char -> bool, j: nat)
    requires i <= j < |s| && j < Span(s, i, p)
    ensures p(s[j])
    decreases |s| - i
  {
    if i < j {
      SpanAll(s, i + 1, p, j);
    }
  }

  lemma {:induction false} SpanShift(s: string, from: nat, i: nat, p: char -> bool)
    requires from + i <= |s|
    ensures Span(s, from + i, p) == from + Span(s[from..], i, p)
    decreases |s| - i
  {
    if from + i < |s| && p(s[from + i]) {
      SpanShift(s, from, i + 1, p);
    }
  }

  /** A run of `p` ending where `p` fails is the span. */
  lemma {:induction false} SpanIs(s: string, i: nat, p: char -> bool, end: nat)
    requires i <= end <= |s|
    requires forall j :: i <= j < end ==> p(s[j])
    requires end < |s| ==> !p(s[end])
    ensures Span(s, i, p) == end
    decreases |s| - i
  {
    if i < end {
      SpanIs(s, i + 1, p, end);
    }
  }

  predicate StartsWithAt(s: string, i: nat, pat: string) {
    i + |pat| <= |s| && s[i..i + |pat|] == pat
  }

  predicate StartsWith(s: string, pat: string) {
    pat <= s
  }

  predicate EndsWith(s: string, pat: string) {
    |pat| <= |s| && s[|s| - |pat|..] == pat
  }

  predicate AllSpace(s: string) {
    forall i :: 0 <= i < |s| ==> IsSpace(s[i])
  }

  /** `s.indexOf(pat, from)`. */
  function IndexOf(s: string, pat: string, from: nat): (r: Option<nat>)
    ensures r.Some? ==> from <= r.value && StartsWithAt(s, r.value, pat)
    decreases |s| - from
  {
    if from + |pat| > |s| then None
    else if StartsWithAt(s, from, pat) then Some(from)
    else IndexOf(s, pat, from + 1)
  }

  /** `indexOf` finds the first occurrence, and fails only when there is none. */
  lemma {:induction false} IndexOfIsFirst(s: string, pat: string, from: nat)
    ensures var r := IndexOf(s, pat, from);
            forall k :: from <= k && StartsWithAt(s, k, pat) ==> r.Some? && r.value <= k
    decreases |s| - from
  {
    if from + |pat| <= |s| && !StartsWithAt(s, from, pat) {
      IndexOfIsFirst(s, pat, from + 1);
    }
  }

  predicate Includes(s: string, pat: string) {
    IndexOf(s, pat, 0).Some?
  }

  /** A text includes what it holds between two others. */
  lemma {:induction false} IncludesIff(s: string, pat: string)
    ensures Includes(s, pat) <==> exists a, b :: s == a + pat + b
  {
    IndexOfIsFirst(s, pat, 0);
    if Includes(s, pat) {
      var k := IndexOf(s, pat, 0).value;
      assert s == s[..k] + pat + s[k + |pat|..];
    }
    if a, b :| s == a + pat + b {
      assert StartsWithAt(s, |a|, pat);
    }
  }

  /** `s.slice(i)` and `s.slice(0, i)` for non-negative `i`: out-of-range bounds are clamped. */
  function SliceFrom(s: string, i: nat): string {
    if i <= |s| then s[i..] else ""
  }

  function SliceTo(s: string, i: nat): string {
    if i <= |s| then s[..i] else s
  }

  /** Behind the end of the text there is nothing, and before it all of it. */
  lemma SlicesAreParts(s: string, i: nat)
    ensures SliceTo(s, i) + SliceFrom(s, i) == s
    ensures |SliceTo(s, i)| == if i <= |s| then i else |s|
  {
  }

  function TrimStart(s: string): string {
    s[Span(s, 0, IsSpace)..]
  }

  function TrimEnd(s: string): (r: string)
    ensures r <= s
    ensures r != "" ==> !IsSpace(r[|r| - 1])
  {
    if s != "" && IsSpace(s[|s| - 1]) then TrimEnd(s[..|s| - 1]) else s
  }

  function Trim(s: string): string {
    TrimEnd(TrimStart(s))
  }

  /** No white space at either end. */
  predicate Bare(t: string) {
    t != "" ==> !IsSpace(t[0]) && !IsSpace(t[|t| - 1])
  }

  /** A text is `t` between white space. */
  ghost predicate Surrounded(s: string, a: string, t: string, b: string) {
    AllSpace(a) && AllSpace(b) && Bare(t) && s == a + (t + b)
  }

  lemma {:induction false} TrimEndCuts(s: string)
    ensures AllSpace(s[|TrimEnd(s)|..])
  {
    if s != "" && IsSpace(s[|s| - 1]) {
      TrimEndCuts(s[..|s| - 1]);
      var n := |TrimEnd(s)|;
      assert s[n..] == s[..|s| - 1][n..] + [s[|s| - 1]];
    } else {
      assert s[|s|..] == "";
    }
  }

  lemma {:induction false} TrimEndOf(t: string, b: string)
    requires AllSpace(b) && (t != "" ==> !IsSpace(t[|t| - 1]))
    ensures TrimEnd(t + b) == t
  {
    if b == "" {
      assert t + b == t;
    } else {
      var init := b[..|b| - 1];
      assert (t + b)[|t + b| - 1] == b[|b| - 1];
      assert (t + b)[..|t + b| - 1] == t + init;
      TrimEndOf(t, init);
    }
  }

  lemma {:induction false} TrimStartOf(a: string, t: string)
    requires AllSpace(a) && (t != "" ==> !IsSpace(t[0]))
    ensures TrimStart(a + t) == t
  {
    SpanIs(a + t, 0, IsSpace, |a|);
  }

  /** Trimming takes off exactly the white space at both ends. */
  lemma {:induction false} TrimIff(s: string, t: string)
    ensures Trim(s) == t <==> exists a, b :: Surrounded(s, a, t, b)
  {
    hide TrimStart, TrimEnd;
    if Trim(s) == t {
      var a, b := TrimParts(s);
    }
    if a, b :| Surrounded(s, a, t, b) {
      TrimSurrounded(s, a, t, b);
    }
  }

  lemma {:induction false} TrimSurrounded(s: string, a: string, t: string, b: string)
    requires Surrounded(s, a, t, b)
    ensures Trim(s) == t
  {
    if t == "" {
      assert s == (a + b) + "" && AllSpace(a + b);
      TrimStartOf(a + b, "");
      TrimEndOf("", "");
    } else {
      TrimStartOf(a, t + b);
      TrimEndOf(t, b);
    }
  }

  lemma {:induction false} TrimParts(s: string) returns (a: string, b: string)
    ensures Surrounded(s, a, Trim(s), b)
  {
    var start := Span(s, 0, IsSpace);
    var rest := TrimStart(s);
    a, b := s[..start], rest[|Trim(s)|..];
    forall k | 0 <= k < start ensures IsSpace(s[k]) {
      SpanAll(s, 0, IsSpace, k);
    }
    TrimEndCuts(rest);
    assert rest == Trim(s) + b;
  }

  lemma {:induction false} TrimEmptyIff(s: string)
    ensures Trim(s) == "" <==> AllSpace(s)
  {
    hide Trim;
    if Trim(s) == "" {
      var a, b := TrimParts(s);
    }
    if AllSpace(s) {
      assert s == s + ("" + "");
      TrimSurrounded(s, s, "", "");
    }
  }

  // ----- split and join

  /** `s.split(sep)` for a one-character separator. */
  function Split(s: string, sep: char): (parts: seq<string>)
    ensures |parts| >= 1
  {
    if s == "" then [""]
    else
      var rest := Split(s[1..], sep);
      if s[0] == sep then [""] + rest else [[s[0]] + rest[0]] + rest[1..]
  }

  /** `parts.join(sep)` for a one-character separator. */
  function Join(parts: seq<string>, sep: char): string {
    if |parts| == 0 then ""
    else if |parts| == 1 then parts[0]
    else parts[0] + [sep] + Join(parts[1..], sep)
  }

  /** Every part followed by a separator: the form in which offsets add up. */
  function Flat(parts: seq<string>, sep: char): string {
    if parts == [] then "" else parts[0] + [sep] + Flat(parts[1..], sep)
  }

  lemma {:induction false} FlatAppend(a: seq<string>, b: seq<string>, sep: char)
    ensures Flat(a + b, sep) == Flat(a, sep) + Flat(b, sep)
  {
    if a == [] {
      assert a + b == b;
    } else {
      assert (a + b)[1..] == a[1..] + b;
      FlatAppend(a[1..], b, sep);
    }
  }

  lemma {:induction false} FlatJoin(parts: seq<string>, sep: char)
    requires parts != []
    ensures Flat(parts, sep) == Join(parts, sep) + [sep]
  {
    if |parts| > 1 {
      FlatJoin(parts[1..], sep);
    }
  }

  lemma {:induction false} FlatSplit(s: string, sep: char)
    ensures Flat(Split(s, sep), sep) == s + [sep]
  {
    if s == "" {
    } else {
      FlatSplit(s[1..], sep);
      var rest := Split(s[1..], sep);
      assert s == [s[0]] + s[1..];
      if s[0] == sep {
        assert ([""] + rest)[1..] == rest;
      } else {
        var parts := [[s[0]] + rest[0]] + rest[1..];
        assert parts[1..] == rest[1..];
        assert Flat(parts, sep) == [s[0]] + Flat(rest, sep);
      }
    }
  }

  /** Splitting and joining are inverse: joining what `split` returns gives the text back. */
  lemma {:induction false} JoinSplit(s: string, sep: char)
    ensures Join(Split(s, sep), sep) == s
  {
    FlatSplit(s, sep);
    FlatJoin(Split(s, sep), sep);
    assert Join(Split(s, sep), sep) == (Join(Split(s, sep), sep) + [sep])[..|s|];
  }

  lemma {:induction false} SplitCons(head: string, tail: string, sep: char)
    requires sep !in head
    ensures Split(head + [sep] + tail, sep) == [head] + Split(tail, sep)
  {
    var s := head + [sep] + tail;
    if head == "" {
      assert s[1..] == tail;
    } else {
      SplitCons(head[1..], tail, sep);
      assert s[1..] == head[1..] + [sep] + tail;
      assert [s[0]] + head[1..] == head;
    }
  }

  lemma {:induction false} SplitWhole(s: string, sep: char)
    requires sep !in s
    ensures Split(s, sep) == [s]
  {
    if s == "" {
    } else {
      SplitWhole(s[1..], sep);
      assert [s[0]] + s[1..] == s;
    }
  }

  /** No part that `split` returns holds the separator. */
  lemma {:induction false} SplitIsSeparated(s: string, sep: char)
    ensures Separated(Split(s, sep), sep)
  {
    if s == "" {
    } else {
      SplitIsSeparated(s[1..], sep);
    }
  }

  ghost predicate Separated(parts: seq<string>, sep: char) {
    parts != [] && forall i :: 0 <= i < |parts| ==> sep !in parts[i]
  }

  /** Splitting and joining are inverse: parts without the separator are recovered exactly. */
  lemma {:induction false} SplitJoin(parts: seq<string>, sep: char)
    requires Separated(parts, sep)
    ensures Split(Join(parts, sep), sep) == parts
  {
    if |parts| == 1 {
      SplitWhole(parts[0], sep);
    } else {
      SplitJoin(parts[1..], sep);
      SplitCons(parts[0], Join(parts[1..], sep), sep);
    }
  }

  // ----- decimal notation

  function Digit(n: nat): char
    requires n < 10
  {
    '0' + n as char
  }

  /** `String(n)` for a non-negative integer. */
  function Decimal(n: nat): (s: string)
    ensures s != "" && forall i :: 0 <= i < |s| ==> '0' <= s[i] <= '9'
  {
    if n < 10 then [Digit(n)] else Decimal(n / 10) + [Digit(n % 10)]
  }

  /** The value of a string of decimal digits. */
  function DecimalValue(s: string): nat
    requires forall i :: 0 <= i < |s| ==> '0' <= s[i] <= '9'
  {
    if s == "" then 0 else 10 * DecimalValue(s[..|s| - 1]) + (s[|s| - 1] as nat - '0' as nat)
  }

  lemma {:induction false} DecimalRoundTrip(n: nat)
    ensures DecimalValue(Decimal(n)) == n
  {
    if n >= 10 {
      DecimalRoundTrip(n / 10);
      assert Decimal(n)[..|Decimal(n)| - 1] == Decimal(n / 10);
    } else {
      assert Decimal(n)[..0] == "";
    }
  }

  lemma {:induction false} DecimalInjective(m: nat, n: nat)
    requires Decimal(m) == Decimal(n)
    ensures m == n
  {
    DecimalRoundTrip(m);
    DecimalRoundTrip(n);
  }
}
