/**
 * The small part of the JavaScript string library the core relies on:
 * ASCII case folding, substring search, `split`/`join`, `trim`, the
 * first run of decimal digits and the decimal form of a number.
 */
module Strings {
  import opened Wrappers

  // ---------------------------------------------------------------------
  // Case folding

  /** Lower-cases the ASCII letters A-Z and leaves every other character. */
  function LowerChar(c: char): (d: char)
    ensures 'A' <= c <= 'Z' ==> d as int == c as int + 32
    ensures !('A' <= c <= 'Z') ==> d == c
  {
    if 'A' <= c <= 'Z' then (c as int + 32) as char else c
  }

  /** `s.toLowerCase()`, restricted to ASCII letters. */
  function ToLower(s: string): (r: string)
    ensures |r| == |s|
    ensures forall i :: 0 <= i < |s| ==> r[i] == LowerChar(s[i])
  {
    if s == [] then [] else [LowerChar(s[0])] + ToLower(s[1..])
  }

  // ---------------------------------------------------------------------
  // Substrings

  /** `sub` occurs in `s` at index `i`. */
  predicate OccursAt(s: string, sub: string, i: int) {
    0 <= i && i + |sub| <= |s| && s[i..i + |sub|] == sub
  }

  /** `s.includes(sub)`. */
  predicate Contains(s: string, sub: string)
    ensures Contains(s, sub) <==> IndexOf(s, sub, 0).Some?
  {
    exists i :: 0 <= i <= |s| - |sub| && OccursAt(s, sub, i)
  }

  /** The first index at or after `k` where `sub` occurs in `s` (`s.indexOf(sub, k)`). */
  function IndexOf(s: string, sub: string, k: nat): (r: Option<nat>)
    requires k <= |s|
    ensures r.Some? ==> k <= r.value && OccursAt(s, sub, r.value)
    ensures r.Some? ==> forall j :: k <= j < r.value ==> !OccursAt(s, sub, j)
    ensures r.None? ==> forall j :: k <= j ==> !OccursAt(s, sub, j)
    decreases |s| - k
  {
    if OccursAt(s, sub, k) then Some(k)
    else if k + |sub| >= |s| then None
    else IndexOf(s, sub, k + 1)
  }

  // ---------------------------------------------------------------------
  // Digits

  predicate IsDigit(c: char) {
    '0' <= c <= '9'
  }

  /** The index of the first decimal digit at or after `k`. */
  function FirstDigitIndex(s: string, k: nat): (r: Option<nat>)
    requires k <= |s|
    ensures r.None? ==> forall j :: k <= j < |s| ==> !IsDigit(s[j])
    ensures r.Some? ==> k <= r.value < |s| && IsDigit(s[r.value])
    ensures r.Some? ==> forall j :: k <= j < r.value ==> !IsDigit(s[j])
    decreases |s| - k
  {
    if k == |s| then None
    else if IsDigit(s[k]) then Some(k)
    else FirstDigitIndex(s, k + 1)
  }

  /** The end of the run of digits that starts at `i`. */
  function DigitRunEnd(s: string, i: nat): (e: nat)
    requires i <= |s|
    ensures i <= e <= |s|
    ensures forall j :: i <= j < e ==> IsDigit(s[j])
    ensures e == |s| || !IsDigit(s[e])
    decreases |s| - i
  {
    if i < |s| && IsDigit(s[i]) then DigitRunEnd(s, i + 1) else i
  }

  /** The text of the first match of the regular expression `(\d+)` in `s`. */
  function FirstDigitRun(s: string): (r: Option<string>)
    ensures r.None? <==> forall j :: 0 <= j < |s| ==> !IsDigit(s[j])
    ensures r.Some? ==> r.value != [] && forall j :: 0 <= j < |r.value| ==> IsDigit(r.value[j])
    ensures r.Some? ==> exists i {:trigger s[i..]} ::
      0 <= i && i + |r.value| <= |s| && s[i..i + |r.value|] == r.value &&
      (forall j :: 0 <= j < i ==> !IsDigit(s[j])) &&
      (i + |r.value| == |s| || !IsDigit(s[i + |r.value|]))
  {
    match FirstDigitIndex(s, 0)
    case None => None
    case Some(i) =>
      var run := s[i..DigitRunEnd(s, i)];
      assert s[i..i + |run|] == run && s[i..] == s[i..];
      Some(run)
  }

  /** The decimal form of a non-negative integer, as `${n}` prints it. */
  function DecimalString(n: nat): (r: string)
    ensures r != []
    ensures forall j :: 0 <= j < |r| ==> IsDigit(r[j])
    ensures |r| > 1 ==> r[0] != '0'
  {
    var d := ['0' + (n % 10) as char];
    if n < 10 then d else DecimalString(n / 10) + d
  }

  /** The number a string of decimal digits spells, most significant digit first. */
  function DigitsValue(s: string): (v: nat)
    requires forall j :: 0 <= j < |s| ==> IsDigit(s[j])
  {
    if s == [] then 0
    else
      var p := s[..|s| - 1];
      assert forall j :: 0 <= j < |p| ==> IsDigit(p[j]) by {
        forall j | 0 <= j < |p| ensures IsDigit(p[j]) { assert p[j] == s[j]; }
      }
      assert IsDigit(s[|s| - 1]);
      10 * DigitsValue(p) + (s[|s| - 1] as int - '0' as int)
  }

  /** `${n}` spells `n`: reading its digits back gives the number. */
  lemma {:induction false} DecimalStringValue(n: nat)
    ensures DigitsValue(DecimalString(n)) == n
    decreases n
  {
    if n >= 10 {
      var h := DecimalString(n / 10);
      var d := ['0' + (n % 10) as char];
      DecimalStringValue(n / 10);
      assert (h + d)[..|h|] == h;
    }
  }

  // ---------------------------------------------------------------------
  // Trimming

  /** What `String.prototype.trim` removes: ECMAScript WhiteSpace and LineTerminator. */
  predicate IsTrimmable(c: char) {
    c == ' ' || c == '\t' || c == '\n' || c == '\r' || c == '\U{000B}' || c == '\U{000C}' ||
    c == '\U{00A0}' || c == '\U{1680}' || ('\U{2000}' <= c <= '\U{200A}') ||
    c == '\U{2028}' || c == '\U{2029}' || c == '\U{202F}' || c == '\U{205F}' ||
    c == '\U{3000}' || c == '\U{FEFF}'
  }

  /** What the regular-expression `.` does not match: ECMAScript LineTerminator. */
  predicate IsLineTerminator(c: char) {
    c == '\n' || c == '\r' || c == '\U{2028}' || c == '\U{2029}'
  }

  function TrimStart(s: string): (r: string)
    ensures r == [] || !IsTrimmable(r[0])
    ensures |r| <= |s| && r == s[|s| - |r|..]
    ensures forall j :: 0 <= j < |s| - |r| ==> IsTrimmable(s[j])
  {
    if s != [] && IsTrimmable(s[0]) then TrimStart(s[1..]) else s
  }

  function TrimEnd(s: string): (r: string)
    ensures r == [] || !IsTrimmable(r[|r| - 1])
    ensures |r| <= |s| && r == s[..|r|]
    ensures forall j :: |r| <= j < |s| ==> IsTrimmable(s[j])
  {
    if s != [] && IsTrimmable(s[|s| - 1]) then TrimEnd(s[..|s| - 1]) else s
  }

  /** `s.trim()`: the trimmable characters at both ends are removed. */
  function Trim(s: string): (r: string)
    ensures r == [] || (!IsTrimmable(r[0]) && !IsTrimmable(r[|r| - 1]))
    ensures r == [] <==> forall j :: 0 <= j < |s| ==> IsTrimmable(s[j])
    ensures exists i, j ::
      (0 <= i <= j <= |s| && r == s[i..j] &&
       (forall k :: 0 <= k < i ==> IsTrimmable(s[k])) &&
       (forall k :: j <= k < |s| ==> IsTrimmable(s[k])))
  {
    TrimSlice(s, TrimStart(s), TrimEnd(TrimStart(s)));
    TrimEnd(TrimStart(s))
  }

  /**
   * When `t` is `s` without a trimmable head and `r` is `t` without a
   * trimmable tail, `r` is the slice of `s` between those two ends.
   */
  lemma TrimSlice(s: string, t: string, r: string)
    requires |t| <= |s| && t == s[|s| - |t|..]
    requires forall k :: 0 <= k < |s| - |t| ==> IsTrimmable(s[k])
    requires |r| <= |t| && r == t[..|r|]
    requires forall k :: |r| <= k < |t| ==> IsTrimmable(t[k])
    ensures exists i, j ::
      (0 <= i <= j <= |s| && r == s[i..j] &&
       (forall k :: 0 <= k < i ==> IsTrimmable(s[k])) &&
       (forall k :: j <= k < |s| ==> IsTrimmable(s[k])))
  {
    var i := |s| - |t|;
    SliceOfSuffix(s, t, r);
    TrimmableTail(s, t, i, |r|);
    assert r == s[i..i + |r|];
  }

  /** A prefix `r` of a suffix `t` of `s` is the slice of `s` where it sits. */
  lemma SliceOfSuffix(s: string, t: string, r: string)
    requires |t| <= |s| && t == s[|s| - |t|..]
    requires |r| <= |t| && r == t[..|r|]
    ensures r == s[|s| - |t|..|s| - |t| + |r|]
  {
  }

  /** A trimmable tail of the suffix `t == s[i..]` is a trimmable tail of `s`. */
  lemma TrimmableTail(s: string, t: string, i: nat, m: nat)
    requires i <= |s| && t == s[i..] && m <= |t|
    requires forall k :: m <= k < |t| ==> IsTrimmable(t[k])
    ensures forall k :: i + m <= k < |s| ==> IsTrimmable(s[k])
  {
    forall k | i + m <= k < |s|
      ensures IsTrimmable(s[k])
    {
      assert s[k] == t[k - i];
    }
  }

  // ---------------------------------------------------------------------
  // split and join

  /** `s.split(c)` for a one-character separator. */
  function Split(s: string, c: char): (parts: seq<string>)
    ensures |parts| >= 1
    ensures forall k :: 0 <= k < |parts| ==> c !in parts[k]
  {
    if s == [] then [""]
    else if s[0] == c then [""] + Split(s[1..], c)
    else
      var rest := Split(s[1..], c);
      [[s[0]] + rest[0]] + rest[1..]
  }

  /** `parts.join(c)`. */
  function Join(parts: seq<string>, c: char): (r: string)
    ensures parts != [] ==> parts[0] <= r
    ensures |parts| >= 2 ==> c in r
  {
    if parts == [] then ""
    else if |parts| == 1 then parts[0]
    else parts[0] + [c] + Join(parts[1..], c)
  }

  /** Splitting and then joining on the same separator gives back the string. */
  lemma {:induction false} JoinSplit(s: string, c: char)
    ensures Join(Split(s, c), c) == s
  {
    if s == [] {
    } else if s[0] == c {
      JoinSplit(s[1..], c);
    } else {
      var rest := Split(s[1..], c);
      JoinSplit(s[1..], c);
      if |rest| == 1 {
        assert Split(s, c) == [[s[0]] + rest[0]];
      } else {
        assert Split(s, c) == [[s[0]] + rest[0]] + rest[1..];
        assert Join(rest, c) == rest[0] + [c] + Join(rest[1..], c);
        calc {
          Join(Split(s, c), c);
          ([s[0]] + rest[0]) + [c] + Join(rest[1..], c);
          [s[0]] + (rest[0] + [c] + Join(rest[1..], c));
          [s[0]] + s[1..];
        }
      }
    }
  }

  /** A string without the separator splits into itself alone. */
  lemma {:induction false} SplitNoSeparator(s: string, c: char)
    requires c !in s
    ensures Split(s, c) == [s]
  {
    if s != [] {
      assert s[0] in s;
      assert forall k :: 0 <= k < |s| - 1 ==> s[1..][k] == s[k + 1];
      SplitNoSeparator(s[1..], c);
      assert [s[0]] + s[1..] == s;
    }
  }

  /** Splitting distributes over a separator: the parts of `a`, then those of `b`. */
  lemma {:induction false} SplitAround(a: string, c: char, b: string)
    ensures Split(a + [c] + b, c) == Split(a, c) + Split(b, c)
  {
    if a == [] {
      assert a + [c] + b == [c] + b;
      assert ([c] + b)[1..] == b;
    } else {
      assert (a + [c] + b)[0] == a[0];
      assert (a + [c] + b)[1..] == a[1..] + [c] + b;
      SplitAround(a[1..], c, b);
    }
  }

  /** Joining parts free of the separator and splitting again gives the parts back. */
  lemma {:induction false} SplitJoin(parts: seq<string>, c: char)
    requires parts != []
    requires forall k :: 0 <= k < |parts| ==> c !in parts[k]
    ensures Split(Join(parts, c), c) == parts
  {
    if |parts| == 1 {
      SplitNoSeparator(parts[0], c);
    } else {
      SplitJoin(parts[1..], c);
      SplitNoSeparator(parts[0], c);
      SplitAround(parts[0], c, Join(parts[1..], c));
      assert [parts[0]] + parts[1..] == parts;
    }
  }

  /** The last part of `s.split(c)`, as `pop()` returns it. */
  function LastSegment(s: string, c: char): (r: string)
    ensures c !in r
  {
    var parts := Split(s, c);
    parts[|parts| - 1]
  }

  /** `s.split(c).slice(-2).join(c)`: the last two parts glued back together. */
  function LastTwoSegments(s: string, c: char): (r: string)
    ensures c !in s ==> r == s
  {
    if c !in s then SplitNoSeparator(s, c); s else
    var parts := Split(s, c);
    Join(if |parts| >= 2 then parts[|parts| - 2..] else parts, c)
  }

  /** The last part after a separator is what follows the last separator. */
  lemma LastSegmentAfter(a: string, c: char, b: string)
    requires c !in b
    ensures LastSegment(a + [c] + b, c) == b
  {
    SplitAround(a, c, b);
    SplitNoSeparator(b, c);
  }

  /** A string without the separator is its own last part. */
  lemma LastSegmentWhole(s: string, c: char)
    requires c !in s
    ensures LastSegment(s, c) == s
  {
    SplitNoSeparator(s, c);
  }

  /** The last two parts of a string ending in `c b1 c b2` are `b1 c b2`. */
  lemma LastTwoSegmentsAfter(a: string, c: char, b1: string, b2: string)
    requires c !in b1 && c !in b2
    ensures LastTwoSegments(a + [c] + b1 + [c] + b2, c) == b1 + [c] + b2
  {
    assert a + [c] + b1 + [c] + b2 == a + [c] + (b1 + [c] + b2);
    SplitAround(a, c, b1 + [c] + b2);
    SplitAround(b1, c, b2);
    SplitNoSeparator(b1, c);
    SplitNoSeparator(b2, c);
    var parts := Split(a, c) + [b1, b2];
    assert Split(a + [c] + b1 + [c] + b2, c) == parts;
    assert parts[|parts| - 2..] == [b1, b2];
    assert [b1, b2][1..] == [b2];
    assert Join([b1, b2], c) == b1 + [c] + b2;
  }

  /** With one separator, `b1 c b2`, the last two parts are the whole string. */
  lemma LastTwoSegmentsOne(b1: string, c: char, b2: string)
    requires c !in b1 && c !in b2
    ensures LastTwoSegments(b1 + [c] + b2, c) == b1 + [c] + b2
  {
    var s := b1 + [c] + b2;
    SplitAround(b1, c, b2);
    SplitNoSeparator(b1, c);
    SplitNoSeparator(b2, c);
    assert Split(s, c) == [b1, b2];
    assert s[|b1|] == c;
    assert [b1, b2][1..] == [b2];
    assert Join([b1, b2], c) == b1 + [c] + Join([b2], c);
  }

  /** A character absent from `s` is absent from each of its parts. */
  lemma {:induction false} SplitKeepsOut(s: string, c: char, x: char)
    requires x !in s
    ensures forall k :: 0 <= k < |Split(s, c)| ==> x !in Split(s, c)[k]
  {
    if s != [] {
      assert s[0] in s;
      assert forall y :: y in s[1..] ==> y in s;
      SplitKeepsOut(s[1..], c, x);
    }
  }

  /** A character absent from `s` is absent from its last part. */
  lemma LastSegmentKeepsOut(s: string, c: char, x: char)
    requires x !in s
    ensures x !in LastSegment(s, c)
  {
    SplitKeepsOut(s, c, x);
  }
}
