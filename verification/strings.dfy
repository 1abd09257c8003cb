/** String predicates and ASCII case mapping used throughout the model. */
module Strings {

  /** JavaScript's `s.startsWith(p)`. */
  predicate StartsWith(s: string, p: string) {
    |p| <= |s| && s[..|p|] == p
  }

  /** JavaScript's `s.endsWith(p)`. */
  predicate EndsWith(s: string, p: string) {
    |p| <= |s| && s[|s| - |p|..] == p
  }

  /** A string ending with `b`, which ends with `c`, ends with `c`. */
  lemma EndsWithTrans(a: string, b: string, c: string)
    requires EndsWith(a, b) && EndsWith(b, c)
    ensures EndsWith(a, c)
  {
    assert a[|a| - |c|..] == a[|a| - |b|..][|b| - |c|..];
  }

  /** JavaScript's `s.includes(p)`: `p` occurs in `s` as a contiguous run. */
  predicate Contains(s: string, p: string)
    decreases |s|
  {
    StartsWith(s, p) || (|s| > 0 && Contains(s[1..], p))
  }

  predicate IsAsciiUpper(c: char) {
    'A' <= c <= 'Z'
  }

  predicate IsAsciiLower(c: char) {
    'a' <= c <= 'z'
  }

  /** `toLowerCase` of one character, restricted to the ASCII letters. */
  function ToLower(c: char): (r: char)
    ensures !IsAsciiUpper(r)
    ensures IsAsciiUpper(c) ==> IsAsciiLower(r) && r as int == c as int + 32
    ensures !IsAsciiUpper(c) ==> r == c
  {
    if IsAsciiUpper(c) then (c as int + 32) as char else c
  }

  /** `toUpperCase` of one character, restricted to the ASCII letters. */
  function ToUpper(c: char): (r: char)
    ensures !IsAsciiLower(r)
    ensures IsAsciiLower(c) ==> IsAsciiUpper(r) && r as int == c as int - 32
    ensures !IsAsciiLower(c) ==> r == c
  {
    if IsAsciiLower(c) then (c as int - 32) as char else c
  }

  /** `toLowerCase` of a string, restricted to the ASCII letters. */
  function LowerString(s: string): (r: string)
    ensures |r| == |s|
    ensures forall i :: 0 <= i < |s| ==> r[i] == ToLower(s[i])
  {
    seq(|s|, i requires 0 <= i < |s| => ToLower(s[i]))
  }

  /** `parts.join(sep)`. */
  function Join(parts: seq<string>, sep: string): string
    decreases |parts|
  {
    if |parts| == 0 then ""
    else if |parts| == 1 then parts[0]
    else parts[0] + sep + Join(parts[1..], sep)
  }

  /** `s.split(c)` for a one-character separator: never empty, no piece holds `c`. */
  function Split(s: string, c: char): (r: seq<string>)
    ensures |r| >= 1
    ensures forall i :: 0 <= i < |r| ==> c !in r[i]
    decreases |s|
  {
    if |s| == 0 then [""]
    else
      var rest := Split(s[1..], c);
      if s[0] == c then [""] + rest else [[s[0]] + rest[0]] + rest[1..]
  }

  /** A string without the separator is one piece. */
  lemma {:induction false} SplitNoSeparator(s: string, c: char)
    requires c !in s
    ensures Split(s, c) == [s]
    decreases |s|
  {
    if |s| > 0 {
      SplitNoSeparator(s[1..], c);
      assert [s[0]] + s[1..] == s;
    }
  }

  /** Splitting distributes over a separator: `(a + c + b).split(c)` is `a.split(c)` followed by `b.split(c)`. */
  lemma {:induction false} SplitAround(a: string, c: char, b: string)
    ensures Split(a + [c] + b, c) == Split(a, c) + Split(b, c)
    decreases |a|
  {
    var s := a + [c] + b;
    if |a| == 0 {
      assert s == [c] + b;
      assert s[1..] == b;
    } else {
      assert s[1..] == a[1..] + [c] + b;
      SplitAround(a[1..], c, b);
    }
  }

  /** Splitting a join gives the parts back when no part holds the separator. */
  lemma {:induction false} SplitJoin(parts: seq<string>, c: char)
    requires |parts| >= 1
    requires forall i :: 0 <= i < |parts| ==> c !in parts[i]
    ensures Split(Join(parts, [c]), c) == parts
    decreases |parts|
  {
    if |parts| == 1 {
      SplitNoSeparator(parts[0], c);
    } else {
      SplitJoin(parts[1..], c);
      SplitAround(parts[0], c, Join(parts[1..], [c]));
      SplitNoSeparator(parts[0], c);
      assert [parts[0]] + parts[1..] == parts;
    }
  }

  /** A join ends with its last part. */
  lemma {:induction false} JoinEndsWithLast(parts: seq<string>, sep: string)
    requires |parts| >= 1
    ensures EndsWith(Join(parts, sep), parts[|parts| - 1])
    decreases |parts|
  {
    if |parts| > 1 {
      JoinEndsWithLast(parts[1..], sep);
      var j := Join(parts[1..], sep);
      var s := parts[0] + sep + j;
      var last := parts[|parts| - 1];
      assert s[|s| - |last|..] == j[|j| - |last|..];
    }
  }

  /** A character occurs in a join only if it occurs in a part or in the separator. */
  lemma {:induction false} JoinChars(parts: seq<string>, sep: string, ch: char)
    requires ch !in sep
    requires forall i :: 0 <= i < |parts| ==> ch !in parts[i]
    ensures ch !in Join(parts, sep)
    decreases |parts|
  {
    if |parts| > 1 {
      JoinChars(parts[1..], sep, ch);
    }
  }

  /** Cutting `j` characters off the end of a join cuts them off its last part. */
  lemma {:induction false} JoinTrimLast(parts: seq<string>, sep: string, j: nat)
    requires |parts| >= 1 && j <= |parts[|parts| - 1]|
    ensures |Join(parts, sep)| >= j
    ensures Join(parts, sep)[..|Join(parts, sep)| - j]
      == Join(parts[..|parts| - 1] + [parts[|parts| - 1][..|parts[|parts| - 1]| - j]], sep)
    decreases |parts|
  {
    var last := parts[|parts| - 1];
    var cut := parts[..|parts| - 1] + [last[..|last| - j]];
    if |parts| == 1 {
      assert cut == [last[..|last| - j]];
    } else {
      var rest := parts[1..];
      JoinTrimLast(rest, sep, j);
      var jr := Join(rest, sep);
      var whole := parts[0] + sep + jr;
      assert whole[..|whole| - j] == parts[0] + sep + jr[..|jr| - j];
      assert cut[0] == parts[0];
      assert cut[1..] == rest[..|rest| - 1] + [last[..|last| - j]];
    }
  }

  /** The index just after the last occurrence of `c` in `t`, or 0 when `c` does not occur. */
  function AfterLast(t: string, c: char): (i: nat)
    ensures i <= |t|
    ensures c !in t[i..]
    ensures i > 0 ==> t[i - 1] == c
    decreases |t|
  {
    if |t| == 0 then 0
    else if t[|t| - 1] == c then |t|
    else
      var i := AfterLast(t[..|t| - 1], c);
      assert t[i..] == t[..|t| - 1][i..] + [t[|t| - 1]];
      i
  }

  /** Characters other than `c` do not move its last occurrence. */
  lemma {:induction false} AfterLastAppend(a: string, b: string, c: char)
    requires c !in b
    ensures AfterLast(a + b, c) == AfterLast(a, c)
    decreases |b|
  {
    if |b| == 0 {
      assert a + b == a;
    } else {
      var ab := a + b;
      assert ab[|ab| - 1] == b[|b| - 1];
      assert ab[..|ab| - 1] == a + b[..|b| - 1];
      AfterLastAppend(a, b[..|b| - 1], c);
    }
  }

  /** `s.split(c).pop()`: the piece after the last `c`, the whole string when there is none. */
  function LastSegment(s: string, c: char): (r: string)
    ensures c !in r && EndsWith(s, r)
    ensures |r| < |s| ==> s[|s| - |r| - 1] == c
  {
    s[AfterLast(s, c)..]
  }

  /** The last segment of `a + c + b` is `b` when `b` has no `c`. */
  lemma LastSegmentAppend(a: string, c: char, b: string)
    requires c !in b
    ensures LastSegment(a + [c] + b, c) == b
  {
    var s := a + [c] + b;
    AfterLastAppend(a + [c], b, c);
    assert (a + [c])[|a|] == c;
    assert s[|a| + 1..] == b;
  }

  /** The last segment agrees with the last piece of the split. */
  lemma {:induction false} LastSegmentIsLastPiece(s: string, c: char)
    ensures LastSegment(s, c) == Split(s, c)[|Split(s, c)| - 1]
    decreases |s|
  {
    if |s| > 0 && c !in s {
      SplitNoSeparator(s, c);
    } else if |s| > 0 {
      var i := AfterLast(s, c);
      var a := s[..i - 1];
      var b := s[i..];
      assert s == a + [c] + b;
      SplitAround(a, c, b);
      SplitNoSeparator(b, c);
      LastSegmentAppend(a, c, b);
    }
  }
}
