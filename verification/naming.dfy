/** Identifier recasing helpers used when naming generated symbols. */
module Naming {
  import opened Strings

  /** First character lower-cased, the rest untouched; the empty string is returned as is. */
  function Camel(s: string): (r: string)
    ensures |r| == |s|
    ensures |s| > 0 ==> r[0] == ToLower(s[0])
    ensures forall i :: 1 <= i < |s| ==> r[i] == s[i]
  {
    if |s| == 0 then s else [ToLower(s[0])] + s[1..]
  }

  /** First character upper-cased, the rest untouched; the empty string is returned as is. */
  function Pascal(s: string): (r: string)
    ensures |r| == |s|
    ensures |s| > 0 ==> r[0] == ToUpper(s[0])
    ensures forall i :: 1 <= i < |s| ==> r[i] == s[i]
  {
    if |s| == 0 then s else [ToUpper(s[0])] + s[1..]
  }

  lemma CamelIdempotent(s: string)
    ensures Camel(Camel(s)) == Camel(s)
  {
  }

  lemma PascalIdempotent(s: string)
    ensures Pascal(Pascal(s)) == Pascal(s)
  {
  }

  /** Upper-casing the first character first makes no difference to `Camel`, and vice versa. */
  lemma CamelPascalAbsorb(s: string)
    ensures Camel(Pascal(s)) == Camel(s)
    ensures Pascal(Camel(s)) == Pascal(s)
  {
  }

  /** JavaScript's `\w` without the `u` flag. */
  predicate IsWordChar(c: char) {
    IsAsciiLower(c) || IsAsciiUpper(c) || ('0' <= c <= '9') || c == '_'
  }

  /** JavaScript's `\s`: the ECMAScript white-space and line-terminator characters. */
  predicate IsJsSpace(c: char) {
    c == '\t' || c == '\n' || c == '\U{B}' || c == '\U{C}' || c == '\r' || c == ' '
    || c == '\U{A0}' || c == '\U{1680}' || ('\U{2000}' <= c <= '\U{200A}')
    || c == '\U{2028}' || c == '\U{2029}' || c == '\U{202F}' || c == '\U{205F}'
    || c == '\U{3000}' || c == '\U{FEFF}'
  }

  /** A character the second regex `\s+|_|-` deletes. */
  predicate IsSeparator(c: char) {
    IsJsSpace(c) || c == '_' || c == '-'
  }

  /**
   * The first regex `(?:^\w|[A-Z]|\b\w)` matches the character at `i`: an
   * upper-case letter, or a word character with a word boundary before it.
   * `underscoreSplits` also counts a word character right after `_` as a
   * word start, which the regex as written does not (see `ToCamelCaseCorrected`).
   */
  predicate MatchesAt(s: string, i: int, underscoreSplits: bool)
    requires 0 <= i < |s|
  {
    IsAsciiUpper(s[i])
    || (IsWordChar(s[i]) && (i == 0 || !IsWordChar(s[i - 1]) || (underscoreSplits && s[i - 1] == '_')))
  }

  /** The first `replace`: a match at index 0 is lower-cased, every later match upper-cased. */
  function Recase(s: string, underscoreSplits: bool): (t: string)
    ensures |t| == |s|
    ensures |s| > 0 ==> t[0] == s[0] || t[0] == ToLower(s[0])
    ensures forall i :: 0 < i < |s| ==> t[i] == s[i] || t[i] == ToUpper(s[i])
    ensures forall i :: 0 <= i < |s| ==> (IsSeparator(t[i]) <==> IsSeparator(s[i]))
  {
    seq(|s|, i requires 0 <= i < |s| =>
      if MatchesAt(s, i, underscoreSplits) then (if i == 0 then ToLower(s[i]) else ToUpper(s[i])) else s[i])
  }

  /** The second `replace`: every separator character dropped, the rest kept in order. */
  function RemoveSeparators(t: string): (r: string)
    ensures |r| <= |t|
    ensures forall i :: 0 <= i < |r| ==> !IsSeparator(r[i])
    ensures forall c :: c in r ==> c in t
    decreases |t|
  {
    if |t| == 0 then ""
    else if IsSeparator(t[0]) then RemoveSeparators(t[1..])
    else [t[0]] + RemoveSeparators(t[1..])
  }

  lemma {:induction false} RemoveSeparatorsAppend(a: string, b: string)
    ensures RemoveSeparators(a + b) == RemoveSeparators(a) + RemoveSeparators(b)
    decreases |a|
  {
    if |a| > 0 {
      assert (a + b)[0] == a[0];
      assert (a + b)[1..] == a[1..] + b;
      RemoveSeparatorsAppend(a[1..], b);
    } else {
      assert a + b == b;
    }
  }

  lemma {:induction false} RemoveSeparatorsNone(t: string)
    requires forall i :: 0 <= i < |t| ==> !IsSeparator(t[i])
    ensures RemoveSeparators(t) == t
    decreases |t|
  {
    if |t| > 0 {
      RemoveSeparatorsNone(t[1..]);
    }
  }

  /** `toCamelCase` as written: recase, then drop separators. */
  function ToCamelCase(s: string): (r: string)
    ensures |r| <= |s|
    ensures forall i :: 0 <= i < |r| ==> !IsSeparator(r[i])
  {
    RemoveSeparators(Recase(s, false))
  }

  /** `toCamelCase` with a word after `_` capitalised, as the snake_case comment intends. */
  function ToCamelCaseCorrected(s: string): (r: string)
    ensures |r| <= |s|
    ensures forall i :: 0 <= i < |r| ==> !IsSeparator(r[i])
  {
    RemoveSeparators(Recase(s, true))
  }

  predicate IsLowerWord(w: string) {
    |w| > 0 && forall i :: 0 <= i < |w| ==> IsAsciiLower(w[i])
  }

  predicate IsAlphanumeric(w: string) {
    forall i :: 0 <= i < |w| ==> IsAsciiLower(w[i]) || IsAsciiUpper(w[i]) || ('0' <= w[i] <= '9')
  }

  /** On a single alphanumeric word `toCamelCase` is `camel`: only index 0 can be lower-cased. */
  lemma ToCamelCaseOfWord(w: string)
    requires IsAlphanumeric(w)
    ensures ToCamelCase(w) == Camel(w)
    ensures ToCamelCaseCorrected(w) == Camel(w)
  {
    var t := Recase(w, false);
    var t' := Recase(w, true);
    assert t == Camel(w);
    assert t' == Camel(w);
    RemoveSeparatorsNone(t);
  }

  /** Dropping the one separator between two separator-free strings joins them. */
  lemma DropSeparator(a: string, x: char, c: string)
    requires IsSeparator(x)
    requires forall i :: 0 <= i < |a| ==> !IsSeparator(a[i])
    requires forall i :: 0 <= i < |c| ==> !IsSeparator(c[i])
    ensures RemoveSeparators(a + [x] + c) == a + c
  {
    calc {
      RemoveSeparators(a + [x] + c);
      { RemoveSeparatorsAppend(a + [x], c); }
      RemoveSeparators(a + [x]) + RemoveSeparators(c);
      { RemoveSeparatorsAppend(a, [x]); }
      RemoveSeparators(a) + RemoveSeparators([x]) + RemoveSeparators(c);
      { RemoveSeparatorsNone(a); RemoveSeparatorsNone(c); SeparatorAlone(x); }
      a + "" + c;
      { assert a + "" == a; }
      a + c;
    }
  }

  lemma SeparatorAlone(x: char)
    requires IsSeparator(x)
    ensures RemoveSeparators([x]) == ""
  {
    assert [x][1..] == "";
  }

  /** A lower-case letter that opens the string or follows a letter keeps its case. */
  lemma StaysLower(s: string, i: nat, underscoreSplits: bool)
    requires i < |s| && IsAsciiLower(s[i])
    requires i > 0 ==> IsAsciiLower(s[i - 1])
    ensures Recase(s, underscoreSplits)[i] == s[i]
  {
  }

  /** Recasing leaves the lower-case word `a` at the front of `a + [x] + b` as it is. */
  lemma RecaseHead(a: string, x: char, b: string, underscoreSplits: bool)
    requires IsLowerWord(a)
    ensures Recase(a + [x] + b, underscoreSplits)[..|a|] == a
  {
    var s := a + [x] + b;
    var t := Recase(s, underscoreSplits);
    forall i | 0 <= i < |a|
      ensures t[i] == a[i]
    {
      assert s[i] == a[i];
      if i > 0 {
        assert s[i - 1] == a[i - 1];
      }
      StaysLower(s, i, underscoreSplits);
    }
  }

  /** Recasing leaves the lower-case word `b` after its first letter as it is. */
  lemma RecaseTail(a: string, x: char, b: string, underscoreSplits: bool)
    requires IsLowerWord(b)
    ensures Recase(a + [x] + b, underscoreSplits)[|a| + 2..] == b[1..]
  {
    var s := a + [x] + b;
    var t := Recase(s, underscoreSplits);
    forall k | 0 <= k < |b| - 1
      ensures t[|a| + 2..][k] == b[1..][k]
    {
      var i := |a| + 2 + k;
      assert s[i] == b[k + 1] && s[i - 1] == b[k];
      StaysLower(s, i, underscoreSplits);
    }
  }

  /** A `-` or `_` after a lower-case letter is not a match. */
  lemma SeparatorKept(s: string, i: nat, underscoreSplits: bool)
    requires 0 < i < |s| && (s[i] == '-' || s[i] == '_') && IsAsciiLower(s[i - 1])
    ensures Recase(s, underscoreSplits)[i] == s[i]
  {
  }

  lemma Reassemble(t: string, a: string, x: char, b: string)
    requires |b| >= 1 && |t| == |a| + 1 + |b|
    requires t[..|a|] == a && t[|a|] == x && t[|a| + 2..] == b[1..]
    ensures t == a + [x] + ([t[|a| + 1]] + b[1..])
  {
    assert t == t[..|a|] + [t[|a|]] + ([t[|a| + 1]] + t[|a| + 2..]);
  }

  /** Recasing `a + [x] + b` around a separator changes at most the character after it. */
  lemma RecaseAround(a: string, x: char, b: string, underscoreSplits: bool)
    requires IsLowerWord(a) && IsLowerWord(b) && (x == '-' || x == '_')
    ensures var t := Recase(a + [x] + b, underscoreSplits);
      t == a + [x] + ([t[|a| + 1]] + b[1..])
  {
    var s := a + [x] + b;
    RecaseHead(a, x, b, underscoreSplits);
    RecaseTail(a, x, b, underscoreSplits);
    assert s[|a|] == x && s[|a| - 1] == a[|a| - 1];
    SeparatorKept(s, |a|, underscoreSplits);
    Reassemble(Recase(s, underscoreSplits), a, x, b);
  }

  /** The letter after `-`, or after `_` when underscores split, is upper-cased. */
  lemma WordStart(s: string, i: nat, underscoreSplits: bool)
    requires 0 < i < |s| && IsAsciiLower(s[i])
    requires s[i - 1] == '-' || (underscoreSplits && s[i - 1] == '_')
    ensures Recase(s, underscoreSplits)[i] == ToUpper(s[i])
  {
  }

  /** As written, the letter after `_` keeps its case. */
  lemma NoWordStart(s: string, i: nat)
    requires 0 < i < |s| && IsAsciiLower(s[i]) && s[i - 1] == '_'
    ensures Recase(s, false)[i] == s[i]
  {
  }

  /** A hyphen starts a new capitalised word. */
  lemma KebabToCamel(a: string, b: string)
    requires IsLowerWord(a) && IsLowerWord(b)
    ensures ToCamelCase(a + "-" + b) == a + [ToUpper(b[0])] + b[1..]
  {
    var s := a + ['-'] + b;
    var b' := [ToUpper(b[0])] + b[1..];
    assert s[|a| + 1] == b[0] && s[|a|] == '-';
    calc {
      ToCamelCase(s);
      RemoveSeparators(Recase(s, false));
      { RecaseAround(a, '-', b, false); WordStart(s, |a| + 1, false); }
      RemoveSeparators(a + ['-'] + b');
      { DropSeparator(a, '-', b'); }
      a + b';
      a + [ToUpper(b[0])] + b[1..];
    }
  }

  /**
   * As written, an underscore does not start a new word: `_` is itself a
   * word character, so there is no word boundary after it, and the
   * snake_case input loses its separator without gaining a capital.
   */
  lemma SnakeAsWritten(a: string, b: string)
    requires IsLowerWord(a) && IsLowerWord(b)
    ensures ToCamelCase(a + "_" + b) == a + b
  {
    var s := a + ['_'] + b;
    assert s[|a| + 1] == b[0] && s[|a|] == '_';
    calc {
      ToCamelCase(s);
      RemoveSeparators(Recase(s, false));
      { RecaseAround(a, '_', b, false); NoWordStart(s, |a| + 1); assert [b[0]] + b[1..] == b; }
      RemoveSeparators(a + ['_'] + b);
      { DropSeparator(a, '_', b); }
      a + b;
    }
  }

  lemma SnakeAsWrittenExample()
    ensures ToCamelCase("user_service") == "userservice"
  {
    assert IsLowerWord("user");
    assert IsLowerWord("service");
    SnakeAsWritten("user", "service");
    assert "user" + "_" + "service" == "user_service";
    assert "user" + "service" == "userservice";
  }

  /** The corrected conversion capitalises the word after `_`. */
  lemma SnakeCorrected(a: string, b: string)
    requires IsLowerWord(a) && IsLowerWord(b)
    ensures ToCamelCaseCorrected(a + "_" + b) == a + [ToUpper(b[0])] + b[1..]
  {
    var s := a + ['_'] + b;
    var b' := [ToUpper(b[0])] + b[1..];
    assert s[|a| + 1] == b[0] && s[|a|] == '_';
    calc {
      ToCamelCaseCorrected(s);
      RemoveSeparators(Recase(s, true));
      { RecaseAround(a, '_', b, true); WordStart(s, |a| + 1, true); }
      RemoveSeparators(a + ['_'] + b');
      { DropSeparator(a, '_', b'); }
      a + b';
      a + [ToUpper(b[0])] + b[1..];
    }
  }
}
