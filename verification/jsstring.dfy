/** The three JavaScript string operations the relay applies to its inputs:
    `toUpperCase` (restricted to ASCII letters), `trim` and `startsWith`. */
module JsString {

  /** The characters ECMAScript's `String.prototype.trim` strips: the WhiteSpace
      code points (tab, vertical tab, form feed, space, no-break space, the byte
      order mark and the other space separators) and the LineTerminator code
      points (line feed, carriage return, line and paragraph separators). */
  predicate IsWhitespace(c: char) {
    || c == '\t' || c == '\n' || c == '\U{0B}' || c == '\U{0C}' || c == '\r'
    || c == ' ' || c == '\U{A0}' || c == '\U{1680}'
    || ('\U{2000}' <= c <= '\U{200A}')
    || c == '\U{2028}' || c == '\U{2029}' || c == '\U{202F}' || c == '\U{205F}'
    || c == '\U{3000}' || c == '\U{FEFF}'
  }

  predicate IsAsciiLower(c: char) {
    'a' <= c <= 'z'
  }

  /** True when every character of `s` is whitespace. */
  predicate AllWhitespace(s: string) {
    forall i :: 0 <= i < |s| ==> IsWhitespace(s[i])
  }

  /** Upper-casing of one character, ASCII letters only. */
  function UpperChar(c: char): (u: char)
    ensures !IsAsciiLower(u)
    ensures !IsAsciiLower(c) ==> u == c
    ensures IsWhitespace(u) <==> IsWhitespace(c)
  {
    if IsAsciiLower(c) then (c as int - 32) as char else c
  }

  /** A lower-case ASCII letter becomes its own capital: the letter at the
      same place in the alphabet. */
  lemma UpperCharIsCapital(c: char)
    requires IsAsciiLower(c)
    ensures 'A' <= UpperChar(c) <= 'Z'
    ensures UpperChar(c) as int - 'A' as int == c as int - 'a' as int
  {
  }

  /** `s.toUpperCase()` for strings whose letters are ASCII. */
  function Upper(s: string): (u: string)
    ensures |u| == |s|
    ensures forall i :: 0 <= i < |s| ==> u[i] == UpperChar(s[i])
  {
    seq(|s|, i requires 0 <= i < |s| => UpperChar(s[i]))
  }

  /** True when no character of `s` is an ASCII lower-case letter. */
  predicate NoLower(s: string) {
    forall i :: 0 <= i < |s| ==> !IsAsciiLower(s[i])
  }

  /** True when `s` has no leading and no trailing whitespace. */
  predicate Trimmed(s: string) {
    |s| == 0 || (!IsWhitespace(s[0]) && !IsWhitespace(s[|s| - 1]))
  }

  /** Drops leading whitespace; the result is the longest suffix of `s` that
      starts with a non-whitespace character (or is empty). */
  function TrimStart(s: string): (r: string)
    ensures |r| <= |s| && r == s[|s| - |r|..]
    ensures forall i :: 0 <= i < |s| - |r| ==> IsWhitespace(s[i])
    ensures |r| == 0 || !IsWhitespace(r[0])
  {
    if |s| > 0 && IsWhitespace(s[0]) then TrimStart(s[1..]) else s
  }

  /** Drops trailing whitespace; the result is the longest prefix of `s` that
      ends with a non-whitespace character (or is empty). */
  function TrimEnd(s: string): (r: string)
    ensures |r| <= |s| && r == s[..|r|]
    ensures forall i :: |r| <= i < |s| ==> IsWhitespace(s[i])
    ensures |r| == 0 || !IsWhitespace(r[|r| - 1])
  {
    if |s| > 0 && IsWhitespace(s[|s| - 1]) then TrimEnd(s[..|s| - 1]) else s
  }

  /** `s.trim()`. */
  function Trim(s: string): (r: string)
    ensures Trimmed(r)
    ensures |r| <= |s|
  {
    TrimEnd(TrimStart(s))
  }

  /** `s.startsWith(p)`: `s` is `p` followed by the rest of `s`. */
  predicate StartsWith(s: string, p: string): (b: bool)
    ensures b <==> |p| <= |s| && s == p + s[|p|..]
  {
    |p| <= |s| && s[..|p|] == p
  }

  /** Every string `p + rest` starts with `p`. */
  lemma StartsWithConcat(p: string, rest: string)
    ensures StartsWith(p + rest, p)
  {
    assert (p + rest)[..|p|] == p;
  }

  /** TrimStart stops at the first non-whitespace character. */
  lemma TrimStartAt(s: string, a: nat)
    requires a <= |s|
    requires forall i :: 0 <= i < a ==> IsWhitespace(s[i])
    requires a == |s| || !IsWhitespace(s[a])
    ensures TrimStart(s) == s[a..]
  {
  }

  /** TrimEnd stops after the last non-whitespace character. */
  lemma TrimEndAt(s: string, b: nat)
    requires b <= |s|
    requires forall i :: b <= i < |s| ==> IsWhitespace(s[i])
    requires b == 0 || !IsWhitespace(s[b - 1])
    ensures TrimEnd(s) == s[..b]
  {
  }

  /** Trimming removes exactly the whitespace around the slice `s[a..b]` when
      everything outside the slice is whitespace and the slice itself is
      empty or starts and ends with a non-whitespace character. */
  lemma TrimSlice(s: string, a: nat, b: nat)
    requires a <= b <= |s|
    requires forall i :: 0 <= i < a ==> IsWhitespace(s[i])
    requires forall i :: b <= i < |s| ==> IsWhitespace(s[i])
    requires Trimmed(s[a..b])
    ensures Trim(s) == s[a..b]
  {
    if a == b {
      TrimStartAt(s, |s|);
      TrimEndAt([], 0);
    } else {
      TrimSliceNonEmpty(s, a, b);
    }
  }

  /** TrimSlice for a non-empty slice. */
  lemma TrimSliceNonEmpty(s: string, a: nat, b: nat)
    requires a < b <= |s|
    requires forall i :: 0 <= i < a ==> IsWhitespace(s[i])
    requires forall i :: b <= i < |s| ==> IsWhitespace(s[i])
    requires !IsWhitespace(s[a]) && !IsWhitespace(s[b - 1])
    ensures Trim(s) == s[a..b]
  {
    TrimStartAt(s, a);
    TrimEndOfSuffix(s, a, b);
  }

  /** Trailing whitespace after position `b` is what TrimEnd drops from the
      suffix `s[a..]`. */
  lemma {:induction false} TrimEndOfSuffix(s: string, a: nat, b: nat)
    requires a < b <= |s|
    requires forall i :: b <= i < |s| ==> IsWhitespace(s[i])
    requires !IsWhitespace(s[b - 1])
    ensures TrimEnd(s[a..]) == s[a..b]
    decreases |s|
  {
    if b < |s| {
      var s' := s[..|s| - 1];
      assert s[a..][..|s[a..]| - 1] == s'[a..];
      assert IsWhitespace(s[|s| - 1]);
      TrimEndOfSuffix(s', a, b);
      assert s'[a..b] == s[a..b];
    } else {
      assert s[a..][|s| - a - 1] == s[b - 1];
      assert s[a..] == s[a..b];
    }
  }

  /** A trimmed string is left unchanged by `trim`. */
  lemma TrimOfTrimmed(s: string)
    requires Trimmed(s)
    ensures Trim(s) == s
  {
    TrimSlice(s, 0, |s|);
    assert s[0..|s|] == s;
  }

  /** `trim` is idempotent. */
  lemma TrimIdempotent(s: string)
    ensures Trim(Trim(s)) == Trim(s)
  {
    TrimOfTrimmed(Trim(s));
  }

  /** `trim` returns a contiguous slice of its input: the part between the
      leading and the trailing whitespace. */
  lemma TrimIsSlice(s: string) returns (a: nat, b: nat)
    ensures a <= b <= |s|
    ensures Trim(s) == s[a..b]
    ensures forall i :: 0 <= i < a ==> IsWhitespace(s[i])
    ensures forall i :: b <= i < |s| ==> IsWhitespace(s[i])
  {
    var t := TrimStart(s);
    a := |s| - |t|;
    b := a + |TrimEnd(t)|;
    TrimEndOfSuffixSlice(s, a, b);
  }

  /** When `TrimEnd` keeps `b - a` characters of the suffix `s[a..]`, it keeps
      `s[a..b]` and drops only whitespace. */
  lemma TrimEndOfSuffixSlice(s: string, a: nat, b: nat)
    requires a <= b <= |s|
    requires |TrimEnd(s[a..])| == b - a
    ensures TrimEnd(s[a..]) == s[a..b]
    ensures forall i :: b <= i < |s| ==> IsWhitespace(s[i])
  {
    var t := s[a..];
    forall i | b <= i < |s|
      ensures IsWhitespace(s[i])
    {
      assert s[i] == t[i - a];
    }
  }

  /** ASCII upper-casing is idempotent and leaves an upper-case string alone. */
  lemma UpperOfNoLower(s: string)
    requires NoLower(s)
    ensures Upper(s) == s
  {
  }

  /** Upper-casing before or after trimming gives the same string, so the order
      of `toUpperCase().trim()` does not matter. */
  lemma UpperTrimCommute(s: string)
    ensures Trim(Upper(s)) == Upper(Trim(s))
  {
    var a, b := TrimIsSlice(s);
    UpperOfSlice(s, a, b);
    var u := Upper(s);
    forall i | 0 <= i < a
      ensures IsWhitespace(u[i])
    {
    }
    forall i | b <= i < |u|
      ensures IsWhitespace(u[i])
    {
    }
    TrimSlice(u, a, b);
  }

  /** Upper-casing distributes over concatenation. */
  lemma UpperConcat(s: string, t: string)
    ensures Upper(s + t) == Upper(s) + Upper(t)
  {
  }

  /** Trimming a trimmed string padded with whitespace on both sides gives the
      string back. */
  lemma TrimPadded(w1: string, k: string, w2: string)
    requires AllWhitespace(w1) && AllWhitespace(w2) && Trimmed(k)
    ensures Trim(w1 + k + w2) == k
  {
    var s := w1 + k + w2;
    assert s[|w1|..|w1| + |k|] == k;
    forall i | 0 <= i < |w1|
      ensures IsWhitespace(s[i])
    {
      assert s[i] == w1[i];
    }
    forall i | |w1| + |k| <= i < |s|
      ensures IsWhitespace(s[i])
    {
      assert s[i] == w2[i - |w1| - |k|];
    }
    TrimSlice(s, |w1|, |w1| + |k|);
  }

  /** Upper-casing a slice is slicing the upper-cased string, and keeps the
      slice trimmed when it was. */
  lemma UpperOfSlice(s: string, a: nat, b: nat)
    requires a <= b <= |s|
    ensures Upper(s[a..b]) == Upper(s)[a..b]
    ensures Trimmed(s[a..b]) ==> Trimmed(Upper(s)[a..b])
  {
    var u := Upper(s);
    forall i | 0 <= i < b - a
      ensures Upper(s[a..b])[i] == u[a..b][i]
    {
      assert s[a..b][i] == s[a + i];
    }
  }
}
