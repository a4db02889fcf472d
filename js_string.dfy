/**
 * The JavaScript string primitives the program relies on, over `string` (a sequence of characters):
 * global single-character `replace`, `trim`, `indexOf`, `lastIndexOf`, `substring`, `substr`, and the
 * decimal text a template literal produces for a non-negative integer.
 */
module JsString {

  /** The characters that `String.prototype.trim` removes and that the regular-expression class `\s`
      matches: the WhiteSpace and LineTerminator characters of ECMAScript. */
  predicate IsWhiteSpace(c: char) {
    c == '\t' || c == '\n' || c == '\U{000B}' || c == '\U{000C}' || c == '\r' || c == ' ' ||
    c == '\U{00A0}' || c == '\U{1680}' || ('\U{2000}' <= c <= '\U{200A}') ||
    c == '\U{2028}' || c == '\U{2029}' || c == '\U{202F}' || c == '\U{205F}' ||
    c == '\U{3000}' || c == '\U{FEFF}'
  }

  /** The regular-expression class `\d`: ASCII digits only. */
  predicate IsDigit(c: char) {
    '0' <= c <= '9'
  }

  // ---------------------------------------------------------------------------------------------
  // s.replace(/x/g, repl) for a pattern that matches one character out of `pats`
  // ---------------------------------------------------------------------------------------------

  /** Every character of `s` that is in `pats` is replaced by `repl`, left to right; other characters are kept. */
  function ReplaceAll(s: string, pats: set<char>, repl: string): string {
    if s == [] then [] else (if s[0] in pats then repl else [s[0]]) + ReplaceAll(s[1..], pats, repl)
  }

  /** What is left after the replacement: characters of `s` outside the pattern, and characters of `repl`. */
  lemma {:induction false} ReplaceAllChars(s: string, pats: set<char>, repl: string)
    ensures forall c :: c in ReplaceAll(s, pats, repl) ==> (c in s && c !in pats) || c in repl
  {
    if s != [] {
      ReplaceAllChars(s[1..], pats, repl);
      assert forall c :: c in s[1..] ==> c in s;
    }
  }

  /** A single character is replaced or kept. */
  lemma ReplaceAllSingle(c: char, pats: set<char>, repl: string)
    ensures ReplaceAll([c], pats, repl) == if c in pats then repl else [c]
  {
    assert [c][1..] == [];
    assert ReplaceAll([c], pats, repl) == (if c in pats then repl else [c]) + [];
  }

  /** A string without pattern characters is left as it is. */
  lemma {:induction false} ReplaceAllUntouched(s: string, pats: set<char>, repl: string)
    requires forall c :: c in s ==> c !in pats
    ensures ReplaceAll(s, pats, repl) == s
  {
    if s != [] {
      assert forall c :: c in s[1..] ==> c in s;
      ReplaceAllUntouched(s[1..], pats, repl);
    }
  }

  /** Replacing is done character by character, so it distributes over concatenation. */
  lemma {:induction false} ReplaceAllConcat(a: string, b: string, pats: set<char>, repl: string)
    ensures ReplaceAll(a + b, pats, repl) == ReplaceAll(a, pats, repl) + ReplaceAll(b, pats, repl)
  {
    if a == [] {
      assert a + b == b;
    } else {
      assert (a + b)[0] == a[0] && (a + b)[1..] == a[1..] + b;
      ReplaceAllConcat(a[1..], b, pats, repl);
      assert ReplaceAll(a + b, pats, repl)
          == (if a[0] in pats then repl else [a[0]]) + ReplaceAll(a[1..] + b, pats, repl);
    }
  }

  /** With a one-character replacement the length is kept and position `k` holds `repl[0]` exactly
      where `s[k]` was a pattern character. */
  lemma {:induction false} ReplaceAllPointwise(s: string, pats: set<char>, repl: string)
    requires |repl| == 1
    ensures |ReplaceAll(s, pats, repl)| == |s|
    ensures forall k :: 0 <= k < |s| ==>
      ReplaceAll(s, pats, repl)[k] == (if s[k] in pats then repl[0] else s[k])
  {
    if s != [] {
      ReplaceAllPointwise(s[1..], pats, repl);
      var r := ReplaceAll(s, pats, repl);
      assert r == (if s[0] in pats then repl else [s[0]]) + ReplaceAll(s[1..], pats, repl);
      forall k | 0 <= k < |s|
        ensures r[k] == (if s[k] in pats then repl[0] else s[k])
      {
        if k > 0 {
          assert r[k] == ReplaceAll(s[1..], pats, repl)[k - 1];
          assert s[k] == s[1..][k - 1];
        }
      }
    }
  }

  // ---------------------------------------------------------------------------------------------
  // s.trim()
  // ---------------------------------------------------------------------------------------------

  /** `s` without its leading white space: a suffix of `s`, everything cut off is white space,
      and what is left does not start with white space. */
  function TrimStart(s: string): (r: string)
    ensures |r| <= |s| && r == s[|s| - |r|..]
    ensures forall k :: 0 <= k < |s| - |r| ==> IsWhiteSpace(s[k])
    ensures r != [] ==> !IsWhiteSpace(r[0])
  {
    if s != [] && IsWhiteSpace(s[0]) then TrimStart(s[1..]) else s
  }

  /** `s` without its trailing white space: a prefix of `s`, everything cut off is white space,
      and what is left does not end with white space. */
  function TrimEnd(s: string): (r: string)
    ensures |r| <= |s| && r == s[..|r|]
    ensures forall k :: |r| <= k < |s| ==> IsWhiteSpace(s[k])
    ensures r != [] ==> !IsWhiteSpace(r[|r| - 1])
  {
    if s != [] && IsWhiteSpace(s[|s| - 1]) then TrimEnd(s[..|s| - 1]) else s
  }

  /** `String.prototype.trim`: white space removed from both ends. */
  function Trim(s: string): (r: string)
    ensures r != [] ==> !IsWhiteSpace(r[0]) && !IsWhiteSpace(r[|r| - 1])
    ensures forall c :: c in r ==> c in s
  {
    var t := TrimStart(s);
    var u := TrimEnd(t);
    assert forall c :: c in u ==> c in t;
    u
  }

  /** Trimming a string twice gives the same as trimming it once. */
  lemma TrimIdempotent(s: string)
    ensures Trim(Trim(s)) == Trim(s)
  {
    var r := Trim(s);
    assert TrimStart(r) == r;
    assert TrimEnd(r) == r;
  }

  // ---------------------------------------------------------------------------------------------
  // indexOf / lastIndexOf
  // ---------------------------------------------------------------------------------------------

  /** `p` occurs in `s` starting at index `k`. */
  predicate OccursAt(s: string, p: string, k: int) {
    0 <= k && k + |p| <= |s| && s[k..k + |p|] == p
  }

  /** `p` is a substring of `s`. */
  predicate Contains(s: string, p: string) {
    exists k :: 0 <= k <= |s| && OccursAt(s, p, k)
  }

  /** The first occurrence of `p` in `s` at or after `i`, or -1. */
  function IndexFrom(s: string, p: string, i: nat): (r: int)
    requires i <= |s| + 1
    ensures r == -1 || (i <= r && OccursAt(s, p, r))
    ensures forall k :: i <= k && (r == -1 || k < r) ==> !OccursAt(s, p, k)
    decreases |s| + 1 - i
  {
    if i + |p| > |s| then -1
    else if OccursAt(s, p, i) then i
    else IndexFrom(s, p, i + 1)
  }

  /** `s.indexOf(p)`: the first index where `p` occurs, or -1 exactly when it does not occur. */
  function IndexOf(s: string, p: string): (r: int)
    ensures r >= 0 ==> OccursAt(s, p, r) && forall k :: 0 <= k < r ==> !OccursAt(s, p, k)
    ensures r == -1 <==> !Contains(s, p)
    ensures r >= -1
  {
    IndexFrom(s, p, 0)
  }

  /** The last occurrence of `p` in `s` at or before `i`, or -1. */
  function LastIndexFrom(s: string, p: string, i: int): (r: int)
    requires i < |s| + 1
    ensures r == -1 || 0 <= r <= i
    decreases i + 1
  {
    if i < 0 then -1
    else if OccursAt(s, p, i) then i
    else LastIndexFrom(s, p, i - 1)
  }

  /** `s.lastIndexOf(p)`. */
  function LastIndexOf(s: string, p: string): (r: int)
    ensures r >= -1
  {
    LastIndexFrom(s, p, |s| - |p|)
  }

  /** The backward scan finds an occurrence, and there is none between it and the start point. */
  lemma {:induction false} LastIndexFromMeaning(s: string, p: string, i: int)
    requires i < |s| + 1
    ensures var r := LastIndexFrom(s, p, i);
      (r == -1 || OccursAt(s, p, r)) &&
      forall k :: (if r == -1 then 0 else r + 1) <= k <= i ==> !OccursAt(s, p, k)
    decreases i + 1
  {
    if i >= 0 && !OccursAt(s, p, i) {
      LastIndexFromMeaning(s, p, i - 1);
    }
  }

  /** `lastIndexOf` gives the last index where `p` occurs, and -1 exactly when it does not occur. */
  lemma LastIndexOfMeaning(s: string, p: string)
    ensures var r := LastIndexOf(s, p);
      (r >= 0 ==> OccursAt(s, p, r) && forall k :: r < k ==> !OccursAt(s, p, k)) &&
      (r == -1 <==> !Contains(s, p))
  {
    LastIndexFromMeaning(s, p, |s| - |p|);
  }

  // ---------------------------------------------------------------------------------------------
  // substring / substr
  // ---------------------------------------------------------------------------------------------

  function Clamp(x: int, hi: nat): (r: nat)
    ensures r <= hi
  {
    if x < 0 then 0 else if x > hi then hi else x
  }

  /** `s.substring(a, b)`: both bounds are clamped to [0, |s|] and swapped when out of order. */
  function Substring(s: string, a: int, b: int): (r: string)
    ensures |r| <= |s|
    ensures 0 <= a <= b <= |s| ==> r == s[a..b]
    ensures 0 <= b <= a <= |s| ==> r == s[b..a]
  {
    var x, y := Clamp(a, |s|), Clamp(b, |s|);
    if x <= y then s[x..y] else s[y..x]
  }

  /** `s.substr(start, length)`: a negative start counts from the end, and the length is cut to
      what is available (a negative length gives the empty string). */
  function Substr(s: string, start: int, length: int): (r: string)
    ensures |r| <= |s|
    ensures 0 <= start <= |s| ==> r == s[start..start + Clamp(length, |s| - start)]
  {
    var from := if start < 0 then Clamp(|s| + start, |s|) else Clamp(start, |s|);
    s[from..from + Clamp(length, |s| - from)]
  }

  // ---------------------------------------------------------------------------------------------
  // decimal text of a non-negative integer, as `${n}` renders it
  // ---------------------------------------------------------------------------------------------

  function DigitChar(d: nat): (c: char)
    requires d < 10
    ensures IsDigit(c)
  {
    "0123456789"[d]
  }

  function DigitValue(c: char): (d: nat)
    requires IsDigit(c)
    ensures d < 10
  {
    (c as int - '0' as int) as nat
  }

  /** The value of a string of digits read in base ten. */
  function DecimalValue(s: string): nat
    requires forall k :: 0 <= k < |s| ==> IsDigit(s[k])
  {
    if s == [] then 0 else DecimalValue(s[..|s| - 1]) * 10 + DigitValue(s[|s| - 1])
  }

  /** `${n}`: the shortest base-ten text of `n`, with no leading zero. */
  function NatToString(n: nat): (r: string)
    ensures r != [] && forall k :: 0 <= k < |r| ==> IsDigit(r[k])
    ensures |r| > 1 ==> r[0] != '0'
  {
    if n < 10 then [DigitChar(n)] else NatToString(n / 10) + [DigitChar(n % 10)]
  }

  /** Reading back the text of `n` gives `n`. */
  lemma {:induction false} NatToStringRoundTrip(n: nat)
    ensures DecimalValue(NatToString(n)) == n
  {
    var r := NatToString(n);
    if n < 10 {
      assert r[..0] == [];
      assert DigitValue(DigitChar(n)) == n by {
        assert forall d :: 0 <= d < 10 ==> DigitValue("0123456789"[d]) == d;
      }
    } else {
      NatToStringRoundTrip(n / 10);
      assert r[..|r| - 1] == NatToString(n / 10);
      assert DigitValue(DigitChar(n % 10)) == n % 10 by {
        assert forall d :: 0 <= d < 10 ==> DigitValue("0123456789"[d]) == d;
      }
    }
  }

  /** Different numbers are printed differently. */
  lemma NatToStringInjective(m: nat, n: nat)
    requires NatToString(m) == NatToString(n)
    ensures m == n
  {
    NatToStringRoundTrip(m);
    NatToStringRoundTrip(n);
  }
}
