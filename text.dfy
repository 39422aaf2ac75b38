/**
  Character classes and string operations that the bank assistant's regular
  expressions and Python string methods rely on, restricted to ASCII.
 */
module Text {
  import opened Wrappers

  predicate IsDigit(c: char) { '0' <= c <= '9' }
  predicate IsUpper(c: char) { 'A' <= c <= 'Z' }
  predicate IsLower(c: char) { 'a' <= c <= 'z' }
  predicate IsLetter(c: char) { IsUpper(c) || IsLower(c) }

  /** The regex class `\w`. */
  predicate IsWord(c: char) { IsLetter(c) || IsDigit(c) || c == '_' }

  /** `str.isspace` and the regex class `\s`: space, tab, LF, VT, FF, CR and the
      separators 0x1C..0x1F. */
  predicate IsSpace(c: char) { c == ' ' || '\t' <= c <= '\r' || '\U{1C}' <= c <= '\U{1F}' }

  predicate AllSpace(s: string) { forall k :: 0 <= k < |s| ==> IsSpace(s[k]) }

  /** `str.lower` on one character. */
  function Lower(c: char): (r: char)
    ensures !IsUpper(r)
    ensures IsLetter(r) <==> IsLetter(c)
    ensures IsWord(r) <==> IsWord(c)
    ensures !IsUpper(c) ==> r == c
  {
    if IsUpper(c) then (c as int + 32) as char else c
  }

  /** `str.upper` on one character. */
  function Upper(c: char): (r: char)
    ensures !IsLower(r)
    ensures IsLetter(r) <==> IsLetter(c)
    ensures !IsLower(c) ==> r == c
  {
    if IsLower(c) then (c as int - 32) as char else c
  }

  function LowerStr(s: string): (r: string)
    ensures |r| == |s| && forall k :: 0 <= k < |s| ==> r[k] == Lower(s[k])
  {
    seq(|s|, k requires 0 <= k < |s| => Lower(s[k]))
  }

  /** `str.capitalize`: the first character upper case, the rest lower case. */
  function Capitalize(s: string): (r: string)
    ensures |r| == |s|
    ensures |s| > 0 ==> !IsLower(r[0]) && Lower(r[0]) == Lower(s[0])
    ensures forall k :: 1 <= k < |s| ==> r[k] == Lower(s[k])
  {
    if s == [] then [] else [Upper(s[0])] + LowerStr(s[1..])
  }

  /** The regex assertion `\b` at position k: exactly one of the characters
      around k is a word character. */
  predicate Boundary(s: string, k: int)
    requires 0 <= k <= |s|
  {
    (k > 0 && IsWord(s[k - 1])) != (k < |s| && IsWord(s[k]))
  }

  /** The end of the longest run starting at k of characters satisfying inRun. */
  function RunEnd(s: string, k: nat, inRun: char -> bool): (e: nat)
    requires k <= |s|
    ensures k <= e <= |s|
    ensures forall x :: k <= x < e ==> inRun(s[x])
    ensures e == |s| || !inRun(s[e])
    decreases |s| - k
  {
    if k < |s| && inRun(s[k]) then RunEnd(s, k + 1, inRun) else k
  }

  /** The index of the first entry of a table that passes a test, as a Python
      `for` loop with `break` finds it. */
  function FirstWhere<T>(xs: seq<T>, p: T -> bool): (r: Option<nat>)
    ensures r.Some? ==> r.value < |xs| && p(xs[r.value])
    ensures r.Some? ==> forall m :: 0 <= m < r.value ==> !p(xs[m])
    ensures r.None? <==> forall m :: 0 <= m < |xs| ==> !p(xs[m])
  {
    if xs == [] then None
    else if p(xs[0]) then Some(0)
    else match FirstWhere(xs[1..], p)
      case None => None
      case Some(k) => Some(k + 1)
  }

  // ---------------------------------------------------------------------------
  // str.strip()

  /** s[lo..lo+|r|] == r, with only whitespace before and after it. */
  predicate StrippedAt(s: string, lo: int, r: string)
  {
    0 <= lo && lo + |r| <= |s| && s[lo..lo + |r|] == r &&
    (forall k :: 0 <= k < lo ==> IsSpace(s[k])) &&
    (forall k :: lo + |r| <= k < |s| ==> IsSpace(s[k]))
  }

  /** First index at or after i that is not whitespace (or |s|). */
  function StripLo(s: string, i: nat): (lo: nat)
    requires i <= |s|
    ensures i <= lo <= |s|
    ensures forall k :: i <= k < lo ==> IsSpace(s[k])
    ensures lo == |s| || !IsSpace(s[lo])
  {
    RunEnd(s, i, IsSpace)
  }

  /** Scanning down from j, the end of the text once trailing whitespace is cut,
      never going below lo. */
  function StripHi(s: string, lo: nat, j: nat): (hi: nat)
    requires lo <= j <= |s|
    ensures lo <= hi <= j
    ensures forall k :: hi <= k < j ==> IsSpace(s[k])
    ensures hi == lo || !IsSpace(s[hi - 1])
  {
    if j > lo && IsSpace(s[j - 1]) then StripHi(s, lo, j - 1) else j
  }

  /** `str.strip()`: the text between the first and the last non-whitespace
      character. */
  function Strip(s: string): (r: string)
    ensures exists lo :: StrippedAt(s, lo, r)
    ensures r == [] <==> AllSpace(s)
    ensures r == [] || (!IsSpace(r[0]) && !IsSpace(r[|r| - 1]))
  {
    var lo := StripLo(s, 0);
    var hi := StripHi(s, lo, |s|);
    assert StrippedAt(s, lo, s[lo..hi]);
    s[lo..hi]
  }

  // ---------------------------------------------------------------------------
  // `p in t` on strings

  /** p occurs in t at index k. */
  predicate OccursAt(t: string, p: string, k: int)
  {
    0 <= k && k + |p| <= |t| && t[k..k + |p|] == p
  }

  function ContainsFrom(t: string, p: string, i: nat): (b: bool)
    ensures b <==> exists k :: i <= k && OccursAt(t, p, k)
    decreases |t| - i
  {
    if i + |p| > |t| then false
    else if t[i..i + |p|] == p then assert OccursAt(t, p, i); true
    else ContainsFrom(t, p, i + 1)
  }

  /** Python's substring test `p in t`. */
  function Contains(t: string, p: string): (b: bool)
    ensures b <==> exists k :: OccursAt(t, p, k)
  {
    ContainsFrom(t, p, 0)
  }

  // ---------------------------------------------------------------------------
  // str.split()

  /** s[i..j] is a maximal run of non-whitespace characters. */
  predicate TokenAt(s: string, i: int, j: int)
  {
    0 <= i < j <= |s| &&
    (forall k :: i <= k < j ==> !IsSpace(s[k])) &&
    (i == 0 || IsSpace(s[i - 1])) &&
    (j == |s| || IsSpace(s[j]))
  }

  /** Position p does not fall strictly inside a run of non-whitespace. */
  predicate NotInsideToken(s: string, p: int)
    requires 0 <= p <= |s|
  {
    p == 0 || p == |s| || IsSpace(s[p - 1]) || IsSpace(s[p])
  }

  function SplitFrom(s: string, p: nat): (r: seq<string>)
    requires p <= |s|
    decreases |s| - p
  {
    if p == |s| then []
    else if IsSpace(s[p]) then SplitFrom(s, p + 1)
    else
      var e := RunEnd(s, p, c => !IsSpace(c));
      [s[p..e]] + SplitFrom(s, e)
  }

  /** `str.split()` with no separator. */
  function Split(s: string): seq<string>
  {
    SplitFrom(s, 0)
  }

  /** The only token that starts inside the token s[p..e] is that token. */
  lemma TokensAfterRun(s: string, p: int, e: int)
    requires TokenAt(s, p, e)
    ensures forall i, j :: p <= i && TokenAt(s, i, j) ==> (i == p && j == e) || e <= i
  {
  }

  lemma {:induction false} SplitFromTokens(s: string, p: nat)
    requires p <= |s| && NotInsideToken(s, p)
    ensures forall t :: t in SplitFrom(s, p) <==> exists i, j :: p <= i && TokenAt(s, i, j) && s[i..j] == t
    decreases |s| - p
  {
    if p == |s| {
    } else if IsSpace(s[p]) {
      SplitFromTokens(s, p + 1);
      forall j ensures !TokenAt(s, p, j) { }
    } else {
      var e := RunEnd(s, p, c => !IsSpace(c));
      SplitFromTokens(s, e);
      assert TokenAt(s, p, e);
      TokensAfterRun(s, p, e);
      forall t ensures t in SplitFrom(s, p) <==> exists i, j :: p <= i && TokenAt(s, i, j) && s[i..j] == t
      {
        if exists i, j :: p <= i && TokenAt(s, i, j) && s[i..j] == t {
          var i, j :| p <= i && TokenAt(s, i, j) && s[i..j] == t;
          if e <= i {
            assert t in SplitFrom(s, e);
          }
        }
      }
    }
  }

  /** The tokens of `str.split()` are exactly the maximal runs of
      non-whitespace characters. */
  lemma SplitTokens(s: string)
    ensures forall t :: t in Split(s) <==> exists i, j :: TokenAt(s, i, j) && s[i..j] == t
  {
    SplitFromTokens(s, 0);
  }
}
