/**
  The three regular expressions `RefundTracker.parse_input` runs over a query:
  `\b\d{2,}\b` for the transaction id, `\b\d{1,2}\s?[a-zA-Z]+\b` for the date
  (both with `re.search`) and `\$?(\d+)` for the amounts (with `re.findall`).

  Each pattern gets a declarative predicate saying which spans of the text it
  matches, a scanner that computes the match the way the regex engine does,
  and lemmas tying the two together. Backtracking inside a pattern never has a
  choice to make here: at a given start position at most one end position
  satisfies the pattern, so the leftmost match is determined by its start.
 */
module Extract {
  import opened Wrappers
  import opened Text

  /** The half-open range s[lo..hi] of a text. */
  datatype Span = Span(lo: nat, hi: nat)

  predicate DigitsIn(s: string, lo: int, hi: int)
    requires 0 <= lo && hi <= |s|
  {
    forall k :: lo <= k < hi ==> IsDigit(s[k])
  }

  predicate LettersIn(s: string, lo: int, hi: int)
    requires 0 <= lo && hi <= |s|
  {
    forall k :: lo <= k < hi ==> IsLetter(s[k])
  }

  /** End of the run of digits that starts at k (`\d+` taken greedily). */
  function DigitRunEnd(s: string, k: nat): (e: nat)
    requires k <= |s|
    ensures k <= e <= |s| && DigitsIn(s, k, e)
    ensures e == |s| || !IsDigit(s[e])
  {
    RunEnd(s, k, IsDigit)
  }

  /** End of the run of ASCII letters that starts at k (`[a-zA-Z]+` taken greedily). */
  function LetterRunEnd(s: string, k: nat): (e: nat)
    requires k <= |s|
    ensures k <= e <= |s| && LettersIn(s, k, e)
    ensures e == |s| || !IsLetter(s[e])
  {
    RunEnd(s, k, IsLetter)
  }

  /** A run of digits from lo that ends on a word boundary ends where the
      greedy run ends: a shorter run stops between two digits. */
  lemma DigitsToBoundary(s: string, lo: nat, hi: nat)
    requires lo < hi <= |s| && DigitsIn(s, lo, hi) && Boundary(s, hi)
    ensures hi == DigitRunEnd(s, lo)
  {
  }

  /** A run of letters from lo that ends on a word boundary ends where the
      greedy run ends. */
  lemma LettersToBoundary(s: string, lo: nat, hi: nat)
    requires lo < hi <= |s| && LettersIn(s, lo, hi) && Boundary(s, hi)
    ensures hi == LetterRunEnd(s, lo)
  {
  }

  // ---------------------------------------------------------------------------
  // Transaction id: re.search(r"\b\d{2,}\b", query)

  /** s[lo..hi] is a match of `\b\d{2,}\b`. */
  predicate TidAt(s: string, lo: int, hi: int)
  {
    0 <= lo && lo + 2 <= hi <= |s| && Boundary(s, lo) && DigitsIn(s, lo, hi) && Boundary(s, hi)
  }

  /** At most one match of the transaction-id pattern starts at any position. */
  lemma TidUnique(s: string, lo: int, h1: int, h2: int)
    requires TidAt(s, lo, h1) && TidAt(s, lo, h2)
    ensures h1 == h2
  {
    DigitsToBoundary(s, lo, h1);
    DigitsToBoundary(s, lo, h2);
  }

  /** The end of the match of the transaction-id pattern that starts at i, if any. */
  function TidMatchAt(s: string, i: nat): (r: Option<nat>)
    requires i <= |s|
    ensures r.Some? ==> TidAt(s, i, r.value)
    ensures r.None? ==> forall hi :: !TidAt(s, i, hi)
  {
    if i < |s| && IsDigit(s[i]) && Boundary(s, i) then
      var e := DigitRunEnd(s, i);
      if e - i >= 2 && Boundary(s, e) then Some(e)
      else
        assert forall hi :: TidAt(s, i, hi) ==> hi == e by {
          forall hi | TidAt(s, i, hi) ensures hi == e { DigitsToBoundary(s, i, hi); }
        }
        None
    else None
  }

  /** `re.search` from position i: the leftmost match of the pattern. */
  function TidSearch(s: string, i: nat): (r: Option<Span>)
    requires i <= |s|
    ensures r.Some? ==> i <= r.value.lo && TidAt(s, r.value.lo, r.value.hi)
    ensures r.Some? ==> forall lo, hi :: i <= lo < r.value.lo ==> !TidAt(s, lo, hi)
    ensures r.None? ==> forall lo, hi :: i <= lo ==> !TidAt(s, lo, hi)
    decreases |s| - i
  {
    match TidMatchAt(s, i)
    case Some(e) => Some(Span(i, e))
    case None => if i == |s| then None else TidSearch(s, i + 1)
  }

  /** The transaction id `parse_input` takes from a query, if the pattern matches:
      two or more digits. */
  function TransactionIdIn(q: string): (r: Option<string>)
    ensures r.None? <==> forall lo, hi :: !TidAt(q, lo, hi)
    ensures r.Some? ==> |r.value| >= 2 && forall k :: 0 <= k < |r.value| ==> IsDigit(r.value[k])
    ensures r.Some? ==> exists sp: Span ::
      (TidAt(q, sp.lo, sp.hi) && r.value == q[sp.lo..sp.hi] &&
       forall lo, hi :: lo < sp.lo ==> !TidAt(q, lo, hi))
  {
    match TidSearch(q, 0)
    case Some(sp) => Some(q[sp.lo..sp.hi])
    case None => None
  }

  // ---------------------------------------------------------------------------
  // Date: re.search(r"\b\d{1,2}\s?[a-zA-Z]+\b", query)

  /** s[lo..hi] matches the date pattern with d digits and g whitespace characters. */
  predicate DateShape(s: string, lo: int, d: int, g: int, hi: int)
  {
    0 <= lo && lo + d + g < hi <= |s| && 0 <= d && 0 <= g &&
    Boundary(s, lo) && DigitsIn(s, lo, lo + d) &&
    (g == 1 ==> IsSpace(s[lo + d])) &&
    LettersIn(s, lo + d + g, hi) && Boundary(s, hi)
  }

  /** s[lo..hi] is a match of `\b\d{1,2}\s?[a-zA-Z]+\b`: one or two digits,
      an optional whitespace character, then letters. */
  predicate DateAt(s: string, lo: int, hi: int)
  {
    DateShape(s, lo, 1, 0, hi) || DateShape(s, lo, 1, 1, hi) ||
    DateShape(s, lo, 2, 0, hi) || DateShape(s, lo, 2, 1, hi)
  }

  /** How many digits `\d{1,2}` takes at i. */
  function DateDigits(s: string, i: nat): nat
  {
    if i + 1 < |s| && IsDigit(s[i + 1]) then 2 else 1
  }

  /** Whether `\s?` takes a character at k. */
  function DateGap(s: string, k: nat): nat
  {
    if k < |s| && IsSpace(s[k]) then 1 else 0
  }

  /** Every date match starting at lo takes the digits, the gap and the letters
      the greedy scan takes. */
  lemma DateShapeGreedy(s: string, lo: nat, d: int, g: int, hi: int)
    requires (d == 1 || d == 2) && (g == 0 || g == 1) && DateShape(s, lo, d, g, hi)
    ensures d == DateDigits(s, lo) && g == DateGap(s, lo + d)
    ensures hi == LetterRunEnd(s, lo + d + g)
  {
    assert IsLetter(s[lo + d + g]);
    if d == 1 {
      assert !IsDigit(s[lo + 1]);
    }
    if g == 0 {
      assert !IsSpace(s[lo + d]);
    }
    LettersToBoundary(s, lo + d + g, hi);
  }

  /** At most one match of the date pattern starts at any position. */
  lemma DateUnique(s: string, lo: nat, h1: int, h2: int)
    requires DateAt(s, lo, h1) && DateAt(s, lo, h2)
    ensures h1 == h2
  {
    var d := DateDigits(s, lo);
    var e := LetterRunEnd(s, lo + d + DateGap(s, lo + d));
    forall dd, gg, hi | (dd == 1 || dd == 2) && (gg == 0 || gg == 1) && DateShape(s, lo, dd, gg, hi)
      ensures hi == e
    {
      DateShapeGreedy(s, lo, dd, gg, hi);
    }
  }

  /** The end of the date match that starts at i, if any. */
  function DateMatchAt(s: string, i: nat): (r: Option<nat>)
    requires i <= |s|
    ensures r.Some? ==> DateAt(s, i, r.value)
    ensures r.None? ==> forall hi :: !DateAt(s, i, hi)
  {
    if i < |s| && IsDigit(s[i]) && Boundary(s, i) then
      var d := DateDigits(s, i);
      var g := DateGap(s, i + d);
      var e := LetterRunEnd(s, i + d + g);
      if e > i + d + g && Boundary(s, e) then
        assert DateShape(s, i, d, g, e);
        Some(e)
      else
        assert forall hi :: !DateAt(s, i, hi) by {
          forall dd, gg, hi | (dd == 1 || dd == 2) && (gg == 0 || gg == 1)
            ensures !DateShape(s, i, dd, gg, hi)
          {
            if DateShape(s, i, dd, gg, hi) { DateShapeGreedy(s, i, dd, gg, hi); }
          }
        }
        None
    else None
  }

  /** `re.search` from position i: the leftmost date match. */
  function DateSearch(s: string, i: nat): (r: Option<Span>)
    requires i <= |s|
    ensures r.Some? ==> i <= r.value.lo && DateAt(s, r.value.lo, r.value.hi)
    ensures r.Some? ==> forall lo, hi :: i <= lo < r.value.lo ==> !DateAt(s, lo, hi)
    ensures r.None? ==> forall lo, hi :: i <= lo ==> !DateAt(s, lo, hi)
    decreases |s| - i
  {
    match DateMatchAt(s, i)
    case Some(e) => Some(Span(i, e))
    case None => if i == |s| then None else DateSearch(s, i + 1)
  }

  /** The date `parse_input` takes from a query, if the pattern matches: it
      starts with a digit and ends with a letter. */
  function DateIn(q: string): (r: Option<string>)
    ensures r.None? <==> forall lo, hi :: !DateAt(q, lo, hi)
    ensures r.Some? ==> |r.value| >= 2 && IsDigit(r.value[0]) && IsLetter(r.value[|r.value| - 1])
    ensures r.Some? ==> exists sp: Span ::
      (DateAt(q, sp.lo, sp.hi) && r.value == q[sp.lo..sp.hi] &&
       forall lo, hi :: lo < sp.lo ==> !DateAt(q, lo, hi))
  {
    match DateSearch(q, 0)
    case Some(sp) => Some(q[sp.lo..sp.hi])
    case None => None
  }

  // ---------------------------------------------------------------------------
  // Amount: re.findall(r"\$?(\d+)", query)[-1]

  /** s[lo..hi] is a maximal run of digits. */
  predicate DigitRun(s: string, lo: int, hi: int)
  {
    0 <= lo < hi <= |s| && DigitsIn(s, lo, hi) &&
    (lo == 0 || !IsDigit(s[lo - 1])) && (hi == |s| || !IsDigit(s[hi]))
  }

  /** Position p does not split a run of digits. */
  predicate NotInsideRun(s: string, p: int)
    requires 0 <= p <= |s|
  {
    p == 0 || p == |s| || !IsDigit(s[p - 1]) || !IsDigit(s[p])
  }

  predicate NoDigitFrom(s: string, p: nat)
  {
    forall k :: p <= k < |s| ==> !IsDigit(s[k])
  }

  /** The spans of the captured group that `re.findall` returns when it scans
      from p: at each position the optional `$` is tried first, then the
      digits; a position where neither matches is skipped. */
  function AmountSpans(s: string, p: nat): seq<Span>
    requires p <= |s|
    decreases |s| - p
  {
    if p == |s| then []
    else if s[p] == '$' && p + 1 < |s| && IsDigit(s[p + 1]) then
      var e := DigitRunEnd(s, p + 1);
      [Span(p + 1, e)] + AmountSpans(s, e)
    else if IsDigit(s[p]) then
      var e := DigitRunEnd(s, p);
      [Span(p, e)] + AmountSpans(s, e)
    else AmountSpans(s, p + 1)
  }

  /** The scan's first step from p, when it finds digits: where the run starts. */
  function AmountStart(s: string, p: nat): Option<nat>
    requires p < |s|
  {
    if s[p] == '$' && p + 1 < |s| && IsDigit(s[p + 1]) then Some(p + 1)
    else if IsDigit(s[p]) then Some(p)
    else None
  }

  lemma AmountSpansStep(s: string, p: nat)
    requires p < |s| && NotInsideRun(s, p)
    ensures AmountStart(s, p).Some? ==>
      var lo := AmountStart(s, p).value;
      DigitRun(s, lo, DigitRunEnd(s, lo)) &&
      AmountSpans(s, p) == [Span(lo, DigitRunEnd(s, lo))] + AmountSpans(s, DigitRunEnd(s, lo))
    ensures AmountStart(s, p).None? ==> AmountSpans(s, p) == AmountSpans(s, p + 1) && !IsDigit(s[p])
  {
  }

  /** Every span the scan returns from p is a maximal run of digits at or after p. */
  lemma {:induction false} AmountSpansSound(s: string, p: nat)
    requires p <= |s| && NotInsideRun(s, p)
    ensures forall k :: 0 <= k < |AmountSpans(s, p)| ==>
      p <= AmountSpans(s, p)[k].lo && DigitRun(s, AmountSpans(s, p)[k].lo, AmountSpans(s, p)[k].hi)
    decreases |s| - p
  {
    if p < |s| {
      AmountSpansStep(s, p);
      match AmountStart(s, p)
      case Some(lo) => AmountSpansSound(s, DigitRunEnd(s, lo));
      case None => AmountSpansSound(s, p + 1);
    }
  }

  /** The scan from p returns every maximal run of digits at or after p. */
  lemma {:induction false} AmountSpansComplete(s: string, p: nat)
    requires p <= |s| && NotInsideRun(s, p)
    ensures forall lo, hi :: p <= lo && DigitRun(s, lo, hi) ==> Span(lo, hi) in AmountSpans(s, p)
    decreases |s| - p
  {
    if p < |s| {
      AmountSpansStep(s, p);
      match AmountStart(s, p)
      case Some(lo0) =>
        var e := DigitRunEnd(s, lo0);
        AmountSpansComplete(s, e);
        forall lo, hi | p <= lo && DigitRun(s, lo, hi) ensures Span(lo, hi) in AmountSpans(s, p) {
          if lo < e {
            assert lo == lo0;
            DigitsToBoundaryRun(s, lo, hi);
          }
        }
      case None =>
        AmountSpansComplete(s, p + 1);
    }
  }

  /** The scan from p finds nothing exactly when no digit follows p, and the
      last span it finds has no digit after it. */
  lemma {:induction false} AmountSpansLast(s: string, p: nat)
    requires p <= |s| && NotInsideRun(s, p)
    ensures AmountSpans(s, p) == [] <==> NoDigitFrom(s, p)
    ensures AmountSpans(s, p) != [] ==> NoDigitFrom(s, AmountSpans(s, p)[|AmountSpans(s, p)| - 1].hi)
    decreases |s| - p
  {
    if p < |s| {
      AmountSpansStep(s, p);
      match AmountStart(s, p)
      case Some(lo0) =>
        var e := DigitRunEnd(s, lo0);
        AmountSpansLast(s, e);
        var rest := AmountSpans(s, e);
        if rest != [] {
          assert AmountSpans(s, p)[|AmountSpans(s, p)| - 1] == rest[|rest| - 1];
        }
      case None =>
        AmountSpansLast(s, p + 1);
    }
  }

  /** A maximal run of digits ends where the greedy run from its start ends. */
  lemma DigitsToBoundaryRun(s: string, lo: nat, hi: nat)
    requires DigitRun(s, lo, hi)
    ensures hi == DigitRunEnd(s, lo)
  {
  }

  /** The amount `parse_input` takes from a query: the last group `re.findall`
      returns, if it returns any. */
  function AmountIn(q: string): (r: Option<string>)
    ensures r.None? <==> NoDigitFrom(q, 0)
    ensures r.Some? ==> |r.value| >= 1 && forall k :: 0 <= k < |r.value| ==> IsDigit(r.value[k])
    ensures r.Some? ==> exists sp: Span ::
      (DigitRun(q, sp.lo, sp.hi) && NoDigitFrom(q, sp.hi) && r.value == q[sp.lo..sp.hi])
  {
    var spans := AmountSpans(q, 0);
    AmountSpansSound(q, 0);
    AmountSpansLast(q, 0);
    if spans == [] then None
    else
      var last := spans[|spans| - 1];
      assert DigitRun(q, last.lo, last.hi) && NoDigitFrom(q, last.hi);
      Some(q[last.lo..last.hi])
  }
}
