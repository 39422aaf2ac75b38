/**
  The input and output guardrails of the bank assistant: rejecting empty or
  sensitive input, and redacting sensitive words from replies.  Both apply the
  pattern `\b(pin|password|card|ssn)\b` case-insensitively.
 */
module Guardrails {
  import opened Wrappers
  import opened Text

  /** The alternatives of the sensitive-word pattern, in pattern order. */
  const SensitiveTerms: seq<string> := ["pin", "password", "card", "ssn"]

  const Redacted: string := "[REDACTED]"

  const EmptyReason: string := "Input cannot be empty"
  const SensitiveReason: string := "Sensitive information is not allowed"
  const ValidReason: string := "Valid input"

  /** The verdict of the input guardrail: its `valid` flag and `reason` text. */
  datatype Verdict = Verdict(valid: bool, reason: string)

  /** `\b` w `\b` matches s at index i, ignoring case. */
  predicate TermAt(s: string, i: int, w: string)
  {
    0 <= i && i + |w| <= |s| && Boundary(s, i) && Boundary(s, i + |w|) &&
    forall k :: 0 <= k < |w| ==> Lower(s[i + k]) == w[k]
  }

  /** Some sensitive term occurs in s as a whole word, ignoring case. */
  ghost predicate HasSensitiveWord(s: string)
  {
    exists i, m :: 0 <= m < |SensitiveTerms| && TermAt(s, i, SensitiveTerms[m])
  }

  /** The first alternative, from the m-th on, that matches at index i. */
  function SensitiveFrom(s: string, i: int, m: nat): Option<nat>
    decreases |SensitiveTerms| - m
  {
    if m >= |SensitiveTerms| then None
    else if TermAt(s, i, SensitiveTerms[m]) then Some(m)
    else SensitiveFrom(s, i, m + 1)
  }

  /** The alternative of the pattern that matches at index i, if any, trying
      the alternatives in pattern order. */
  function SensitiveAt(s: string, i: int): Option<nat>
  {
    SensitiveFrom(s, i, 0)
  }

  lemma {:induction false} SensitiveFromSpec(s: string, i: int, m: nat)
    ensures SensitiveFrom(s, i, m).Some? ==>
      var k := SensitiveFrom(s, i, m).value;
      m <= k < |SensitiveTerms| && TermAt(s, i, SensitiveTerms[k]) &&
      forall k' :: m <= k' < k ==> !TermAt(s, i, SensitiveTerms[k'])
    ensures SensitiveFrom(s, i, m).None? <==>
      forall k :: m <= k < |SensitiveTerms| ==> !TermAt(s, i, SensitiveTerms[k])
    decreases |SensitiveTerms| - m
  {
    if m < |SensitiveTerms| {
      SensitiveFromSpec(s, i, m + 1);
    }
  }

  /** SensitiveAt finds the first alternative, in pattern order, that matches
      as a whole word at i; None when none does. */
  lemma SensitiveAtSpec(s: string, i: int)
    ensures SensitiveAt(s, i).Some? ==>
      var k := SensitiveAt(s, i).value;
      k < |SensitiveTerms| && TermAt(s, i, SensitiveTerms[k]) &&
      forall k' :: 0 <= k' < k ==> !TermAt(s, i, SensitiveTerms[k'])
    ensures SensitiveAt(s, i).None? <==>
      forall k :: 0 <= k < |SensitiveTerms| ==> !TermAt(s, i, SensitiveTerms[k])
  {
    SensitiveFromSpec(s, i, 0);
  }

  /** `re.search` of the sensitive-word pattern, trying start positions from i on. */
  function SearchSensitive(s: string, i: nat): (b: bool)
    requires i <= |s|
    ensures b <==> exists k, m :: i <= k && 0 <= m < |SensitiveTerms| && TermAt(s, k, SensitiveTerms[m])
    decreases |s| - i
  {
    SensitiveAtSpec(s, i);
    if SensitiveAt(s, i).Some? then true
    else if i == |s| then false
    else SearchSensitive(s, i + 1)
  }

  /** `input_guard_fn`: emptiness is checked before sensitive words. */
  function InputGuard(s: string): (r: Verdict)
    ensures r.valid <==> !AllSpace(s) && !HasSensitiveWord(s)
    ensures AllSpace(s) ==> r.reason == EmptyReason
    ensures !AllSpace(s) && HasSensitiveWord(s) ==> r.reason == SensitiveReason
    ensures r.valid ==> r.reason == ValidReason
  {
    if Strip(s) == [] then Verdict(false, EmptyReason)
    else if SearchSensitive(s, 0) then Verdict(false, SensitiveReason)
    else Verdict(true, ValidReason)
  }

  /** `re.sub` of the sensitive-word pattern by "[REDACTED]", from index i on:
      at each position the pattern is tried; a match is replaced and skipped,
      otherwise one character is copied. */
  function RedactFrom(s: string, i: nat): string
    decreases |s| - i
  {
    if i >= |s| then []
    else match SensitiveAt(s, i)
      case Some(m) => Redacted + RedactFrom(s, i + |SensitiveTerms[m]|)
      case None => [s[i]] + RedactFrom(s, i + 1)
  }

  function Redact(s: string): string
  {
    RedactFrom(s, 0)
  }

  /** `output_guard_fn`: an absent response counts as the empty text. */
  function OutputGuard(response: Option<string>): (r: string)
    ensures !HasSensitiveWord(r)
    ensures response.None? ==> r == []
    ensures response.Some? && !HasSensitiveWord(response.value) ==> r == response.value
    ensures response.Some? ==>
      forall i, m :: 0 <= m < |SensitiveTerms| && TermAt(response.value, i, SensitiveTerms[m]) ==>
        r == Redact(response.value[..i]) + Redacted + Redact(response.value[i + |SensitiveTerms[m]|..])
  {
    var text := if response.Some? then response.value else [];
    RedactNoSensitiveWord(text);
    RedactIdentity(text);
    RedactEveryMatch(text);
    Redact(text)
  }

  // ---------------------------------------------------------------------------
  // Proofs about redaction

  /** TermAt with the character left of index j (for j == 0) supplied by `left`. */
  ghost predicate TermAtCtx(t: string, j: int, w: string, left: bool)
  {
    0 <= j && j + |w| <= |t| &&
    !(if j == 0 then left else IsWord(t[j - 1])) &&
    (j + |w| == |t| || !IsWord(t[j + |w|])) &&
    forall k :: 0 <= k < |w| ==> Lower(t[j + k]) == w[k]
  }

  /** The character just before index i is a word character. */
  predicate WordBefore(s: string, i: int)
  {
    0 < i <= |s| && IsWord(s[i - 1])
  }

  ghost predicate AllLetters(w: string) { forall k :: 0 <= k < |w| ==> IsLetter(w[k]) }

  lemma TermsAreWords()
    ensures forall m :: 0 <= m < |SensitiveTerms| ==>
      |SensitiveTerms[m]| >= 3 && AllLetters(SensitiveTerms[m]) && SensitiveTerms[m][0] != 'r'
  {
  }

  lemma RedactedShape()
    ensures |Redacted| == 10 && Redacted[0] == '[' && Redacted[1] == 'R' && Redacted[9] == ']'
    ensures forall k :: 1 <= k <= 8 ==> IsWord(Redacted[k])
  {
    assert Redacted == ['[', 'R', 'E', 'D', 'A', 'C', 'T', 'E', 'D', ']'];
  }

  /** For a non-empty word of letters, the two forms of a whole-word match agree. */
  lemma TermAtIsCtx(t: string, j: int, w: string)
    requires |w| > 0 && AllLetters(w)
    ensures TermAt(t, j, w) <==> TermAtCtx(t, j, w, false)
  {
    if 0 <= j && j + |w| <= |t| && forall k :: 0 <= k < |w| ==> Lower(t[j + k]) == w[k] {
      assert Lower(t[j]) == w[0];
      assert Lower(t[j + |w| - 1]) == w[|w| - 1];
    }
  }

  /** The left context only matters when the text starts with a word character. */
  lemma CtxIrrelevant(t: string, j: int, w: string, a: bool, b: bool)
    requires |w| > 0 && AllLetters(w)
    requires t == [] || !IsWord(t[0])
    ensures TermAtCtx(t, j, w, a) == TermAtCtx(t, j, w, b)
  {
    if j == 0 && t != [] {
      assert IsLetter(w[0]) && !IsLetter(Lower(t[0]));
    }
  }

  /** A match inside t, seen inside a + t. */
  lemma CtxShift(a: string, t: string, k: int, w: string, left: bool)
    requires 0 <= k
    ensures TermAtCtx(a + t, |a| + k, w, left) ==
            TermAtCtx(t, k, w, if |a| > 0 then IsWord(a[|a| - 1]) else left)
  {

  }

  /** No sensitive term can start right after a word character. */
  lemma NoTermAfterWord(s: string, i: nat)
    requires 0 < i <= |s| && IsWord(s[i - 1])
    ensures SensitiveAt(s, i).None?
  {
    TermsAreWords();
    SensitiveAtSpec(s, i);
    forall m | 0 <= m < |SensitiveTerms| ensures !TermAt(s, i, SensitiveTerms[m]) {
      assert IsLetter(SensitiveTerms[m][0]);
    }
  }

  /** No sensitive term can start at a character that is not a word character. */
  lemma NoTermAtNonWord(s: string, i: nat)
    requires i < |s| && !IsWord(s[i])
    ensures SensitiveAt(s, i).None?
  {
    TermsAreWords();
    SensitiveAtSpec(s, i);
    forall m | 0 <= m < |SensitiveTerms| ensures !TermAt(s, i, SensitiveTerms[m]) {
    }
  }

  lemma CopyStep(s: string, i: nat)
    requires i < |s| && SensitiveAt(s, i).None?
    ensures RedactFrom(s, i) == [s[i]] + RedactFrom(s, i + 1)
  {
  }

  /** u is s[i..i+n] followed by tail, stated index by index. */
  ghost predicate CopiedThen(u: string, s: string, i: int, n: int, tail: string)
  {
    0 <= i && 0 <= n && i + n <= |s| && |u| == n + |tail| &&
    (forall k :: 0 <= k < n ==> u[k] == s[i + k]) &&
    (forall k :: 0 <= k < |tail| ==> u[n + k] == tail[k])
  }

  /** Prepending s[i] to a copy of s[i+1..i+n] followed by tail gives a copy of
      s[i..i+n] followed by the same tail. */
  lemma ConsCopied(u: string, T: string, s: string, i: nat, n: nat, tail: string)
    requires n > 0 && i < |s| && u == [s[i]] + T
    requires CopiedThen(T, s, i + 1, n - 1, tail)
    ensures CopiedThen(u, s, i, n, tail)
  {
    forall k | 0 <= k < n ensures u[k] == s[i + k] {
      if k > 0 { assert u[k] == T[k - 1]; }
    }
    forall k | 0 <= k < |tail| ensures u[n + k] == tail[k] {
      assert u[n + k] == T[n - 1 + k];
    }
  }

  /** A prefix of word characters of c followed by T: c is one when the prefix
      has two characters or more, and so are the first n - 1 characters of T. */
  lemma WordsAfterFirst(out: string, c: char, T: string, n: nat)
    requires out == [c] + T && 0 < n <= |out|
    requires forall k :: 0 <= k < n ==> IsWord(out[k])
    ensures n - 1 <= |T| && forall k :: 0 <= k < n - 1 ==> IsWord(T[k])
    ensures n > 1 ==> IsWord(c)
  {
    forall k | 0 <= k < n - 1 ensures IsWord(T[k]) {
      assert T[k] == out[k + 1];
    }
    if n > 1 {
      assert out[0] == c;
    }
  }

  /** Where no term matches, the redaction copies the text: a prefix of word
      characters of the output is the text itself, and the rest is the output
      from there on. */
  lemma {:induction false} CopiesRun(s: string, i: nat, n: nat)
    requires i <= |s| && n <= |RedactFrom(s, i)|
    requires n > 0 ==> SensitiveAt(s, i).None?
    requires forall k :: 0 <= k < n ==> IsWord(RedactFrom(s, i)[k])
    ensures i + n <= |s|
    ensures CopiedThen(RedactFrom(s, i), s, i, n, RedactFrom(s, i + n))
    decreases n
  {
    if n > 0 {
      var out := RedactFrom(s, i);
      CopyStep(s, i);
      var T := RedactFrom(s, i + 1);
      WordsAfterFirst(out, s[i], T, n);
      if n > 1 {
        NoTermAfterWord(s, i + 1);
      }
      CopiesRun(s, i + 1, n - 1);
      ConsCopied(out, T, s, i, n, RedactFrom(s, i + n));
    }
  }

  /** The output of the redaction from i on holds no whole sensitive word, given
      whether the text before i ends in a word character. */
  ghost predicate CleanFrom(s: string, i: nat)
    requires i <= |s|
  {
    forall j, m :: 0 <= m < |SensitiveTerms| ==>
      !TermAtCtx(RedactFrom(s, i), j, SensitiveTerms[m], WordBefore(s, i))
  }

  /** No sensitive word starts inside "[REDACTED]", whatever follows it. */
  lemma NoTermInRedacted(T: string, j: int, w: string, ctx: bool)
    requires w in SensitiveTerms && j < |Redacted|
    ensures !TermAtCtx(Redacted + T, j, w, ctx)
  {
    TermsAreWords();
    RedactedShape();
    var out := Redacted + T;
    if 2 <= j {
      assert IsWord(out[j - 1]);
    } else if 0 <= j {
      assert Lower(out[j]) != w[0];
    }
  }

  /** Where a replaced term ends, the output does not start with a word character. */
  lemma NonWordAfterTerm(s: string, i: nat, w: string)
    requires w in SensitiveTerms && TermAt(s, i, w)
    ensures WordBefore(s, i + |w|)
    ensures RedactFrom(s, i + |w|) == [] || !IsWord(RedactFrom(s, i + |w|)[0])
  {
    TermsAreWords();
    var i' := i + |w|;
    assert Lower(s[i' - 1]) == w[|w| - 1];
    if i' < |s| {
      assert !IsWord(s[i']);
      NoTermAtNonWord(s, i');
      CopyStep(s, i');
    }
  }

  /** After a replaced term the output continues with "[REDACTED]", which no
      sensitive word can straddle. */
  lemma CleanAfterTerm(s: string, i: nat, m0: nat)
    requires i < |s| && SensitiveAt(s, i) == Some(m0)
    requires m0 < |SensitiveTerms| && TermAt(s, i, SensitiveTerms[m0])
    requires CleanFrom(s, i + |SensitiveTerms[m0]|)
    ensures CleanFrom(s, i)
  {
    TermsAreWords();
    var ctx := WordBefore(s, i);
    var w := SensitiveTerms[m0];
    var i' := i + |w|;
    var T := RedactFrom(s, i');
    var out := Redacted + T;
    assert RedactFrom(s, i) == out;
    NonWordAfterTerm(s, i, w);
    forall j, m | 0 <= m < |SensitiveTerms| ensures !TermAtCtx(out, j, SensitiveTerms[m], ctx) {
      var w2 := SensitiveTerms[m];
      if j < |Redacted| {
        NoTermInRedacted(T, j, w2, ctx);
      } else {
        NoTermAfterRedacted(T, j, w2, ctx, WordBefore(s, i'));
      }
    }
  }

  /** A match at or after the end of "[REDACTED]" would lie in what follows it,
      after the non-word character ']'. */
  lemma NoTermAfterRedacted(T: string, j: int, w: string, ctx: bool, ctxT: bool)
    requires |Redacted| <= j && |w| > 0 && AllLetters(w)
    requires T == [] || !IsWord(T[0])
    requires !TermAtCtx(T, j - |Redacted|, w, ctxT)
    ensures !TermAtCtx(Redacted + T, j, w, ctx)
  {
    RedactedShape();
    CtxShift(Redacted, T, j - |Redacted|, w, ctx);
    CtxIrrelevant(T, j - |Redacted|, w, false, ctxT);
  }

  /** Right after a word character the output starts with the next character. */
  lemma CopiedAfterWord(s: string, j: nat)
    requires 0 < j < |s| && IsWord(s[j - 1])
    ensures RedactFrom(s, j) != [] && RedactFrom(s, j)[0] == s[j]
  {
    NoTermAfterWord(s, j);
    CopyStep(s, j);
  }

  /** A whole-word match at the start of a copy of s[i..i+|w|] is one in s. */
  lemma TransferMatch(out: string, tail: string, s: string, i: nat, w: string)
    requires |w| > 0 && AllLetters(w) && i + |w| <= |s|
    requires CopiedThen(out, s, i, |w|, tail)
    requires tail == [] ==> i + |w| == |s|
    requires tail != [] ==> i + |w| < |s| && tail[0] == s[i + |w|]
    requires TermAtCtx(out, 0, w, WordBefore(s, i))
    ensures TermAt(s, i, w)
  {
    forall k | 0 <= k < |w| ensures Lower(s[i + k]) == w[k] {
      assert out[k] == s[i + k];
    }
    assert Lower(s[i]) == w[0];
    assert Lower(s[i + |w| - 1]) == w[|w| - 1];
    if tail != [] {
      assert out[|w|] == tail[0];
    }
  }

  /** A word that starts the output at a copied character would already have
      matched the text there. */
  lemma NoTermAtCopy(s: string, i: nat, w: string)
    requires i < |s| && SensitiveAt(s, i).None?
    requires w in SensitiveTerms
    ensures !TermAtCtx(RedactFrom(s, i), 0, w, WordBefore(s, i))
  {
    CopiedMatch(s, i, w);
    SensitiveAtSpec(s, i);
  }

  /** A sensitive word at the start of the output from i, where s[i] was
      copied, lies in s itself from i on. */
  lemma CopiedMatch(s: string, i: nat, w: string)
    requires i < |s| && SensitiveAt(s, i).None? && w in SensitiveTerms
    ensures TermAtCtx(RedactFrom(s, i), 0, w, WordBefore(s, i)) ==> TermAt(s, i, w)
  {
    var out := RedactFrom(s, i);
    if TermAtCtx(out, 0, w, WordBefore(s, i)) {
      TermsAreWords();
      MatchIsWordRun(out, w, WordBefore(s, i));
      CopiesRun(s, i, |w|);
      assert out[|w| - 1] == s[i + (|w| - 1)];
      TailAfterRun(s, i, |w|);
      TransferMatch(out, RedactFrom(s, i + |w|), s, i, w);
    }
  }

  /** A match of a word of letters covers word characters only. */
  lemma MatchIsWordRun(t: string, w: string, ctx: bool)
    requires AllLetters(w) && TermAtCtx(t, 0, w, ctx)
    ensures forall k :: 0 <= k < |w| ==> IsWord(t[k])
  {
    forall k | 0 <= k < |w| ensures IsWord(t[k]) {
      assert Lower(t[k]) == w[k];
    }
  }

  /** After a run that ends in a word character, the output is empty exactly at
      the end of the text, and otherwise starts with the next character. */
  lemma TailAfterRun(s: string, i: nat, n: nat)
    requires 0 < n && i + n <= |s| && IsWord(s[i + n - 1])
    ensures RedactFrom(s, i + n) == [] <==> i + n == |s|
    ensures RedactFrom(s, i + n) != [] ==> RedactFrom(s, i + n)[0] == s[i + n]
  {
    if i + n < |s| {
      CopiedAfterWord(s, i + n);
    }
  }

  /** After a copied character the output is that character followed by the
      rest of the output. */
  lemma CleanAfterCopy(s: string, i: nat)
    requires i < |s| && SensitiveAt(s, i).None?
    requires CleanFrom(s, i + 1)
    ensures CleanFrom(s, i)
  {
    forall j, m | 0 <= m < |SensitiveTerms|
      ensures !TermAtCtx(RedactFrom(s, i), j, SensitiveTerms[m], WordBefore(s, i))
    {
      var w2 := SensitiveTerms[m];
      if j == 0 {
        NoTermAtCopy(s, i, w2);
      } else if j > 0 {
        assert !TermAtCtx(RedactFrom(s, i + 1), j - 1, w2, WordBefore(s, i + 1));
        NoTermAfterCopy(s, i, j, w2);
      }
    }
  }

  /** A match after the copied character s[i] would be one in the output from
      i + 1 on. */
  lemma NoTermAfterCopy(s: string, i: nat, j: int, w: string)
    requires i < |s| && SensitiveAt(s, i).None? && 0 < j
    requires !TermAtCtx(RedactFrom(s, i + 1), j - 1, w, WordBefore(s, i + 1))
    ensures !TermAtCtx(RedactFrom(s, i), j, w, WordBefore(s, i))
  {
    CopyStep(s, i);
    CtxShift([s[i]], RedactFrom(s, i + 1), j - 1, w, WordBefore(s, i));
  }

  lemma {:induction false} RedactFromClean(s: string, i: nat)
    requires i <= |s|
    ensures CleanFrom(s, i)
    decreases |s| - i
  {
    if i < |s| {
      SensitiveAtSpec(s, i);
      match SensitiveAt(s, i)
      case Some(m0) =>
        assert TermAt(s, i, SensitiveTerms[m0]);
        RedactFromClean(s, i + |SensitiveTerms[m0]|);
        CleanAfterTerm(s, i, m0);
      case None =>
        RedactFromClean(s, i + 1);
        CleanAfterCopy(s, i);
    }
  }

  /** The redacted text contains no sensitive term as a whole word. */
  lemma RedactNoSensitiveWord(s: string)
    ensures !HasSensitiveWord(Redact(s))
  {
    TermsAreWords();
    RedactFromClean(s, 0);
    forall i, m | 0 <= m < |SensitiveTerms| ensures !TermAt(Redact(s), i, SensitiveTerms[m]) {
      TermAtIsCtx(Redact(s), i, SensitiveTerms[m]);
      assert !TermAtCtx(RedactFrom(s, 0), i, SensitiveTerms[m], WordBefore(s, 0));
    }
  }

  /** Text without a whole sensitive word is left as it is. */
  lemma {:induction false} RedactIdentity(t: string)
    ensures !HasSensitiveWord(t) ==> Redact(t) == t
  {
    if !HasSensitiveWord(t) {
      RedactFromIdentity(t, 0);
    }
  }

  lemma {:induction false} RedactFromIdentity(t: string, i: nat)
    requires !HasSensitiveWord(t) && i <= |t|
    ensures RedactFrom(t, i) == t[i..]
    decreases |t| - i
  {
    if i < |t| {
      SensitiveAtSpec(t, i);
      assert SensitiveAt(t, i).None?;
      RedactFromIdentity(t, i + 1);
    }
  }

  /** Redacting twice gives the same text as redacting once. */
  lemma RedactIdempotent(s: string)
    ensures Redact(Redact(s)) == Redact(s)
  {
    RedactNoSensitiveWord(s);
    RedactIdentity(Redact(s));
  }

  // ---------------------------------------------------------------------------
  // What the substitution does to a match: the match becomes "[REDACTED]" and
  // the text on either side is redacted on its own.

  /** Two terms that match as whole words at the same index have the same length:
      a longer one would put a word character on both sides of the shorter one's
      end. */
  lemma TermLengthUnique(s: string, i: int, w1: string, w2: string)
    requires |w1| > 0 && AllLetters(w1) && |w2| > 0 && AllLetters(w2)
    ensures TermAt(s, i, w1) && TermAt(s, i, w2) ==> |w1| == |w2|
  {
    if |w1| < |w2| && TermAt(s, i, w2) {
      ShorterNoTerm(s, i, w1, w2);
    } else if |w2| < |w1| && TermAt(s, i, w1) {
      ShorterNoTerm(s, i, w2, w1);
    }
  }

  lemma ShorterNoTerm(s: string, i: int, w1: string, w2: string)
    requires 0 < |w1| < |w2| && AllLetters(w2) && TermAt(s, i, w2)
    ensures !TermAt(s, i, w1)
  {
    assert Lower(s[i + (|w1| - 1)]) == w2[|w1| - 1];
    assert Lower(s[i + |w1|]) == w2[|w1|];
  }

  /** Before a non-word character at p - 1, a match in s is one in s[..p]. */
  lemma TermInPrefix(s: string, p: nat, k: nat, w: string)
    requires k < p <= |s| && !IsWord(s[p - 1])
    requires |w| > 0 && AllLetters(w)
    ensures TermAt(s, k, w) <==> TermAt(s[..p], k, w)
  {
    var a := s[..p];
    if k + |w| >= p {
      var x := p - 1 - k;
      assert a[k + x] == s[k + x] == s[p - 1];
      assert IsLetter(w[x]) && !IsLetter(Lower(s[k + x]));
      assert !TermAt(s, k, w) && !TermAt(a, k, w);
    }
  }

  lemma SensitiveAtPrefix(s: string, p: nat, k: nat)
    requires k < p <= |s| && !IsWord(s[p - 1])
    ensures SensitiveAt(s, k) == SensitiveAt(s[..p], k)
  {
    TermsAreWords();
    forall m | 0 <= m < |SensitiveTerms|
      ensures TermAt(s, k, SensitiveTerms[m]) <==> TermAt(s[..p], k, SensitiveTerms[m])
    {
      TermInPrefix(s, p, k, SensitiveTerms[m]);
    }
    SensitiveAtSpec(s, k);
    SensitiveAtSpec(s[..p], k);
  }

  /** Past index p, a match in s is one in s[p..]. */
  lemma TermInSuffix(s: string, p: nat, k: nat, w: string)
    requires 0 < k && p + k <= |s|
    ensures TermAt(s, p + k, w) <==> TermAt(s[p..], k, w)
  {
    var b := s[p..];
    assert s[p + k - 1] == b[k - 1];
    if p + k + |w| <= |s| {
      if p + k + |w| < |s| {
        assert s[p + k + |w|] == b[k + |w|];
      }
      if 0 < |w| {
        assert s[p + k + |w| - 1] == b[k + |w| - 1];
      }
    }
  }

  lemma SensitiveAtSuffix(s: string, p: nat, k: nat)
    requires 0 < k && p + k <= |s|
    ensures SensitiveAt(s, p + k) == SensitiveAt(s[p..], k)
  {
    forall m | 0 <= m < |SensitiveTerms|
      ensures TermAt(s, p + k, SensitiveTerms[m]) <==> TermAt(s[p..], k, SensitiveTerms[m])
    {
      TermInSuffix(s, p, k, SensitiveTerms[m]);
    }
    SensitiveAtSpec(s, p + k);
    SensitiveAtSpec(s[p..], k);
  }

  /** Where alternative m matches, the substitution emits "[REDACTED]" and
      resumes after the match. */
  lemma ReplaceStep(s: string, i: nat, m: nat, n: nat)
    requires i < |s| && SensitiveAt(s, i) == Some(m) && n == i + |SensitiveTerms[m]|
    ensures RedactFrom(s, i) == Redacted + RedactFrom(s, n)
  {
  }

  /** Up to a non-word character at p - 1, the redaction of s is that of s[..p]. */
  lemma {:induction false} RedactPrefix(s: string, p: nat, k: nat)
    requires k <= p <= |s|
    requires p == 0 || !IsWord(s[p - 1])
    ensures RedactFrom(s, k) == RedactFrom(s[..p], k) + RedactFrom(s, p)
    decreases p - k
  {
    if k < p {
      SensitiveAtPrefix(s, p, k);
      SensitiveAtSpec(s[..p], k);
      var o := SensitiveAt(s[..p], k);
      if o.Some? {
        var n := k + |SensitiveTerms[o.value]|;
        RedactPrefix(s, p, n);
        PrefixReplace(s, p, k, o.value, n);
      } else {
        RedactPrefix(s, p, k + 1);
        PrefixCopy(s, p, k);
      }
    }
  }

  lemma PrefixReplace(s: string, p: nat, k: nat, m: nat, n: nat)
    requires k < p <= |s| && m < |SensitiveTerms| && n == k + |SensitiveTerms[m]| <= p
    requires SensitiveAt(s, k) == Some(m) && SensitiveAt(s[..p], k) == Some(m)
    requires RedactFrom(s, n) == RedactFrom(s[..p], n) + RedactFrom(s, p)
    ensures RedactFrom(s, k) == RedactFrom(s[..p], k) + RedactFrom(s, p)
  {
    ReplaceStep(s, k, m, n);
    ReplaceStep(s[..p], k, m, n);
    PrependBoth(RedactFrom(s, k), RedactFrom(s[..p], k), Redacted,
                RedactFrom(s, n), RedactFrom(s[..p], n), RedactFrom(s, p));
  }

  lemma PrefixCopy(s: string, p: nat, k: nat)
    requires k < p <= |s|
    requires SensitiveAt(s, k).None? && SensitiveAt(s[..p], k).None?
    requires RedactFrom(s, k + 1) == RedactFrom(s[..p], k + 1) + RedactFrom(s, p)
    ensures RedactFrom(s, k) == RedactFrom(s[..p], k) + RedactFrom(s, p)
  {
    CopyStep(s, k);
    CopyStep(s[..p], k);
    assert s[..p][k] == s[k];
    PrependBoth(RedactFrom(s, k), RedactFrom(s[..p], k), [s[k]],
                RedactFrom(s, k + 1), RedactFrom(s[..p], k + 1), RedactFrom(s, p));
  }

  /** x and y start alike and continue alike. */
  lemma PrependSame(x: string, y: string, r: string, X: string, Y: string)
    requires x == r + X && y == r + Y && X == Y
    ensures x == y
  {
  }

  /** x and y start alike and continue with X and Y, where X is Y followed by t. */
  lemma PrependBoth(x: string, y: string, r: string, X: string, Y: string, t: string)
    requires x == r + X && y == r + Y && X == Y + t
    ensures x == y + t
  {
    assert r + (Y + t) == (r + Y) + t;
  }

  /** From index p + k, where k > 0 or s[p] is not a word character, the
      redaction of s is that of s[p..]. */
  lemma {:induction false} RedactSuffix(s: string, p: nat, k: nat)
    requires p + k <= |s|
    requires k == 0 ==> p == |s| || !IsWord(s[p])
    ensures RedactFrom(s, p + k) == RedactFrom(s[p..], k)
    decreases |s| - p - k
  {
    if p + k < |s| {
      if k == 0 {
        NoTermAtNonWord(s, p);
        NoTermAtNonWord(s[p..], 0);
      } else {
        SensitiveAtSuffix(s, p, k);
      }
      SensitiveAtSpec(s[p..], k);
      var o := SensitiveAt(s[p..], k);
      if o.Some? {
        var n := k + |SensitiveTerms[o.value]|;
        RedactSuffix(s, p, n);
        SuffixReplace(s, p, k, o.value, n);
      } else {
        RedactSuffix(s, p, k + 1);
        SuffixCopy(s, p, k);
      }
    }
  }

  lemma SuffixReplace(s: string, p: nat, k: nat, m: nat, n: nat)
    requires m < |SensitiveTerms| && n == k + |SensitiveTerms[m]| && p + n <= |s| && p + k < |s|
    requires SensitiveAt(s, p + k) == Some(m) && SensitiveAt(s[p..], k) == Some(m)
    requires RedactFrom(s, p + n) == RedactFrom(s[p..], n)
    ensures RedactFrom(s, p + k) == RedactFrom(s[p..], k)
  {
    ReplaceStep(s, p + k, m, p + n);
    ReplaceStep(s[p..], k, m, n);
    PrependSame(RedactFrom(s, p + k), RedactFrom(s[p..], k), Redacted,
                RedactFrom(s, p + n), RedactFrom(s[p..], n));
  }

  lemma SuffixCopy(s: string, p: nat, k: nat)
    requires p + k < |s|
    requires SensitiveAt(s, p + k).None? && SensitiveAt(s[p..], k).None?
    requires RedactFrom(s, p + k + 1) == RedactFrom(s[p..], k + 1)
    ensures RedactFrom(s, p + k) == RedactFrom(s[p..], k)
  {
    CopyStep(s, p + k);
    CopyStep(s[p..], k);
    assert s[p..][k] == s[p + k];
    PrependSame(RedactFrom(s, p + k), RedactFrom(s[p..], k), [s[p + k]],
                RedactFrom(s, p + k + 1), RedactFrom(s[p..], k + 1));
  }

  /** A whole-word match at i is preceded and followed by a non-word character
      (or a text end). */
  lemma MatchBounded(s: string, i: nat, m: nat)
    requires m < |SensitiveTerms| && TermAt(s, i, SensitiveTerms[m])
    ensures i == 0 || !IsWord(s[i - 1])
    ensures var e := i + |SensitiveTerms[m]|; e == |s| || !IsWord(s[e])
  {
    TermsAreWords();
    var w := SensitiveTerms[m];
    assert Lower(s[i]) == w[0];
    assert Lower(s[i + (|w| - 1)]) == w[|w| - 1];
  }

  /** At a whole-word match the substitution replaces the match in one step,
      whichever alternative of the pattern it tries first. */
  lemma ReplaceAt(s: string, i: nat, m: nat)
    requires m < |SensitiveTerms| && TermAt(s, i, SensitiveTerms[m])
    ensures RedactFrom(s, i) == Redacted + RedactFrom(s, i + |SensitiveTerms[m]|)
  {
    TermsAreWords();
    SensitiveAtSpec(s, i);
    var m' := SensitiveAt(s, i).value;
    TermLengthUnique(s, i, SensitiveTerms[m], SensitiveTerms[m']);
    ReplaceStep(s, i, m', i + |SensitiveTerms[m]|);
  }

  /** From a whole-word match on, the substitution gives "[REDACTED]" followed
      by the redaction of the text after the match. */
  lemma MatchAndAfter(s: string, i: nat, m: nat)
    requires m < |SensitiveTerms| && TermAt(s, i, SensitiveTerms[m])
    ensures RedactFrom(s, i) == Redacted + Redact(s[i + |SensitiveTerms[m]|..])
  {
    var e := i + |SensitiveTerms[m]|;
    MatchBounded(s, i, m);
    ReplaceAt(s, i, m);
    RedactSuffix(s, e, 0);
  }

  /** `re.sub` on a text with a whole-word match of a sensitive term at i: the
      match becomes "[REDACTED]", and the text before and after it is redacted
      as if it stood alone. */
  lemma RedactAt(s: string, i: nat, m: nat)
    requires m < |SensitiveTerms| && TermAt(s, i, SensitiveTerms[m])
    ensures var e := i + |SensitiveTerms[m]|;
      Redact(s) == Redact(s[..i]) + Redacted + Redact(s[e..])
  {
    var e := i + |SensitiveTerms[m]|;
    MatchBounded(s, i, m);
    RedactPrefix(s, i, 0);
    MatchAndAfter(s, i, m);
    Join(RedactFrom(s, 0), Redact(s[..i]), RedactFrom(s, i), Redacted, Redact(s[e..]));
  }

  /** RedactAt at every whole-word match of s. */
  lemma RedactEveryMatch(s: string)
    ensures forall i, m :: 0 <= m < |SensitiveTerms| && TermAt(s, i, SensitiveTerms[m]) ==>
      Redact(s) == Redact(s[..i]) + Redacted + Redact(s[i + |SensitiveTerms[m]|..])
  {
    forall i, m | 0 <= m < |SensitiveTerms| && TermAt(s, i, SensitiveTerms[m])
      ensures Redact(s) == Redact(s[..i]) + Redacted + Redact(s[i + |SensitiveTerms[m]|..])
    {
      RedactAt(s, i, m);
    }
  }

  /** x is a followed by y, and y is r followed by b. */
  lemma Join(x: string, a: string, y: string, r: string, b: string)
    requires x == a + y && y == r + b
    ensures x == a + r + b
  {
    assert a + (r + b) == (a + r) + b;
  }

  /** RedactAt for a text written as a + t + b around the match t. With
      RedactIdentity, this determines the substitution on every text. */
  lemma RedactAround(a: string, t: string, b: string, m: nat)
    requires m < |SensitiveTerms| && |t| == |SensitiveTerms[m]|
    requires TermAt(a + t + b, |a|, SensitiveTerms[m])
    ensures Redact(a + t + b) == Redact(a) + Redacted + Redact(b)
  {
    var s := a + t + b;
    RedactAt(s, |a|, m);
    assert s[..|a|] == a && s[|a| + |t|..] == b;
  }
}
