/**
  The two conversation trackers of the bank assistant: `RefundTracker`, which
  accumulates the four details of a refund request over several messages, and
  `BookingTracker`, which waits for a day of the week.
 */
module Trackers {
  import opened Wrappers
  import opened Text
  import opened Extract

  // ---------------------------------------------------------------------------
  // The refund record

  /** The keys of the `details` dictionary, in insertion order. */
  datatype Field = TransactionId | Date | Amount | Reason

  /** The `details` dictionary: each of its four entries is None or a string. */
  datatype Details = Details(
    transactionId: Option<string>,
    date: Option<string>,
    amount: Option<string>,
    reason: Option<string>)

  /** The dictionary as the tracker creates it and as a finished refund resets it. */
  const NoDetails := Details(None, None, None, None)

  function Get(d: Details, f: Field): Option<string>
  {
    match f
    case TransactionId => d.transactionId
    case Date => d.date
    case Amount => d.amount
    case Reason => d.reason
  }

  /** Position of a key in the dictionary's iteration order. */
  function Rank(f: Field): nat
  {
    match f
    case TransactionId => 0
    case Date => 1
    case Amount => 2
    case Reason => 3
  }

  /** Python truthiness of a dictionary value: neither None nor the empty string. */
  predicate Filled(v: Option<string>)
  {
    v.Some? && v.value != []
  }

  /** The keys whose values are falsy, in dictionary order: the list the
      assistant asks the customer to supply. */
  function Missing(d: Details): (r: seq<Field>)
    ensures forall f :: f in r <==> !Filled(Get(d, f))
    ensures forall i, j :: 0 <= i < j < |r| ==> Rank(r[i]) < Rank(r[j])
  {
    (if Filled(d.transactionId) then [] else [TransactionId]) +
    (if Filled(d.date) then [] else [Date]) +
    (if Filled(d.amount) then [] else [Amount]) +
    (if Filled(d.reason) then [] else [Reason])
  }

  /** Every entry is truthy exactly when nothing is missing. */
  lemma AllFilled(d: Details)
    ensures (forall f :: Filled(Get(d, f))) <==>
      Filled(d.transactionId) && Filled(d.date) && Filled(d.amount) && Filled(d.reason)
    ensures Missing(d) == [] <==> forall f :: Filled(Get(d, f))
  {
    if !Filled(d.transactionId) {
      assert TransactionId in Missing(d);
    } else if !Filled(d.date) {
      assert Date in Missing(d);
    } else if !Filled(d.amount) {
      assert Amount in Missing(d);
    } else if !Filled(d.reason) {
      assert Reason in Missing(d);
    }
  }

  /** A new tracker's record is missing all four entries, so it is not complete. */
  lemma NothingFilledAtStart()
    ensures Missing(NoDetails) == [TransactionId, Date, Amount, Reason]
    ensures forall f :: !Filled(Get(NoDetails, f))
  {
  }

  /** The five reasons a refund can carry. */
  const StandardReasons: seq<string> :=
    ["Item not received", "Duplicate charge", "Wrong item delivered", "Changed my mind", "Other"]

  /** `reasons_map`: the numbered menu the customer can answer with. */
  const ReasonMenu: seq<(string, string)> := [
    ("1", "Item not received"),
    ("2", "Duplicate charge"),
    ("3", "Wrong item delivered"),
    ("4", "Changed my mind"),
    ("5", "Other")]

  /** `reason_map`: phrases recognised anywhere in the lower-cased query. */
  const ReasonPhrases: seq<(string, string)> := [
    ("item not received", "Item not received"),
    ("duplicate charge", "Duplicate charge"),
    ("wrong item delivered", "Wrong item delivered"),
    ("changed my mind", "Changed my mind"),
    ("other", "Other"),
    ("something else", "Other"),
    ("difficult reason", "Other")]

  lemma StandardReasonsNonEmpty()
    ensures forall m :: 0 <= m < |StandardReasons| ==> StandardReasons[m] != []
  {
  }

  lemma TablesStandard()
    ensures forall m :: 0 <= m < |ReasonMenu| ==> ReasonMenu[m].1 in StandardReasons
    ensures forall m :: 0 <= m < |ReasonPhrases| ==> ReasonPhrases[m].1 in StandardReasons
  {
  }

  /** The index of the first menu entry whose key is a whitespace-separated
      token of the query. */
  function MenuIndex(q: string): (r: Option<nat>)
    ensures r.Some? ==> r.value < |ReasonMenu| && ReasonMenu[r.value].0 in Split(q) &&
                        forall j :: 0 <= j < r.value ==> ReasonMenu[j].0 !in Split(q)
    ensures r.None? <==> forall m :: 0 <= m < |ReasonMenu| ==> ReasonMenu[m].0 !in Split(q)
  {
    var tokens := Split(q);
    FirstWhere(ReasonMenu, (e: (string, string)) => e.0 in tokens)
  }

  /** The reason of that menu entry: always one of the standard reasons. */
  function ReasonByKey(q: string): (r: Option<string>)
    ensures r.None? <==> forall m :: 0 <= m < |ReasonMenu| ==> ReasonMenu[m].0 !in Split(q)
    ensures r.Some? ==> r.value in StandardReasons
  {
    TablesStandard();
    match MenuIndex(q)
    case Some(m) => Some(ReasonMenu[m].1)
    case None => None
  }

  /** The index of the first phrase that occurs in the lower-cased query. */
  function PhraseIndex(lq: string): (r: Option<nat>)
    ensures r.Some? ==> r.value < |ReasonPhrases| && Contains(lq, ReasonPhrases[r.value].0) &&
                        forall j :: 0 <= j < r.value ==> !Contains(lq, ReasonPhrases[j].0)
    ensures r.None? <==> forall m :: 0 <= m < |ReasonPhrases| ==> !Contains(lq, ReasonPhrases[m].0)
  {
    FirstWhere(ReasonPhrases, (e: (string, string)) => Contains(lq, e.0))
  }

  /** The reason of that phrase: always one of the standard reasons. */
  function ReasonByPhrase(lq: string): (r: Option<string>)
    ensures r.None? <==> forall m :: 0 <= m < |ReasonPhrases| ==> !Contains(lq, ReasonPhrases[m].0)
    ensures r.Some? ==> r.value in StandardReasons
  {
    TablesStandard();
    match PhraseIndex(lq)
    case Some(m) => Some(ReasonPhrases[m].1)
    case None => None
  }

  /** The menu entry the key loop stops at is the one `ReasonByKey` picks:
      the first whose key is a token of the query. */
  lemma MenuHit(q: string, m: nat)
    requires m < |ReasonMenu| && ReasonMenu[m].0 in Split(q)
    requires forall j :: 0 <= j < m ==> ReasonMenu[j].0 !in Split(q)
    ensures MenuIndex(q) == Some(m)
    ensures ReasonByKey(q) == Some(ReasonMenu[m].1)
  {
    var r := MenuIndex(q);
    assert r.Some?;
    assert r.value <= m;
    assert r.value >= m;
  }

  /** The phrase the phrase loop stops at is the one `ReasonByPhrase` picks:
      the first that occurs in the query. */
  lemma PhraseHit(lq: string, n: nat)
    requires n < |ReasonPhrases| && Contains(lq, ReasonPhrases[n].0)
    requires forall j :: 0 <= j < n ==> !Contains(lq, ReasonPhrases[j].0)
    ensures PhraseIndex(lq) == Some(n)
    ensures ReasonByPhrase(lq) == Some(ReasonPhrases[n].1)
  {
    var r := PhraseIndex(lq);
    assert r.Some?;
    assert r.value <= n;
    assert r.value >= n;
  }

  /** An assignment made only when a value was found. */
  function Pick(found: Option<string>, current: Option<string>): Option<string>
  {
    if found.Some? then found else current
  }

  /** The reason after `parse_input(q)`: a menu key in the query overwrites it;
      a phrase fills it only when it is still falsy. */
  function ParsedReason(current: Option<string>, q: string): Option<string>
  {
    var r1 := Pick(ReasonByKey(q), current);
    if Filled(r1) then r1 else Pick(ReasonByPhrase(LowerStr(q)), r1)
  }

  /** The record after `parse_input(q)`: each pattern that matches overwrites
      its entry, and the reason is updated as `ParsedReason` says. */
  function ParsedDetails(d: Details, q: string): Details
  {
    Details(
      Pick(TransactionIdIn(q), d.transactionId),
      Pick(DateIn(q), d.date),
      Pick(AmountIn(q), d.amount),
      ParsedReason(d.reason, q))
  }

  /** v is a string of at least n digits. */
  predicate IsDigits(v: string, n: nat)
  {
    |v| >= n && forall k :: 0 <= k < |v| ==> IsDigit(v[k])
  }

  /** What the tracker ever stores: a transaction id of two or more digits, a
      non-empty date, an amount of digits and one of the five reasons. */
  predicate WellFormed(d: Details)
  {
    (d.transactionId.Some? ==> IsDigits(d.transactionId.value, 2)) &&
    (d.date.Some? ==> |d.date.value| >= 2) &&
    (d.amount.Some? ==> IsDigits(d.amount.value, 1)) &&
    (d.reason.Some? ==> d.reason.value in StandardReasons)
  }

  /** In a well-formed record the keys the assistant asks for are exactly the
      keys still set to None. */
  lemma MissingAbsent(d: Details)
    requires WellFormed(d)
    ensures forall f :: f in Missing(d) <==> Get(d, f).None?
  {
  }

  /** Parsing only ever stores one of the five standard reasons. */
  lemma ParsedReasonStandard(current: Option<string>, q: string)
    requires current.Some? ==> current.value in StandardReasons
    ensures ParsedReason(current, q).Some? ==> ParsedReason(current, q).value in StandardReasons
  {
  }

  /** Parsing keeps a record well formed. */
  lemma ParsedWellFormed(d: Details, q: string)
    requires WellFormed(d)
    ensures WellFormed(ParsedDetails(d, q))
  {
    ParsedReasonStandard(d.reason, q);
  }

  /** Parsing never empties an entry: what was supplied stays supplied. */
  lemma ParsedKeepsFilled(d: Details, q: string, f: Field)
    requires Filled(Get(d, f))
    ensures Filled(Get(ParsedDetails(d, q), f))
  {
    StandardReasonsNonEmpty();
  }

  /** A query without digits, menu keys or reason phrases leaves the record as it was. */
  lemma ParsedNoSignal(d: Details, q: string)
    requires forall k :: 0 <= k < |q| ==> !IsDigit(q[k])
    requires forall m :: 0 <= m < |ReasonMenu| ==> ReasonMenu[m].0 !in Split(q)
    requires forall m :: 0 <= m < |ReasonPhrases| ==> !Contains(LowerStr(q), ReasonPhrases[m].0)
    ensures ParsedDetails(d, q) == d
  {
    forall lo, hi ensures !TidAt(q, lo, hi) && !DateAt(q, lo, hi) {
      if 0 <= lo < |q| {
        assert !IsDigit(q[lo]);
      }
    }
  }

  /** Which source decides the reason: a menu key in the query wins; otherwise
      an existing reason is kept; only when there is none does a phrase count. */
  lemma ReasonPrecedence(current: Option<string>, q: string)
    requires current.Some? ==> current.value in StandardReasons
    ensures ReasonByKey(q).Some? ==> ParsedReason(current, q) == ReasonByKey(q)
    ensures ReasonByKey(q).None? && current.Some? ==> ParsedReason(current, q) == current
    ensures ReasonByKey(q).None? && current.None? ==>
      ParsedReason(current, q) == ReasonByPhrase(LowerStr(q))
  {
    StandardReasonsNonEmpty();
  }

  /** The transaction id, date and amount of a query replace the stored ones. */
  lemma ParsedLatestWins(d: Details, q: string)
    ensures TransactionIdIn(q).Some? ==> ParsedDetails(d, q).transactionId == TransactionIdIn(q)
    ensures DateIn(q).Some? ==> ParsedDetails(d, q).date == DateIn(q)
    ensures AmountIn(q).Some? ==> ParsedDetails(d, q).amount == AmountIn(q)
    ensures TransactionIdIn(q).None? ==> ParsedDetails(d, q).transactionId == d.transactionId
    ensures DateIn(q).None? ==> ParsedDetails(d, q).date == d.date
    ensures AmountIn(q).None? ==> ParsedDetails(d, q).amount == d.amount
  {
  }

  class RefundTracker {
    var awaitingDetails: bool
    var details: Details

    constructor()
      ensures !awaitingDetails && details == NoDetails
    {
      awaitingDetails := false;
      details := NoDetails;
    }

    /** `parse_input`: updates the record from one query. */
    method ParseInput(q: string)
      modifies this`details
      ensures details == ParsedDetails(old(details), q)
    {
      var tid := TransactionIdIn(q);
      var date := DateIn(q);
      var amount := AmountIn(q);
      if tid.Some? {
        details := details.(transactionId := tid);
      }
      if date.Some? {
        details := details.(date := date);
      }
      if amount.Some? {
        details := details.(amount := amount);
      }
      ReasonFromKeys(q);
      if !Filled(details.reason) {
        ReasonFromPhrases(q);
      }
    }

    /** The loop of `parse_input` over `reasons_map`: the first key that is a
        token of the query sets the reason. */
    method ReasonFromKeys(q: string)
      modifies this`details
      ensures details == old(details).(reason := Pick(ReasonByKey(q), old(details).reason))
    {
      var tokens := Split(q);
      var m := 0;
      while m < |ReasonMenu|
        invariant 0 <= m <= |ReasonMenu|
        invariant forall j :: 0 <= j < m ==> ReasonMenu[j].0 !in tokens
        invariant details == old(details)
      {
        if ReasonMenu[m].0 in tokens {
          MenuHit(q, m);
          details := details.(reason := Some(ReasonMenu[m].1));
          return;
        }
        m := m + 1;
      }
    }

    /** The loop of `parse_input` over `reason_map`: the first phrase found in
        the lower-cased query sets the reason. */
    method ReasonFromPhrases(q: string)
      modifies this`details
      ensures details == old(details).(reason := Pick(ReasonByPhrase(LowerStr(q)), old(details).reason))
    {
      var lq := LowerStr(q);
      var n := 0;
      while n < |ReasonPhrases|
        invariant 0 <= n <= |ReasonPhrases|
        invariant forall j :: 0 <= j < n ==> !Contains(lq, ReasonPhrases[j].0)
        invariant details == old(details)
      {
        if Contains(lq, ReasonPhrases[n].0) {
          PhraseHit(lq, n);
          details := details.(reason := Some(ReasonPhrases[n].1));
          return;
        }
        n := n + 1;
      }
    }

    /** `is_complete`: every value of the record is truthy. */
    function IsComplete(): (b: bool)
      reads this
      ensures b <==> forall f :: Filled(Get(details, f))
      ensures b <==> Missing(details) == []
    {
      AllFilled(details);
      Filled(details.transactionId) && Filled(details.date) &&
      Filled(details.amount) && Filled(details.reason)
    }
  }

  // ---------------------------------------------------------------------------
  // Booking

  /** The days `BookingTracker.parse_input` looks for, in the order it tries them. */
  const Days: seq<string> := ["monday", "tuesday", "wednesday", "thursday", "friday", "saturday", "sunday"]

  /** The first day, in week order, whose name occurs in the lower-cased query. */
  function DayIn(q: string): (r: Option<string>)
    ensures r.None? <==> forall m :: 0 <= m < |Days| ==> !Contains(LowerStr(q), Days[m])
    ensures r.Some? ==> exists m :: (0 <= m < |Days| && r.value == Days[m] &&
      Contains(LowerStr(q), Days[m]) && forall j :: 0 <= j < m ==> !Contains(LowerStr(q), Days[j]))
  {
    var lq := LowerStr(q);
    match FirstWhere(Days, (day: string) => Contains(lq, day))
    case Some(m) => Some(Days[m])
    case None => None
  }

  class BookingTracker {
    var awaitingDay: bool
    var day: Option<string>

    constructor()
      ensures !awaitingDay && day == None
    {
      awaitingDay := false;
      day := None;
    }

    /** `parse_input`: records the first day, in week order, named in the query and stops
        waiting, or changes nothing and reports that no day was found. */
    method ParseInput(q: string) returns (found: bool)
      modifies this
      ensures found <==> DayIn(q).Some?
      ensures found ==> day == DayIn(q) && !awaitingDay
      ensures !found ==> day == old(day) && awaitingDay == old(awaitingDay)
    {
      var lq := LowerStr(q);
      var m := 0;
      while m < |Days|
        invariant 0 <= m <= |Days|
        invariant forall j :: 0 <= j < m ==> !Contains(lq, Days[j])
      {
        if Contains(lq, Days[m]) {
          assert DayIn(q) == Some(Days[m]) by {
            var r := DayIn(q);
            var m' :| 0 <= m' < |Days| && r.value == Days[m'] && Contains(lq, Days[m']) &&
              (forall j :: 0 <= j < m' ==> !Contains(lq, Days[j]));
            assert m' == m;
          }
          day := Some(Days[m]);
          awaitingDay := false;
          return true;
        }
        m := m + 1;
      }
      return false;
    }
  }
}
