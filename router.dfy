/**
  The console loop of the bank assistant. Each message is stripped, checked by
  the input guardrail, and then routed: "quit" ends the conversation, a refund
  request (or an unfinished one) goes to the refund tracker, a booking request
  (or an unfinished one) to the booking tracker, and anything else gets the
  balance reply or the help text.

  `Step` is the specification of one message on a snapshot of the two trackers;
  `Turn` performs it on the tracker objects themselves, and `Run` is the loop
  over a sequence of input lines.
 */
module Router {
  import opened Wrappers
  import opened Text
  import opened Guardrails
  import opened Trackers

  /** The state the loop keeps between messages: the trackers' fields. */
  datatype Session = Session(
    awaitingDetails: bool,
    details: Details,
    awaitingDay: bool,
    day: Option<string>)

  /** Both trackers as they are created. */
  const Start := Session(false, NoDetails, false, None)

  /** What the assistant prints for one message. The greeting name the real
      replies interpolate is not part of the model. */
  datatype Reply =
    | Rejected(reason: string)          // "Invalid input: <reason>"
    | Goodbye                           // the loop ends
    | RefundPrompt(missing: seq<Field>) // one request line per missing entry
    | RefundConfirmed(record: Details)  // printed as ConfirmationText(record)
    | Booked(day: string)               // "Appointment booked on <Day> ..."
    | AskDay                            // which day to book
    | BalanceReply                      // the simulated balance
    | HelpReply                         // what the assistant can do

  datatype Outcome = Outcome(next: Session, reply: Reply)

  /** A dictionary value as an f-string renders it. */
  function Shown(v: Option<string>): string
  {
    match v
    case Some(s) => s
    case None => "None"
  }

  /** The confirmation printed when a refund record is complete. */
  function Confirmation(d: Details): string
  {
    "Refund successful for Transaction ID " + Shown(d.transactionId) +
    ",Date " + Shown(d.date) + ", Amount $" + Shown(d.amount) +
    ",Reason: " + Shown(d.reason) + "."
  }

  /** The confirmation as printed: the formatted record after the output
      guardrail. */
  function ConfirmationText(d: Details): (r: string)
    ensures !HasSensitiveWord(r)
    ensures !HasSensitiveWord(Confirmation(d)) ==> r == Confirmation(d)
  {
    OutputGuard(Some(Confirmation(d)))
  }

  /** The branch of the loop body that handles a stripped query. */
  datatype Route = Refuse(reason: string) | Quit | ToRefund | ToBooking | ToBalance | ToHelp

  /** The order of the tests in the loop body: the input guardrail, "quit",
      then refund, booking and balance. */
  function Classify(st: Session, q: string): Route
  {
    var verdict := InputGuard(q);
    if !verdict.valid then Refuse(verdict.reason)
    else
      var lq := LowerStr(q);
      if lq == "quit" then Quit
      else if Contains(lq, "refund") || st.awaitingDetails then ToRefund
      else if Contains(lq, "book") || st.awaitingDay then ToBooking
      else if Contains(lq, "balance") then ToBalance
      else ToHelp
  }

  /** The refund branch: merge the query into the record, then either ask for
      what is missing or confirm (through the output guardrail) and reset. */
  function RefundStep(st: Session, q: string): Outcome
  {
    var d := ParsedDetails(st.details, q);
    var missing := Missing(d);
    if missing != [] then
      Outcome(st.(awaitingDetails := true, details := d), RefundPrompt(missing))
    else
      Outcome(st.(awaitingDetails := false, details := NoDetails),
              RefundConfirmed(d))
  }

  /** The booking branch: book the first day, in week order, named in the query, or ask for one. */
  function BookingStep(st: Session, q: string): Outcome
  {
    match DayIn(q)
    case Some(day) => Outcome(st.(awaitingDay := false, day := None), Booked(Capitalize(day)))
    case None => Outcome(st.(awaitingDay := true), AskDay)
  }

  /** One pass of the loop body on one input line. */
  function Step(st: Session, line: string): Outcome
  {
    var q := Strip(line);
    match Classify(st, q)
    case Refuse(reason) => Outcome(st, Rejected(reason))
    case Quit => Outcome(st, Goodbye)
    case ToRefund => RefundStep(st, q)
    case ToBooking => BookingStep(st, q)
    case ToBalance => Outcome(st, BalanceReply)
    case ToHelp => Outcome(st, HelpReply)
  }

  /** The invariant of the loop: a record is kept only while the assistant waits
      for more refund details, and then something is still missing; the stored
      values are well formed; no booked day is kept between messages. */
  predicate SessionOk(st: Session)
  {
    WellFormed(st.details) &&
    (!st.awaitingDetails ==> st.details == NoDetails) &&
    (st.awaitingDetails ==> Missing(st.details) != []) &&
    st.day == None
  }

  lemma StartOk()
    ensures SessionOk(Start)
  {
  }

  /** The stripped line is blank exactly when the line is. */
  lemma StripBlank(line: string)
    ensures AllSpace(Strip(line)) <==> AllSpace(line)
  {
    var r := Strip(line);
    if r != [] {
      assert !IsSpace(r[0]);
    }
  }

  /** A blank line or one that mentions a sensitive word is refused, with its
      reason, before any other test, and changes nothing. */
  lemma GuardComesFirst(st: Session, line: string)
    ensures Step(st, line).reply.Rejected? <==> AllSpace(line) || HasSensitiveWord(Strip(line))
    ensures AllSpace(line) ==> Step(st, line) == Outcome(st, Rejected(EmptyReason))
    ensures !AllSpace(line) && HasSensitiveWord(Strip(line)) ==>
      Step(st, line) == Outcome(st, Rejected(SensitiveReason))
  {
    StripBlank(line);
    var q := Strip(line);
    match Classify(st, q)
    case ToRefund =>
    case ToBooking =>
    case _ =>
  }

  /** A line that reads "quit" passes the input guardrail. */
  lemma QuitIsValid(q: string)
    requires LowerStr(q) == "quit"
    ensures InputGuard(q).valid
  {
    TermsAreWords();
    assert !AllSpace(q) by { assert Lower(q[0]) == 'q'; }
    forall i, m | 0 <= m < |SensitiveTerms| ensures !TermAt(q, i, SensitiveTerms[m]) {
    }
  }

  /** "quit" in any letter case, and nothing else, ends the conversation. */
  lemma QuitEnds(st: Session, q: string)
    ensures Classify(st, q) == Quit <==> LowerStr(q) == "quit"
  {
    if LowerStr(q) == "quit" {
      QuitIsValid(q);
    }
  }

  /** A refund request, or an unfinished one, goes to the refund tracker even
      when the query also asks for a booking or the balance. */
  lemma RefundFirst(st: Session, q: string)
    ensures Classify(st, q) == ToRefund <==>
      InputGuard(q).valid && LowerStr(q) != "quit" &&
      (Contains(LowerStr(q), "refund") || st.awaitingDetails)
  {
  }

  /** A booking request, or an unfinished one, goes to the booking tracker
      unless the refund branch takes the query. */
  lemma BookingSecond(st: Session, q: string)
    ensures Classify(st, q) == ToBooking <==>
      InputGuard(q).valid && LowerStr(q) != "quit" &&
      !Contains(LowerStr(q), "refund") && !st.awaitingDetails &&
      (Contains(LowerStr(q), "book") || st.awaitingDay)
  {
  }

  /** The prompt names exactly the entries still missing, in dictionary order,
      and the tracker keeps waiting with the merged record. */
  lemma PromptListsMissing(st: Session, q: string)
    requires RefundStep(st, q).reply.RefundPrompt?
    ensures var o := RefundStep(st, q);
      o.next.awaitingDetails && o.reply.missing != [] &&
      o.next.details == ParsedDetails(st.details, q) &&
      (forall f :: f in o.reply.missing <==> !Filled(Get(o.next.details, f))) &&
      (forall i, j :: 0 <= i < j < |o.reply.missing| ==> Rank(o.reply.missing[i]) < Rank(o.reply.missing[j]))
  {
  }

  /** A confirmation is given only for the merged record once it is complete,
      and it clears the record. */
  lemma ConfirmationClears(st: Session, q: string)
    requires RefundStep(st, q).reply.RefundConfirmed?
    ensures RefundStep(st, q).reply.record == ParsedDetails(st.details, q)
    ensures forall f :: Filled(Get(ParsedDetails(st.details, q), f))
    ensures RefundStep(st, q).next == st.(awaitingDetails := false, details := NoDetails)
  {
    AllFilled(ParsedDetails(st.details, q));
  }

  /** While details are awaited, a query that carries none (no digit, no menu
      key, no reason phrase) is answered with the same prompt. */
  lemma NoDetailsReprompts(st: Session, q: string)
    requires SessionOk(st) && st.awaitingDetails
    requires forall k :: 0 <= k < |q| ==> !IsDigit(q[k])
    requires forall m :: 0 <= m < |ReasonMenu| ==> ReasonMenu[m].0 !in Split(q)
    requires forall m :: 0 <= m < |ReasonPhrases| ==> !Contains(LowerStr(q), ReasonPhrases[m].0)
    ensures RefundStep(st, q) == Outcome(st, RefundPrompt(Missing(st.details)))
  {
    ParsedNoSignal(st.details, q);
  }

  /** The refund branch keeps the loop invariant. */
  lemma RefundStepKeepsSessionOk(st: Session, q: string)
    requires SessionOk(st)
    ensures SessionOk(RefundStep(st, q).next)
  {
    ParsedWellFormed(st.details, q);
  }

  /** A booking names the first day of the week found in the query, capitalised,
      and keeps no day; without a day the tracker keeps waiting. The refund
      entries are not touched. */
  lemma BookingNamesDay(st: Session, q: string)
    ensures var o := BookingStep(st, q);
      o.next.awaitingDetails == st.awaitingDetails && o.next.details == st.details
    ensures BookingStep(st, q).reply.Booked? ==>
      exists m :: (0 <= m < |Days| && BookingStep(st, q).reply.day == Capitalize(Days[m]) &&
        Contains(LowerStr(q), Days[m]) && forall j :: 0 <= j < m ==> !Contains(LowerStr(q), Days[j]))
    ensures BookingStep(st, q).reply.Booked? ==>
      BookingStep(st, q).next.day == None && !BookingStep(st, q).next.awaitingDay
    ensures BookingStep(st, q).reply == AskDay <==>
      forall m :: 0 <= m < |Days| ==> !Contains(LowerStr(q), Days[m])
    ensures BookingStep(st, q).reply == AskDay ==>
      BookingStep(st, q).next == st.(awaitingDay := true)
  {
  }

  /** The booking branch keeps the loop invariant. */
  lemma BookingStepKeepsSessionOk(st: Session, q: string)
    requires SessionOk(st)
    ensures SessionOk(BookingStep(st, q).next)
  {
  }

  /** Every message keeps the loop invariant. */
  lemma StepKeepsSessionOk(st: Session, line: string)
    requires SessionOk(st)
    ensures SessionOk(Step(st, line).next)
  {
    var q := Strip(line);
    match Classify(st, q)
    case ToRefund =>
      RefundStepKeepsSessionOk(st, q);
    case ToBooking =>
      BookingStepKeepsSessionOk(st, q);
    case _ =>
  }

  /** The goodbye is the reply to "quit" and to nothing else, and it leaves
      the session as it was. */
  lemma GoodbyeOnlyOnQuit(st: Session, line: string)
    ensures Step(st, line).reply == Goodbye <==> Classify(st, Strip(line)) == Quit
    ensures Step(st, line).reply == Goodbye ==> Step(st, line).next == st
  {
    var q := Strip(line);
    match Classify(st, q)
    case ToRefund =>
    case ToBooking =>
    case _ =>
  }

  // ---------------------------------------------------------------------------
  // The tracker objects

  /** The trackers' fields as a snapshot. */
  function Snapshot(refund: RefundTracker, booking: BookingTracker): Session
    reads refund, booking
  {
    Session(refund.awaitingDetails, refund.details, booking.awaitingDay, booking.day)
  }

  /** The tests of the loop body, in order, on the tracker objects. */
  method Dispatch(refund: RefundTracker, booking: BookingTracker, q: string) returns (route: Route)
    ensures route == Classify(Snapshot(refund, booking), q)
  {
    var verdict := InputGuard(q);
    if !verdict.valid {
      return Refuse(verdict.reason);
    }
    var lq := LowerStr(q);
    if lq == "quit" {
      return Quit;
    }
    if Contains(lq, "refund") || refund.awaitingDetails {
      return ToRefund;
    }
    if Contains(lq, "book") || booking.awaitingDay {
      return ToBooking;
    }
    if Contains(lq, "balance") {
      return ToBalance;
    }
    return ToHelp;
  }

  /** The loop body on the two tracker objects. */
  method Turn(refund: RefundTracker, booking: BookingTracker, line: string) returns (reply: Reply)
    modifies refund, booking
    ensures Outcome(Snapshot(refund, booking), reply) == Step(old(Snapshot(refund, booking)), line)
  {
    var q := Strip(line);
    var route := Dispatch(refund, booking, q);
    match route
    case Refuse(reason) => reply := Rejected(reason);
    case Quit => reply := Goodbye;
    case ToRefund => reply := RefundTurn(refund, booking, q);
    case ToBooking => reply := BookingTurn(refund, booking, q);
    case ToBalance => reply := BalanceReply;
    case ToHelp => reply := HelpReply;
  }

  /** The refund branch of the loop body on the refund tracker. */
  method RefundTurn(refund: RefundTracker, booking: BookingTracker, q: string) returns (reply: Reply)
    modifies refund
    ensures Outcome(Snapshot(refund, booking), reply) == RefundStep(old(Snapshot(refund, booking)), q)
  {
    refund.awaitingDetails := true;
    refund.ParseInput(q);
    var missing := Missing(refund.details);
    if missing != [] {
      return RefundPrompt(missing);
    }
    reply := RefundConfirmed(refund.details);
    refund.details := NoDetails;
    refund.awaitingDetails := false;
  }

  /** The booking branch of the loop body on the booking tracker. */
  method BookingTurn(refund: RefundTracker, booking: BookingTracker, q: string) returns (reply: Reply)
    modifies booking
    ensures Outcome(Snapshot(refund, booking), reply) == BookingStep(old(Snapshot(refund, booking)), q)
  {
    booking.awaitingDay := true;
    var found := booking.ParseInput(q);
    if found {
      reply := Booked(Capitalize(booking.day.value));
      booking.day := None;
      booking.awaitingDay := false;
      return;
    }
    return AskDay;
  }

  // ---------------------------------------------------------------------------
  // The conversation

  datatype Transcript = Transcript(replies: seq<Reply>, last: Session)

  /** The `while True` loop, for a given loop body, over the first n input
      lines: the replies so far and the state reached. Nothing is read after
      the goodbye. */
  function Replay(step: (Session, string) -> Outcome, st: Session, lines: seq<string>, n: nat): Transcript
    requires n <= |lines|
  {
    if n == 0 then Transcript([], st)
    else
      var t := Replay(step, st, lines, n - 1);
      if Goodbye in t.replies then t
      else
        var o := step(t.last, lines[n - 1]);
        Transcript(t.replies + [o.reply], o.next)
  }

  /** After the goodbye, further lines change nothing. */
  lemma {:induction false} ReplayStops(step: (Session, string) -> Outcome, st: Session, lines: seq<string>, n: nat, m: nat)
    requires n <= m <= |lines|
    requires Goodbye in Replay(step, st, lines, n).replies
    ensures Replay(step, st, lines, m) == Replay(step, st, lines, n)
    decreases m - n
  {
    if n < m {
      ReplayStops(step, st, lines, n, m - 1);
    }
  }

  /** At most one reply per line, the goodbye only as the last reply, and
      without a goodbye exactly one reply per line. */
  lemma {:induction false} ReplayShape(step: (Session, string) -> Outcome, st: Session, lines: seq<string>, n: nat)
    requires n <= |lines|
    ensures |Replay(step, st, lines, n).replies| <= n
    ensures forall k :: 0 <= k < |Replay(step, st, lines, n).replies| - 1 ==>
      Replay(step, st, lines, n).replies[k] != Goodbye
    ensures Goodbye !in Replay(step, st, lines, n).replies ==> |Replay(step, st, lines, n).replies| == n
  {
    if n > 0 {
      ReplayShape(step, st, lines, n - 1);
    }
  }

  /** A property of the state that every pass of the loop body keeps holds
      after every line of the conversation. */
  lemma {:induction false} ReplayKeeps(step: (Session, string) -> Outcome, inv: Session -> bool,
                                       st: Session, lines: seq<string>, n: nat)
    requires n <= |lines| && inv(st)
    requires forall s, line :: inv(s) ==> inv(step(s, line).next)
    ensures inv(Replay(step, st, lines, n).last)
  {
    if n > 0 {
      ReplayKeeps(step, inv, st, lines, n - 1);
    }
  }

  /** The loop invariant holds after every line of the conversation. */
  lemma ConversationKeepsSessionOk(st: Session, lines: seq<string>, n: nat)
    requires n <= |lines| && SessionOk(st)
    ensures SessionOk(Replay(Step, st, lines, n).last)
  {
    forall s, line | SessionOk(s)
      ensures SessionOk(Step(s, line).next)
    {
      StepKeepsSessionOk(s, line);
    }
    ReplayKeeps(Step, SessionOk, st, lines, n);
  }

  /** One more line: the loop body's outcome extends the transcript, and a
      goodbye is the end of it. */
  lemma ReplayAdvance(step: (Session, string) -> Outcome, st0: Session, lines: seq<string>, i: nat,
                      t: Transcript, o: Outcome)
    requires i < |lines|
    requires Replay(step, st0, lines, i) == t && Goodbye !in t.replies
    requires o == step(t.last, lines[i])
    ensures Replay(step, st0, lines, i + 1) == Transcript(t.replies + [o.reply], o.next)
    ensures o.reply == Goodbye ==> Replay(step, st0, lines, |lines|) == Replay(step, st0, lines, i + 1)
  {
    if o.reply == Goodbye {
      ReplayStops(step, st0, lines, i + 1, |lines|);
    }
  }

  /** The loop over the given input lines on the two tracker objects, left on
      "quit" or when the lines run out. */
  method Run(refund: RefundTracker, booking: BookingTracker, lines: seq<string>)
    returns (replies: seq<Reply>)
    modifies refund, booking
    ensures Transcript(replies, Snapshot(refund, booking)) == Replay(Step, old(Snapshot(refund, booking)), lines, |lines|)
  {
    ghost var st0 := Snapshot(refund, booking);
    replies := [];
    var i := 0;
    var done := false;  // set by "quit", where the loop breaks
    while i < |lines| && !done
      invariant 0 <= i <= |lines|
      invariant Replay(Step, st0, lines, i) == Transcript(replies, Snapshot(refund, booking))
      invariant done ==> Replay(Step, st0, lines, |lines|) == Replay(Step, st0, lines, i)
      invariant !done ==> Goodbye !in replies
    {
      ghost var t := Transcript(replies, Snapshot(refund, booking));
      var reply := Turn(refund, booking, lines[i]);
      ReplayAdvance(Step, st0, lines, i, t, Outcome(Snapshot(refund, booking), reply));
      replies := replies + [reply];
      done := reply == Goodbye;
      i := i + 1;
    }
  }
}
