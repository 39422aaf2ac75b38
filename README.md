# Bank assistant: guardrails, refund and booking trackers, console loop

The bank assistant is a console program. It greets the user and then reads one
query per line. Each query is stripped of surrounding white space and passed
through an input guardrail. The guardrail refuses a blank line, and it refuses
any line that contains one of the words `pin`, `password`, `card` or `ssn` as a
whole word, in any case. After that, the loop routes the query:

- `quit` (in any case) ends the conversation;
- a query that mentions `refund`, or any query while a refund is still
  unfinished, goes to the refund tracker;
- a query that mentions `book`, or any query while a booking is unfinished,
  goes to the booking tracker;
- a query that mentions `balance` gets the simulated balance, and anything
  else gets the help text.

The refund tracker collects four details over as many messages as it takes:

- the transaction id is the first whole-word run of two or more digits;
- the date is the first match of one or two digits that start at a word
  boundary, then at most one white-space character of any kind, then a run of
  ASCII letters that ends at a word boundary;
- the amount is the last run of digits;
- the reason is taken from a menu number (`1`–`5`) given as a separate word,
  or else from a known phrase anywhere in the lower-cased query.

A transaction id, date or amount found in a later message replaces the
earlier one, and one not found leaves the earlier one in place. The reason
behaves differently. A menu key in a later message replaces a stored reason,
but the phrase search runs only while no reason is stored. While a detail is
missing, the
assistant lists what is missing. Once all four are present, it prints a
confirmation through the output guardrail and clears the record. The output
guardrail replaces each sensitive word by `[REDACTED]`. The booking tracker
tries the days in list order, Monday to Sunday, and books the first one whose
name occurs in the lower-cased query. So `sunday or monday` books Monday.

The model is written in six modules:

- `Wrappers`: the optional value that stands for Python's `None`;
- `Text`: the string operations the program relies on (ASCII case mapping,
  `strip`, substring test, `split`, `capitalize`, the regex `\b` boundary);
- `Guardrails`: the two guardrail functions;
- `Extract`: the three regular-expression extractions of the refund tracker;
- `Trackers`: the refund and booking trackers, which are classes with the
  source's fields;
- `Router`: the loop.

`Router.Step` specifies one pass of the loop body on a snapshot of the two
trackers. `Router.Turn` performs that pass on the tracker objects and is
proved equal to `Step`. `Router.Run` is the loop over a finite list of input
lines, and it is proved equal to the left fold `Router.Replay` of `Step`. That
fold stops after the first `Goodbye`.

The regular expressions are modelled as their code defines them. Their results
can differ from what a reader would expect. In `tx 55 on 12 May $40 reason 2`,
the first match of the date pattern is `55 on`, and the last digit run, which
gives the amount, is `2`. The menu key `2` also sets the reason to
`Duplicate charge`. The model returns those values.

## Model

| member | source | states |
|---|---|---|
| Text.Strip | Bank_Agent/main.py:206 | the result is a contiguous slice of the line with no white space at either end; it is empty exactly when the line is all white space |
| Text.LowerStr | Bank_Agent/main.py:149 | same length, each character lower-cased |
| Text.Contains | Bank_Agent/main.py:151 | true exactly when the pattern occurs at some position of the text |
| Text.SplitTokens | Bank_Agent/main.py:144 | the words of `split()` are exactly the maximal runs of non-space characters |
| Text.Capitalize | Bank_Agent/main.py:248 | same length, first character upper-cased, the rest lower-cased |
| Guardrails.SearchSensitive | Bank_Agent/main.py:69 | the search succeeds exactly when some sensitive term occurs as a whole word, ignoring case |
| Guardrails.InputGuard | Bank_Agent/main.py:62-76 | valid exactly when the input is not blank and has no sensitive word; blank gives the empty-input reason, and a sensitive word in non-blank input gives the sensitive-information reason; a valid input carries "Valid input" |
| Guardrails.OutputGuard | Bank_Agent/main.py:97-104 | no sensitive word survives; a missing response becomes the empty string; a clean response is returned unchanged; around any whole-word, case-insensitive match of a sensitive term, the result is the guarded text before the match, then `[REDACTED]`, then the guarded text after it |
| Guardrails.RedactAt | Bank_Agent/main.py:100 | the substitution turns a text with a sensitive term matched at position i into the substitution of the text before i, then `[REDACTED]`, then the substitution of the text after the match |
| Guardrails.RedactAround | Bank_Agent/main.py:100 | for a text a + t + b where t is a sensitive term (in any case) standing as a whole word, the substitution gives the substitution of a, then `[REDACTED]`, then the substitution of b |
| Guardrails.RedactNoSensitiveWord | Bank_Agent/main.py:100 | after substitution, no sensitive term occurs as a whole word |
| Guardrails.RedactIdentity | Bank_Agent/main.py:100 | substitution leaves a text without sensitive words unchanged |
| Guardrails.RedactIdempotent | Bank_Agent/main.py:100 | substituting twice gives the same text as substituting once |
| Extract.TidUnique | Bank_Agent/main.py:115 | at a given start, the transaction-id pattern matches at most one span |
| Extract.TransactionIdIn | Bank_Agent/main.py:115 | none exactly when no span matches; otherwise two or more digits, taken from the leftmost matching span |
| Extract.DateUnique | Bank_Agent/main.py:116 | at a given start, the date pattern matches at most one span |
| Extract.DateIn | Bank_Agent/main.py:116 | none exactly when no span matches; otherwise digits first and a letter last, taken from the leftmost matching span |
| Extract.AmountSpansSound | Bank_Agent/main.py:117 | every span the scan reports is a maximal run of digits |
| Extract.AmountSpansComplete | Bank_Agent/main.py:117 | every maximal run of digits is reported by the scan |
| Extract.AmountSpansLast | Bank_Agent/main.py:117 | the scan is empty exactly when there is no digit; no digit follows its last span |
| Extract.AmountIn | Bank_Agent/main.py:117-124 | none exactly when the query has no digit; otherwise the last run of digits in the query |
| Trackers.RefundTracker.constructor | Bank_Agent/main.py:111-113 | not awaiting details, and all four details empty |
| Trackers.NothingFilledAtStart | Bank_Agent/main.py:113 | a fresh record misses all four details, in order |
| Trackers.Missing | Bank_Agent/main.py:220 | a detail is listed exactly when it is empty; the list keeps the record's order |
| Trackers.AllFilled | Bank_Agent/main.py:154-155 | all details are filled exactly when nothing is missing |
| Trackers.RefundTracker.IsComplete | Bank_Agent/main.py:154-155 | true exactly when every detail is filled, which is when nothing is missing |
| Trackers.TablesStandard | Bank_Agent/main.py:126-141 | every value of both reason tables is one of the five standard reasons |
| Trackers.MenuIndex | Bank_Agent/main.py:143-146 | the first menu key that is a word of the query; none exactly when no key is |
| Trackers.ReasonByKey | Bank_Agent/main.py:143-146 | none exactly when no menu key is a word of the query; otherwise a standard reason |
| Trackers.MenuHit | Bank_Agent/main.py:143-146 | when key `m` is a word and no earlier key is, the reason is entry `m`'s |
| Trackers.RefundTracker.ReasonFromKeys | Bank_Agent/main.py:143-146 | the reason becomes the first matching key's reason; it is unchanged when no key matches |
| Trackers.PhraseIndex | Bank_Agent/main.py:148-153 | the first phrase contained in the lower-cased query; none exactly when none is |
| Trackers.ReasonByPhrase | Bank_Agent/main.py:148-153 | none exactly when no phrase occurs; otherwise a standard reason |
| Trackers.PhraseHit | Bank_Agent/main.py:148-153 | when phrase `n` occurs and no earlier one does, the reason is entry `n`'s |
| Trackers.RefundTracker.ReasonFromPhrases | Bank_Agent/main.py:148-153 | the reason becomes the first occurring phrase's reason; it is unchanged when none occurs |
| Trackers.RefundTracker.ParseInput | Bank_Agent/main.py:114-153 | the new record is the old record merged with what the query contains |
| Trackers.ReasonPrecedence | Bank_Agent/main.py:143-153 | a menu key wins; otherwise an existing reason is kept; otherwise a phrase decides |
| Trackers.ParsedLatestWins | Bank_Agent/main.py:119-124 | each value found in the query replaces the stored one; a value not found leaves the stored one |
| Trackers.ParsedKeepsFilled | Bank_Agent/main.py:114-153 | parsing never empties a detail that was filled |
| Trackers.ParsedNoSignal | Bank_Agent/main.py:114-153 | a query with no digit, no menu key and no phrase leaves the record unchanged |
| Trackers.ParsedReasonStandard | Bank_Agent/main.py:143-153 | a stored reason is always one of the five standard reasons |
| Trackers.ParsedWellFormed | Bank_Agent/main.py:114-153 | parsing keeps ids and amounts all digits and reasons standard |
| Trackers.MissingAbsent | Bank_Agent/main.py:220 | in a record of the kind parsing stores, a detail is listed as missing exactly when it is still `None` |
| Trackers.BookingTracker.constructor | Bank_Agent/main.py:159-161 | not awaiting a day, and no day stored |
| Trackers.DayIn | Bank_Agent/main.py:164-166 | the first weekday, Monday first, that occurs in the lower-cased query; none exactly when none occurs |
| Trackers.BookingTracker.ParseInput | Bank_Agent/main.py:163-170 | returns true exactly when a weekday is named; then it stores that day and stops waiting; otherwise nothing changes |
| Router.ConfirmationText | Bank_Agent/main.py:237-240 | the printed confirmation contains no sensitive word; it equals the literal text when that text is clean |
| Router.StartOk | Bank_Agent/main.py:110-161 | freshly created trackers satisfy the loop invariant |
| Router.StripBlank | Bank_Agent/main.py:206 | a line is blank exactly when its stripped form is |
| Router.GuardComesFirst | Bank_Agent/main.py:206-210 | a line is refused exactly when it is blank or has a sensitive word; a refused line changes no state and carries the guardrail's reason |
| Router.QuitIsValid | Bank_Agent/main.py:212 | the input guardrail lets `quit` in any case through |
| Router.QuitEnds | Bank_Agent/main.py:212-214 | the loop takes the quit branch exactly when the query lower-cased is `quit` |
| Router.GoodbyeOnlyOnQuit | Bank_Agent/main.py:212-214 | a line gets the goodbye exactly when it takes the quit branch; it changes no state |
| Router.RefundFirst | Bank_Agent/main.py:216 | the refund branch is taken exactly when the query is valid, not `quit`, and mentions `refund` or a refund is pending |
| Router.BookingSecond | Bank_Agent/main.py:245 | the booking branch is taken exactly when the refund branch is not and the query mentions `book` or a booking is pending |
| Router.PromptListsMissing | Bank_Agent/main.py:216-235 | a prompt lists exactly the details still missing after the merge, and the tracker keeps waiting with the merged record |
| Router.ConfirmationClears | Bank_Agent/main.py:236-243 | a confirmation carries the merged record, which is complete; the record is cleared and the wait ends |
| Router.NoDetailsReprompts | Bank_Agent/main.py:216-235 | while a refund is pending, a query with nothing to extract repeats the prompt and changes nothing |
| Router.RefundStepKeepsSessionOk | Bank_Agent/main.py:216-244 | the refund branch keeps the loop invariant |
| Router.BookingNamesDay | Bank_Agent/main.py:245-253 | a booking names the capitalized day that `Trackers.DayIn` finds (the first in Monday-to-Sunday order) and clears the booking state; otherwise the assistant asks for a day and keeps waiting |
| Router.BookingStepKeepsSessionOk | Bank_Agent/main.py:245-253 | the booking branch keeps the loop invariant |
| Router.StepKeepsSessionOk | Bank_Agent/main.py:205-259 | one pass of the loop body keeps the loop invariant |
| Router.Dispatch | Bank_Agent/main.py:207-255 | the branch the loop takes on the tracker objects is the one `Router.Classify` gives for the same snapshot |
| Router.RefundTurn | Bank_Agent/main.py:216-244 | the refund branch on the objects yields the reply and tracker state of `Router.RefundStep` |
| Router.BookingTurn | Bank_Agent/main.py:245-253 | the booking branch on the objects yields the reply and tracker state of `Router.BookingStep` |
| Router.Turn | Bank_Agent/main.py:206-259 | one pass of the loop body on the objects yields the reply and tracker state of `Router.Step` |
| Router.ReplayShape | Bank_Agent/main.py:205-214 | a conversation answers every line until `quit`; the goodbye, if any, is the last reply |
| Router.ReplayStops | Bank_Agent/main.py:212-214 | nothing after the goodbye is read |
| Router.ConversationKeepsSessionOk | Bank_Agent/main.py:205-259 | the loop invariant holds after any number of lines |
| Router.Run | Bank_Agent/main.py:205-259 | the loop on the objects produces the replies and final tracker state of `Router.Replay` over `Router.Step` |

## Left out

- The language-model client, its configuration and the agent objects (lines 23-40 and 174-199) are not part of this model: the loop never calls them.
- The `check_balance` tool (lines 43-57) is not part of this model: the loop never calls it. The balance reply is the tag `BalanceReply`.
- The guardrail result containers (lines 78-94 and 106-109) are replaced by a `Verdict` value and a plain string.
- `asyncio` is left out: both guardrails are modelled as pure functions.
- Console I/O is left out. The name and account prompts are not modelled, and the greeting name that replies interpolate is not modelled. Input lines are a parameter of `Router.Run`, and end of input is the end of that list. Replies are tags such as `RefundPrompt(missing)` and `Booked(day)`, not the printed wording. The refund confirmation is the one printed text the model renders, by `Router.ConfirmationText`.
- Character classes are ASCII only. Python's `\d`, `\b`, `lower()`, `capitalize()` and `re.I` also treat non-ASCII letters and digits; the model does not. Python's `strip()`, `split()` and `\s` also treat non-ASCII white space (such as U+00A0 and U+0085) as white space; the model does not.
- The two reason tables are constants, not attributes that `parse_input` re-assigns on each call. The values are the same each time.
- Router.Run: the model reads a finite list of lines and returns normally when the lines run out. In the source the loop ends only on `quit`: at end of input, `input()` raises `EOFError` and the program stops with a traceback.
