# Verified models of the connector algorithms

This project models, in Dafny, the algorithms and step protocols of the connector repository whose correctness is not obvious
from one function body, and proves what they promise. Each module follows one source file. Code that works by changing things
step by step is an imperative method, proved against a specification function or predicate; what the specification promises is
then proved as lemmas. Everything that leaves the process is an arbitrary answer: a remote system is a class whose methods may
return any reply its `Serves…` predicate allows.

`dafny verify dfyconfig.toml` checks the whole project.

| modules | what they model |
|---|---|
| `Journal`, `Pairing`, `AcceptedPairing`, `MoneyForward` | journal validation on int64 amounts, branch pairing, and the payload made from it |
| `PdfText`, `PdfContent`, `PdfFile`, `PdfDocument`, `PdfBounds` | the PDF writer byte by byte, a reader that starts from the end of the file and follows its references, and how large a document may be |
| `FeishuService`, `FeishuCalendar`, `FeishuConversation`, `FeishuSaga`, `FeishuRuns` | the meeting saga with compensation: the service, one call, what its conversation shows, what it leaves behind, and whole runs |
| `OAuthRefresh`, `GoogleCalendar`, `GoogleSessions` | token refresh and resend, one call and sequences of calls |
| `Utf8`, `MailText` | UTF-8 cleaning and clipping |
| `Base64Url`, `MailCursor` | the opaque mail cursor |
| `SqlKeywords`, `SqlPolicy`, `SqlQuoting`, `SqlCasing` | the read-only SQL check and its two hand-written copies |
| `HolidaysCache`, `HolidaysProvider`, `HolidaysInterleaved` | the TTL cache: interleaved callers on values, one caller on the heap, and both together |
| `ConfigDefaults`, `ConfigValidation` | configuration defaults with dependencies, and the validation on top of them |
| `HtmlText` | the HTML text extractor over tokens |
| `GoStrings`, `ConnectorErrors`, `Bytes` | what the others share |

## What the proofs found

The code is modelled as it is. Where a promise holds only under a condition, a lemma gives the condition and another shows the
failure.

- A mail cursor comes back under its own scope exactly when the scope is valid UTF-8: JSON replaces invalid bytes, so a cursor
  made for such a scope is rejected for it and accepted for another (`MailCursor.CursorRoundTrip`,
  `MailCursor.InvalidScopeDoesNotRoundTrip`). `Scope` always produces hexadecimal digits, for which the round trip holds.
- A PDF document can be read back exactly when its content stream has at most 9,999,999,573 bytes, and the length of that stream
  is a sum the caller can work out from the lines (`PdfBounds.ReadableExactly`); beyond that `%010d` outgrows the 20-byte entry
  of the cross-reference table, as for one line of 2.5 thousand million letters (`PdfBounds.LongLineIsNotReadable`). With the
  limit `render` puts on its content, and up to 1,200,000,000 runes in the other texts, on which it puts none, every document
  reads back (`PdfBounds.RenderedReadsBack`); without such a limit it need not (`PdfBounds.LongTitleIsNotReadable`).
- Two booking references share an idempotency key exactly when they are equal after trimming or one is the SHA-256 of the other; for
  all others the bookings keep apart (`FeishuCalendar.KeysAgreeExactly`, `FeishuSaga.BookingsAreApart`).
- A Money Forward remark made of the creditor's description alone starts with the separator, since the empty description of the
  debtor is joined to it (`MoneyForward.RemarkIs`).
- The meeting saga keeps its promise on any service that meets the assumptions below. But on one that de-duplicates by
  idempotency key and answers with the event it first created, a rollback cannot be retried: after Retryable results for a new
  key the next call can succeed exactly when none of them carries the code `meeting_creation_rolled_back`, although that result
  is `Retryable` too (`FeishuRuns.RetryCanSucceedExactly`, both sides shown by `FeishuRuns.ConcreteRetries`), and after a rollback
  no later call succeeds at all (`FeishuRuns.RetryAfterRollbackFails`). On such a service a well formed request delivered again can
  even delete the meeting it booked: a call can lose a live event exactly when it is well formed and the event is the one its key
  is replayed with (`FeishuRuns.LossIsPossibleExactly`, `FeishuRuns.ConcreteRedelivery`), and it does so only by a rollback or in
  an Uncertain result (`FeishuRuns.LostOnlyByRollback`).
- With unique field keys, one defaulting pass is idempotent on every configuration exactly when no field is overtaken by a later
  one, that is, when no later field fills in what an earlier one with a default waits for; the same condition decides whether one
  pass always gives the closure (`ConfigDefaults.IdempotentExactly`, `ConfigDefaults.ClosedExactly`). It can be read off the field
  list, and dependency order is sufficient. As many passes as there are fields always suffice.
- Validation runs one pass of its own. For a list of fields with unique keys there are checks and a configuration that it rejects
  as supplied and accepts with the defaults filled in exactly when an overtaken field has a default that is not empty
  (`ConfigValidation.CuredExactly`). The other way round, acceptance is not lost as long as every default passes the checks of its
  own field (`ConfigValidation.AcceptanceIsKept`); a default that fails them can be found out late
  (`ConfigValidation.BadDefaultIsRejectedLate`).
- With unique field keys a pass also keeps `required_with` constraints satisfied. For duplicate keys, which
  `validateConnectorFields` refuses, only a failing input is given and no exact condition
  (`ConfigDefaults.DuplicateKeysBreakSatisfied`).
- `Validate` rewrites the caller's lines up to and including the one it stops at even when it rejects the entry
  (`Journal.Rejection`).

## Assumptions about remote systems

- Feishu applies nothing when it answers 429, a status outside 2xx other than 408 and 5xx, or a nonzero provider code; it applies a
  request it answers with success; and anything else leaves open which. Event identities are never reused. During a run nobody
  else changes the calendar. `dedup` says whether the service answers a repeated idempotency key with the event it first created.
- The Google Calendar API applies nothing on 401, 429 and the other statuses outside 2xx below 500 except 408; it applies a write
  exactly once on 2xx, and at most once otherwise. The token endpoint may rotate the refresh token with any reply; a rotation in a
  reply that does not arrive or is not usable is recorded as lost.

## Model

| member | source | states |
|---|---|---|
| Journal.Validate | internal/accounting/journal/journal.go:40-92 | accepts exactly the entries whose normal form has valid header fields, 2 to 100 well formed lines, and equal positive exact sums within int64; says which error is reported and how far the caller's slice was rewritten |
| Journal.ScanLines | internal/accounting/journal/journal.go:62-91 | the line loop: stops at the first line that is malformed or overflows its side, leaving the slice normalised up to there; otherwise balanced or `unbalanced` |
| Journal.Accumulate | internal/accounting/journal/journal.go:73-87 | one line's checks; a side is only added to when the exact sum fits int64 |
| Journal.AcceptableFits | internal/accounting/journal/journal.go:76-87 | no prefix sum of an acceptable entry exceeds int64, so the running sums never reject one |
| Journal.RejectionIsRight | internal/accounting/journal/journal.go:47-91 | whatever is rejected is not acceptable |
| Journal.SomeSidePositive | internal/accounting/journal/journal.go:88-90 | the zero checks of the balance test only ever add to the inequality test |
| Journal.NormalFormIsFixed | internal/accounting/journal/journal.go:42-72 | normalising twice is normalising once, for any trimming and case rules obeying the stated laws |
| Journal.ValidateAgain | internal/accounting/journal/journal.go:40-92 | validating an accepted result again returns it unchanged and writes nothing new |
| Journal.GoRulesAreLawful | internal/accounting/journal/journal.go:42-46 | trimming Unicode white space and rune-wise case mapping obey those laws |
| Journal.DateIsFormatted | internal/accounting/journal/journal.go:53-55 | a transaction date is valid exactly when it is some day of the calendar, leap years included, formatted as 2006-01-02 |
| Journal.MonthsAre | internal/accounting/journal/journal.go:53-55 | the lengths of the months, February by the rule of centuries, with four years that show it |
| Journal.FaultsInOrder | internal/accounting/journal/journal.go:47-61 | of the five header checks the first that fails is the one reported |
| Journal.AcceptableIs | internal/accounting/journal/journal.go:47-91 | what an acceptable entry is, spelled out; that its total is positive follows |
| Journal.NormalLineIs | internal/accounting/journal/journal.go:65-72 | every text of a line loses the white space around it and nothing else, the side is mapped rune by rune as well, and the amount stays |
| Journal.NormalHeaderIs | internal/accounting/journal/journal.go:42-46 | the same for the header, with the currency in upper case |
| GoStrings.TrimSpaceIs | internal/accounting/journal/journal.go:42-46 | trimming leaves the text between the white space at both ends |
| GoStrings.IsSpaceIs | internal/accounting/journal/journal.go:42-46 | which code points are white space |
| GoStrings.TrimIsUnique | internal/accounting/journal/journal.go:42-46 | there is only one such text |
| Pairing.PairBranches | internal/accounting/journal/journal.go:94-115 | on copies, in place, with wrap-around subtraction: returns the branches of the two-cursor walk, which for positive amounts are the overlay of the entry's lines, and leaves the entry alone |
| Pairing.MatchOne | internal/accounting/journal/journal.go:98-106 | one round: the lesser amount becomes the branch and is taken off both current lines and nothing else |
| Pairing.SplitSides | internal/accounting/journal/journal.go:117-127 | fresh copies of the debits and of everything else, each the lines at increasing positions that hit exactly that side |
| Pairing.SideIsSelection | internal/accounting/journal/journal.go:117-127 | each side is the lines at strictly increasing positions that hit exactly its lines, and its prefix sums are the sums of the entry before those positions |
| Pairing.WalkIsOverlay | internal/accounting/journal/journal.go:94-127 | on the lines of any entry of positive amounts: a branch for debit line i and credit line j exists exactly when max(debits before i, credits before j) < min(debits up to i, credits up to j), moves that difference, carries those two lines with the amount replaced, and comes in increasing order of both |
| Pairing.OverlayIsUnique | internal/accounting/journal/journal.go:94-127 | an entry has only one overlay |
| Pairing.ConcretePairing | internal/accounting/journal/journal.go:94-127 | debits of 100 and 50 against credits of 120 and 30, interleaved: 100 and 20 to the first credit, 30 to the second |
| Pairing.MinusWraps | internal/accounting/journal/journal.go:104-105 | the subtraction is that of int64, modulo 2^64 |
| Pairing.PairingIsOverlay | internal/accounting/journal/journal.go:94-115 | a branch for debit x and credit y exists exactly when their intervals overlap, is unique, and moves the length of the overlap; branches touch end to end and come in increasing order of both indices |
| Pairing.WalkCells | internal/accounting/journal/journal.go:97-113 | from any state of the loop the remaining branches are overlaps, in order, starting where the state stands |
| Pairing.WalkCovers | internal/accounting/journal/journal.go:97-113 | from any state every overlap that ends later is still met |
| Pairing.WalkEnds | internal/accounting/journal/journal.go:97-113 | the run ends at the end of both sides when they are equally long and of the shorter one otherwise |
| Pairing.BranchCount | internal/accounting/journal/journal.go:96-113 | as many branches as distinct prefix sums, at most one less than lines, and both cursors run out together |
| Pairing.WalkConserves | internal/accounting/journal/journal.go:97-113 | for any selection of lines, its branches move exactly what is unmatched on it |
| AcceptedPairing.AcceptedSides | internal/accounting/journal/journal.go:62-127 | the two sides of an accepted entry are positive and have equal positive totals |
| AcceptedPairing.AcceptedIsOverlaid | internal/accounting/journal/journal.go:40-127 | the branches of an accepted entry are the overlay of its sides, fewer than its lines, leave nothing over, and keep every field but the amount, which is equal and positive on both sides |
| AcceptedPairing.AcceptedIsOverlay | internal/accounting/journal/journal.go:40-127 | the branches of an accepted entry are the one overlay of its own lines |
| AcceptedPairing.LineIsConserved | internal/accounting/journal/journal.go:94-127 | the amounts of one line's branches sum to its amount |
| MoneyForward.MoneyForwardLine | providers/accounting/money_forward/provider.go:146-153 | posts amount, account and tax always, the four optional fields exactly when not blank, and nothing else |
| MoneyForward.PostingLosesNothing | providers/accounting/money_forward/provider.go:146-153 | a normalised line is recovered from what is posted for it |
| MoneyForward.PostBranches | providers/accounting/money_forward/provider.go:118-132 | each branch posts its two lines and a remark from both descriptions or the memo |
| MoneyForward.PayloadIsConserved | providers/accounting/money_forward/provider.go:113-154 | per account and side, whatever is posted for an accepted entry's branches totals what its lines say |
| MoneyForward.TotalsAdd | providers/accounting/money_forward/provider.go:118-132 | what the two account totals are: each branch adds its posted value, each line its amount, to its own account and side |
| MoneyForward.RemarkIs | providers/accounting/money_forward/provider.go:121-130 | the remark for each combination of descriptions and memo; a description on the creditor only keeps the slash in front |
| MoneyForward.CreateJournalEntry | providers/accounting/money_forward/provider.go:113-133 | from the input to the payload: made exactly for acceptable entries, posting the overlay of the entry's own lines, with account totals equal to the entry's |
| PdfText.Utf16RoundTrip | providers/document_generation/pdf/renderer.go:45-46 | decoding the UTF-16 units gives back every string, surrogate pairs included |
| PdfText.PdfHex | providers/document_generation/pdf/renderer.go:45-54 | builds the hexadecimal string with its byte order mark |
| PdfText.HexStringRoundTrip | providers/document_generation/pdf/renderer.go:45-54 | reading a written hexadecimal string gives the text and exactly what follows it |
| PdfText.ConcreteLetter | providers/document_generation/pdf/renderer.go:45-54 | the letter A as it is written |
| PdfText.ConcretePair | providers/document_generation/pdf/renderer.go:46 | U+1F600 as its surrogate pair |
| PdfContent.ContentRoundTrip | providers/document_generation/pdf/renderer.go:14-28 | parsing the content stream gives back the lines in order and the watermark |
| PdfFile.OffsetsRoundTrip | providers/document_generation/pdf/renderer.go:30-43 | from `startxref` at the end of the file the reader gets exactly the recorded offsets and the number of the root if all are below 10^10 and nothing otherwise |
| PdfFile.ReadOwnEntry | providers/document_generation/pdf/renderer.go:39-41 | a table entry is 20 bytes and reads back exactly while its offset is below 10^10 |
| PdfFile.EntryIsInUse | providers/document_generation/pdf/renderer.go:39-41 | a written entry is ten digits, a space, five digits, a space, `n` and a two-byte end of line exactly while its offset is below 10^10, and what its bytes are |
| PdfFile.FreeEntryIsSound | providers/document_generation/pdf/renderer.go:38 | the first entry of the table is a free one of that form |
| PdfFile.ObjectRoundTrip | providers/document_generation/pdf/renderer.go:32-36 | the recorded offset of object k points at "k 0 obj", the object and "endobj" |
| PdfFile.LastOffsetDecides | providers/document_generation/pdf/renderer.go:32-36 | offsets grow, so the last one decides |
| PdfDocument.StreamRoundTrip | providers/document_generation/pdf/renderer.go:29 | `/Length` counts exactly the bytes between `stream` and `endstream` |
| PdfDocument.DictionariesAreSpelledOut | providers/document_generation/pdf/renderer.go:29 | the three dictionaries, put together from their references, are the texts of the source |
| PdfDocument.FontsAreSpelledOut | providers/document_generation/pdf/renderer.go:29 | so are the two font dictionaries |
| PdfDocument.KeywordsAgree | providers/document_generation/pdf/renderer.go:31-42 | the writer spells the keywords of the file structure as the reader expects them |
| PdfDocument.OperatorsAgree | providers/document_generation/pdf/renderer.go:15-28 | and the text operators |
| PdfDocument.ReferenceRoundTrip | providers/document_generation/pdf/renderer.go:29 | the reference in a written dictionary is read back |
| PdfDocument.FindOwnContents | providers/document_generation/pdf/renderer.go:29-42 | from /Root through /Pages and /Kids to /Contents the reader arrives at the object with the stream |
| PdfDocument.DocumentRoundTrip | providers/document_generation/pdf/renderer.go:10-44 | a reader with its own spellings that starts at the end of a file that begins with `%PDF-` and follows /Root, /Pages, /Kids and /Contents recovers lines and watermark of every document with a line exactly when its last object starts below 10^10 |
| PdfDocument.RenderContent | providers/document_generation/pdf/renderer.go:14-28 | the stream builder writes the specified content |
| PdfDocument.RenderLines | providers/document_generation/pdf/renderer.go:21-27 | the loop over the lines appends their text, a line break before each but the first |
| PdfDocument.RenderBody | providers/document_generation/pdf/renderer.go:30-36 | appends the objects and fills the offsets array with where each starts |
| PdfDocument.RenderTable | providers/document_generation/pdf/renderer.go:37-41 | writes the cross-reference section for the recorded offsets |
| PdfDocument.RenderFile | providers/document_generation/pdf/renderer.go:30-43 | objects, table and trailer in one buffer, `startxref` being where the table starts |
| PdfDocument.RenderDocument | providers/document_generation/pdf/renderer.go:10-44 | nothing for no lines; otherwise a document that reads back |
| PdfBounds.LastOffsetIs | providers/document_generation/pdf/renderer.go:14-36 | where the last object starts, as a sum over the number of lines and the UTF-16 lengths |
| PdfBounds.ReadableExactly | providers/document_generation/pdf/renderer.go:10-44 | a document reads back exactly when its stream, whose length is that sum, has at most 9,999,999,573 bytes |
| PdfBounds.LongLineIsNotReadable | providers/document_generation/pdf/renderer.go:39-41 | a line past the bound, whose document cannot be read |
| PdfBounds.RenderedReadsBack | providers/document_generation/pdf/provider.go:101-117 | every document made of content within `maximumContentLimit` reads back, with up to 1,200,000,000 runes in header, title, footer and watermark together |
| PdfBounds.DocumentLinesAre | providers/document_generation/pdf/provider.go:108-116 | the lines are the header unless empty, the title, parts without line feed that join to the content, and the footer unless empty |
| GoStrings.ReplaceCrLfIs | providers/document_generation/pdf/provider.go:113 | the replacement takes parts joined by carriage return and line feed, none of them containing such a pair, to the same parts joined by line feeds |
| PdfBounds.LongTitleIsNotReadable | providers/document_generation/pdf/provider.go:101-117 | with a title of 2.5 thousand million letters, which `render` accepts, it does not |
| FeishuCalendar.Execute | providers/appointment_scheduling/feishu_calendar/provider.go:257-315 | one exchange under the token, or none when the endpoint is invalid, and the result its reply calls for |
| FeishuCalendar.ClassificationIsExact | providers/appointment_scheduling/feishu_calendar/provider.go:281-314 | for a write, success means applied, Permanent or Retryable means rejected, everything else is Uncertain; a read is never Uncertain, and Retryable exactly on no reply, 408, 429 and server failures |
| FeishuCalendar.NormalizeAttendees | providers/appointment_scheduling/feishu_calendar/provider.go:328-345 | all attendees in order, an address before a user identity, or the error for none or an unaddressable one |
| FeishuCalendar.NormalizedIs | providers/appointment_scheduling/feishu_calendar/provider.go:332-344 | an attendee is invited by the trimmed address unless that is blank, else by the trimmed identity, and refused when both are blank |
| FeishuCalendar.RangeFault | providers/appointment_scheduling/feishu_calendar/provider.go:317-327 | no fault exactly when both times parse and the start is before the end |
| FeishuCalendar.KeyHasItsLength | providers/appointment_scheduling/feishu_calendar/provider.go:346-353 | an idempotency key is always 32 to 128 bytes long and a fixed point, whatever the request reference |
| FeishuCalendar.IdempotencyKeyIs | providers/appointment_scheduling/feishu_calendar/provider.go:346-353 | the key is the trimmed reference if that has 32 to 128 bytes and its digest otherwise |
| FeishuCalendar.KeysAgreeExactly | providers/appointment_scheduling/feishu_calendar/provider.go:346-353 | when the digest does not collide on them, two references share a key exactly when their trimmed forms are equal or one is the digest of the other, which is not a key itself |
| FeishuCalendar.DetailsDescribe | providers/appointment_scheduling/feishu_calendar/provider.go:177-182 | the details sent: texts trimmed, start and end in whole seconds each in its place, and the default zone exactly when none is named |
| FeishuCalendar.BookingFaultIs | providers/appointment_scheduling/feishu_calendar/provider.go:156-168 | nothing is wrong exactly with a booking that has an ordered range, addressable attendees and a reference |
| FeishuCalendar.TokenClassificationIsExact | internal/feishu/tenant_token.go:46-73 | a token reply is a success exactly when it is a usable 2xx with code 0 and a token, Retryable exactly on no reply, 429 and server failures, and otherwise Permanent |
| FeishuCalendar.AccessToken | providers/appointment_scheduling/feishu_calendar/provider.go:218-231 | the stored token without a request, else the errors in order, else one token request and its result |
| FeishuCalendar.CalendarId | providers/appointment_scheduling/feishu_calendar/provider.go:232-255 | the configured calendar, else the first writable one of the reply, else the error |
| FeishuSaga.CalendarKeepsState | providers/appointment_scheduling/feishu_calendar/provider.go:232-255 | finding the calendar changes nothing on the service |
| FeishuCalendar.FirstWritable | providers/appointment_scheduling/feishu_calendar/provider.go:241-253 | the first calendar that is not deleted, whose role is owner or writer in any letter case, and that has an identity |
| FeishuCalendar.CalendarsAre | providers/appointment_scheduling/feishu_calendar/provider.go:245-252 | which calendars count as writable |
| FeishuCalendar.CompensatedError | providers/appointment_scheduling/feishu_calendar/provider.go:207-216 | one delete; only a confirmed one lets the cause through, as Retryable or Permanent with the rollback code |
| FeishuCalendar.CompleteMeeting | providers/appointment_scheduling/feishu_calendar/provider.go:192-205 | invite, read back, and delete after any failure: the exchanges in order and the result that follows from their replies |
| FeishuCalendar.CreateEventAndComplete | providers/appointment_scheduling/feishu_calendar/provider.go:183-205 | the same from the creation on |
| FeishuCalendar.BookMeeting | providers/appointment_scheduling/feishu_calendar/provider.go:172-205 | the same from the choice of the calendar on |
| FeishuCalendar.CreateMeeting | providers/appointment_scheduling/feishu_calendar/provider.go:156-206 | one call: its whole conversation, request by request, with the event details it sends, and the result that follows from the replies |
| FeishuConversation.SuccessIsExact | providers/appointment_scheduling/feishu_calendar/provider.go:156-216 | a call takes at most six exchanges and succeeds exactly when input, credentials, endpoint and every reply are in order; a failure after the creation ends by deleting the created event |
| FeishuConversation.RequestsAreForBooking | providers/appointment_scheduling/feishu_calendar/provider.go:156-196 | in any call the key of the event created is that of the reference, and its details and attendees are those of the booking |
| FeishuSaga.ConversationIsSaga | providers/appointment_scheduling/feishu_calendar/provider.go:156-216 | what any conversation leaves behind: success exactly one event more, invited and readable as reported; a rollback none; any other Permanent or Retryable failure nothing changed at all; Uncertain at most one event more; and for a replayed key only that event touched |
| FeishuSaga.CompletionIsSaga | providers/appointment_scheduling/feishu_calendar/provider.go:192-216 | the same from the created event on, invitation and compensation included |
| FeishuSaga.OthersUntouched | providers/appointment_scheduling/feishu_calendar/provider.go:156-216 | a call leaves every event made for another key as it was and adds none |
| FeishuSaga.BookingsAreApart | providers/appointment_scheduling/feishu_calendar/provider.go:156-216 | two bookings whose references do not share a key: once the first is booked, no call for the second touches its event, answers with it, or creates one under its key |
| FeishuRuns.RetriesLeave | providers/appointment_scheduling/feishu_calendar/provider.go:156-216 | however many Retryable results come before, the next attempt starts from the original state, or from the calendar without the request's own event if one was rolled back |
| FeishuRuns.RunIsSafe | providers/appointment_scheduling/feishu_calendar/provider.go:156-216 | over any number of host retries, for a new key: exactly one event more after success, none after Permanent or Retryable, at most one after Uncertain; for a replayed key: the event stands after success and is otherwise untouched unless a call was rolled back or Uncertain |
| FeishuRuns.LostOnlyByRollback | providers/appointment_scheduling/feishu_calendar/provider.go:192-216 | an event that was live before a run and is not after it was the request's own, and a call was rolled back or the last one Uncertain |
| FeishuRuns.LossIsPossibleExactly | providers/appointment_scheduling/feishu_calendar/provider.go:156-216 | a call can lose a live event exactly when it is well formed and its key is replayed with that event |
| FeishuRuns.RedeliveryCanDelete | providers/appointment_scheduling/feishu_calendar/provider.go:156-216 | every well formed request with a new key can be booked and, delivered again, delete its meeting on a service that de-duplicates |
| FeishuRuns.ConcreteRedelivery | providers/appointment_scheduling/feishu_calendar/provider.go:156-216 | this for one concrete request on an empty calendar |
| FeishuRuns.RetryAfterRollbackFails | providers/appointment_scheduling/feishu_calendar/provider.go:207-216 | on a service that de-duplicates, every call for the request after one reported as rolled back fails and changes nothing |
| FeishuRuns.SuccessIsPossibleExactly | providers/appointment_scheduling/feishu_calendar/provider.go:156-206 | a well formed call can succeed exactly when its key is not replayed, or the replayed event is live and has a meeting address |
| FeishuRuns.RetryCanSucceedExactly | providers/appointment_scheduling/feishu_calendar/provider.go:156-216 | after Retryable results for a new key the next call can succeed exactly when the service does not de-duplicate or none of them was rolled back |
| FeishuRuns.BothKindsOfRetryHappen | providers/appointment_scheduling/feishu_calendar/provider.go:156-216 | for every well formed request with a new key: a Retryable rollback after which it cannot succeed, and a Retryable refusal after which it can |
| FeishuRuns.ConcreteRetries | providers/appointment_scheduling/feishu_calendar/provider.go:156-216 | both, for one concrete request on an empty calendar |
| FeishuRuns.HostRetries | providers/appointment_scheduling/feishu_calendar/provider.go:156-216 | the retry loop of a host against the service: the results of all attempts, repeated exactly after Retryable ones, and the outcome of `RunIsSafe` with the rollbacks their codes report |
| OAuthRefresh.Refresh | internal/oauth2/refresh.go:46-95 | no request when the configuration is at fault, else exactly one, to the endpoint, with the headers, the grant, the scope if any, the refresh token and one form of client authentication; the result follows from its reply |
| OAuthRefresh.BuildCall | internal/oauth2/refresh.go:57-76 | endpoint, headers and grant; client identity in the secret form, with its secret unless empty, or as basic credentials, never both |
| OAuthRefresh.RequestFaultIs | internal/oauth2/refresh.go:102-117 | a request is made exactly for a valid endpoint, a refresh token, a client identity and what the client authentication needs |
| OAuthRefresh.UsableIs | internal/oauth2/refresh.go:78-94 | a usable reply is a 2xx in JSON whose access token is not blank, and both tokens are trimmed |
| OAuthRefresh.TokenClassificationIsExact | internal/oauth2/refresh.go:78-94 | a refresh succeeds exactly on a usable reply, is Retryable exactly on no reply, 429 and server failures, and otherwise Permanent |
| GoogleCalendar.Execute | providers/appointment_scheduling/google_calendar/provider.go:307-364 | one request with the token, or none when the endpoint is invalid |
| GoogleCalendar.ClassificationIsExact | providers/appointment_scheduling/google_calendar/provider.go:327-363 | a write is Ok only on a usable 2xx and Permanent or Retryable exactly when nothing was applied; a read is never Uncertain |
| GoogleCalendar.Resend | providers/appointment_scheduling/google_calendar/provider.go:296-305 | one refresh, and the request once more with the delivered token |
| GoogleCalendar.ExecuteWithRefresh | providers/appointment_scheduling/google_calendar/provider.go:282-306 | reply by reply what is sent, from which stored secrets, returned and to be stored: a refresh exactly after a 401 with credentials at hand; at most two API requests and one token request; a write takes effect at most once and not at all on Permanent or Retryable |
| GoogleCalendar.ConversationRefreshes | providers/appointment_scheduling/google_calendar/provider.go:282-306 | in terms of what is stored: a token request goes to the trimmed token endpoint, with the trimmed refresh token, client identity, and client secret exactly when one is stored, and with no scope or basic credentials |
| GoogleCalendar.SecretIs | providers/appointment_scheduling/google_calendar/provider.go:283-296 | a secret is used trimmed, and a blank one counts as missing |
| GoogleCalendar.SuccessIsExact | providers/appointment_scheduling/google_calendar/provider.go:282-306 | a call succeeds exactly when its last reply is a success, and returns updates exactly when it sent the request twice |
| GoogleSessions.StoredByCall | providers/appointment_scheduling/google_calendar/provider.go:300-305 | storing the updates of a call stores the token delivered during it, keeps the old refresh token when none came, and touches no other secret |
| GoogleSessions.StoredTokensAreLatest | providers/appointment_scheduling/google_calendar/provider.go:192-305 | over any sequence of calls the stored access token is the last one delivered and the stored refresh token the last nonempty one |
| GoogleSessions.RefreshTokenStaysCurrent | providers/appointment_scheduling/google_calendar/provider.go:282-306 | as long as no rotation is lost, the stored refresh token is the one the endpoint accepts, before and after every call, and every token request carries it |
| GoogleSessions.EffectsAreAccounted | providers/appointment_scheduling/google_calendar/provider.go:282-364 | over a sequence of calls the writes applied are the successful ones and at most one per Uncertain one |
| GoogleSessions.RetriedWriteTakesEffectOnce | providers/appointment_scheduling/google_calendar/provider.go:282-364 | a write repeated only after Retryable results is applied at most once, and once if it ends well |
| GoogleSessions.HostSession | providers/appointment_scheduling/google_calendar/provider.go:192-306 | a host that makes any sequence of calls and stores their updates ends up with the latest tokens; the writes applied are those reported as done and at most one for each reported as uncertain |
| GoogleSessions.HostRetries | providers/appointment_scheduling/google_calendar/provider.go:282-364 | a host that repeats a write after Retryable results has it applied at most once, and once if it ends well |
| Utf8.EncodeIsValid | internal/mailcontent/text.go:22-23 | encoded strings are valid UTF-8 and decode to themselves |
| Utf8.ValidIsEncoded | internal/mailcontent/text.go:22 | every valid byte string is the encoding of what it decodes to |
| Utf8.ValidPrefix | internal/mailcontent/text.go:38-42 | a valid prefix of an encoded string ends between two runes |
| Utf8.BoundaryNearby | internal/mailcontent/text.go:40-42 | at most three bytes back there is a rune boundary |
| Utf8.ConcreteRunes | internal/mailcontent/text.go:22 | one rune of each length |
| MailText.Text | internal/mailcontent/text.go:21-46 | the longest valid prefix of the cleaned text within max bytes; `changed` exactly when input was invalid, a control character was dropped or the text was clipped |
| MailText.MapControls | internal/mailcontent/text.go:25-37 | maps, keeps or drops each rune, and reports drops exactly |
| MailText.MappedIs | internal/mailcontent/text.go:25-37 | by code points, which runes stay, which become a space and which are dropped |
| MailText.MapAllIs | internal/mailcontent/text.go:25-37 | the kept runes, at increasing positions and none left out, each mapped |
| MailText.CleanedIs | internal/mailcontent/text.go:23-37 | the repaired text is taken apart at every carriage return and line feed, its parts are mapped, and they are joined by a line feed in multi-line text and a space in other text |
| MailText.ToValidIs | internal/mailcontent/text.go:23 | the repair cuts the bytes into well-formed sequences and maximal runs of invalid bytes, with one U+FFFD for each run |
| MailText.Clip | internal/mailcontent/text.go:38-44 | the clip loop ends within three rounds at the longest valid prefix |
| MailText.TextKeepsWholeRunes | internal/mailcontent/text.go:38-44 | the result is whole runes of the cleaned text, and one more would not fit |
| MailText.TextIsIdempotent | internal/mailcontent/text.go:21-46 | a second application with the same arguments changes nothing and says so |
| Base64Url.RoundTrip | internal/mailpaging/cursor.go:37 | decoding an unpadded base64url encoding gives back the bytes |
| Base64Url.EncodeShape | internal/mailpaging/cursor.go:37 | the encoding's exact length, and that it has no line breaks |
| Base64Url.ConcreteEncodings | internal/mailpaging/cursor.go:37 | one, two and three bytes as they are written |
| Base64Url.AlphabetIs | internal/mailpaging/cursor.go:37 | the alphabet |
| MailCursor.StringRoundTrip | internal/mailpaging/cursor.go:36 | the JSON decoder recovers every escaped string, invalid bytes replaced |
| MailCursor.EscapeRuneIs | internal/mailpaging/cursor.go:36 | which runes are escaped at all, and the escapes of some |
| MailCursor.SanitizedIsIdentity | internal/mailpaging/cursor.go:36 | that replacement changes exactly the strings that are not valid UTF-8 |
| MailCursor.JsonRoundTrip | internal/mailpaging/cursor.go:17-22 | the emitted record decodes to its four fields |
| MailCursor.EncodeLimit | internal/mailpaging/cursor.go:32-42 | encoding fails exactly on an invalid token, a negative count, or escaped JSON above 6144 bytes |
| MailCursor.FramesAgree | internal/mailpaging/cursor.go:17-22 | the record is written with the names the reader looks for |
| MailCursor.ValidTokenIs | internal/mailpaging/cursor.go:29-31 | a token is one to 4096 bytes of text without control characters |
| MailCursor.SpecialCursors | internal/mailpaging/cursor.go:43-51 | no cursor is the start of the listing, and one of more than 8192 bytes is refused |
| MailCursor.CursorBindsScope | internal/mailpaging/cursor.go:43-62 | a cursor is accepted under exactly one scope and carries version 1 and its token and count |
| MailCursor.CursorRoundTrip | internal/mailpaging/cursor.go:32-62 | it decodes under its own scope, and under no other, exactly when the scope is valid UTF-8 |
| MailCursor.DigestScopeRoundTrips | internal/mailpaging/cursor.go:24-28 | so it does under every hexadecimal scope |
| MailCursor.InvalidScopeDoesNotRoundTrip | internal/mailpaging/cursor.go:32-62 | a concrete scope for which it does not |
| SqlKeywords.Keywords | internal/databasesql/policy.go:60-90 | the scanner loop computes the fold it is specified by |
| SqlKeywords.KeywordsAreRuns | internal/databasesql/policy.go:60-90 | the keywords are exactly the maximal runs of letters and underscores outside quoted regions, lower-cased and in order |
| SqlKeywords.RunsAreUnique | internal/databasesql/policy.go:60-90 | there is only one list of such runs |
| GoStrings.MapRunes | internal/databasesql/policy.go:66 | every rune is mapped, in its place |
| SqlCasing.KeywordsAreLower | internal/databasesql/policy.go:64-69 | every keyword is its own lower-case form |
| SqlKeywords.KeywordsDistribute | internal/databasesql/policy.go:60-90 | keywords of a concatenation are those of the parts when no quote is open and a separator stands at the seam |
| SqlKeywords.QuotedRegionIsSkipped | internal/databasesql/policy.go:71-81 | a closed quoted region contributes no keyword and leaves no quote open |
| SqlPolicy.ContainsAny | internal/databasesql/policy.go:91-98 | some nonempty fragment occurs |
| SqlPolicy.Member | internal/databasesql/policy.go:99-106 | true exactly when the value is listed |
| SqlPolicy.ContainsSequence | internal/databasesql/policy.go:107-124 | the nonempty sequence stands somewhere in the words without gaps |
| SqlPolicy.JudgeWords | internal/databasesql/policy.go:41-58 | first word, then the first matching rule, then denied words |
| SqlPolicy.ValidateReadOnly | internal/databasesql/policy.go:31-59 | returns the specified code for every query and policy |
| SqlPolicy.VerdictIsUnique | internal/databasesql/policy.go:31-59 | the specification allows one code per query, so validators that meet it agree |
| SqlPolicy.SqlWords | internal/googlebigquery/provider.go:352-382 | the copied scanner computes the same keywords as the shared one with the three symmetric quotes |
| SqlPolicy.BigQueryValidate | internal/googlebigquery/provider.go:331-351 | the BigQuery copy meets the shared specification under its policy |
| SqlPolicy.SnowflakeValidate | internal/snowflakesql/provider.go:355-407 | so does the Snowflake copy |
| SqlQuoting.QuotedBodyIsIrrelevant | internal/databasesql/policy.go:31-90 | replacing the body of a closed quoted region by another harmless one leaves the code unchanged |
| SqlQuoting.AcceptedIsReadOnly | internal/databasesql/policy.go:31-59 | a query is accepted exactly when it is one safe statement that starts with an allowed keyword, has no denied one and no rule's sequence |
| SqlCasing.AcceptedOnText | internal/databasesql/policy.go:31-90 | the same on the text of the query: its first run of letters spells an allowed keyword in some casing, none spells a denied one, and no stretch of runs a rule |
| SqlCasing.DeniedInAnyCasing | internal/databasesql/policy.go:50-58 | a denied word in any casing outside quotes is never let through |
| SqlCasing.FirstInAnyCasing | internal/databasesql/policy.go:41-44 | a query is refused for its first keyword exactly when it has none or it spells no allowed one in any casing |
| SqlCasing.LettersAreOneWord | internal/databasesql/policy.go:83-88 | letters and underscores outside quotes make one keyword |
| SqlCasing.OthersAreNoWord | internal/databasesql/policy.go:83-88 | a text without them has none |
| SqlCasing.ConcreteWrite | internal/googlebigquery/provider.go:331-382 | DELETE in capitals after `with` does not pass under the BigQuery policy |
| SqlCasing.ConcreteRead | internal/googlebigquery/provider.go:331-382 | SELECT in capitals does |
| SqlPolicy.UnsafeIs | internal/databasesql/policy.go:32-35 | what makes a text unsafe |
| HolidaysCache.RunIsSourced | providers/calendar/holidays_jp/provider.go:145-194 | in every interleaving all cached entries, entries in hand and recorded hits stem from a response for their key |
| HolidaysCache.AcceptIsExact | providers/calendar/holidays_jp/provider.go:160-187 | a response is accepted exactly when it is a decodable 2xx within the limit; Retryable exactly on no response, 429 and server failures |
| HolidaysCache.HitsAgreeWithSource | providers/calendar/holidays_jp/provider.go:152-159 | every hit returns values, version and time of one earlier response for its key, before the entry's expiry |
| HolidaysCache.OnlyStoresChangeTheCache | providers/calendar/holidays_jp/provider.go:160-193 | failed responses and a non-positive time to live never change the cache; a store changes one key |
| HolidaysCache.HitsAreFresh | providers/calendar/holidays_jp/provider.go:152-192 | at any moment every entry, in the cache or in hand, expires within the largest time to live in use, and so did every hit when it was answered |
| HolidaysCache.CallIsSteps | providers/calendar/holidays_jp/provider.go:145-194 | a call that nobody interrupts is a run of the interleaved machine: same hit, same cache afterwards |
| HolidaysCache.NextCallHits | providers/calendar/holidays_jp/provider.go:150-193 | what a call has stored is what the next one is answered with, exactly until its time to live has passed since the store |
| HolidaysProvider.CloneDataset | providers/calendar/holidays_jp/provider.go:245-251 | a new map with the same contents |
| HolidaysProvider.Provider.Lookup | providers/calendar/holidays_jp/provider.go:152-159 | a hit exactly on an unexpired entry, handed out as a fresh copy |
| HolidaysProvider.Provider.Store | providers/calendar/holidays_jp/provider.go:188-192 | keeps a fresh copy under the key and changes nothing else |
| HolidaysProvider.Provider.Live | providers/calendar/holidays_jp/provider.go:160-193 | judges the response, answers it with status `live`, keeps a copy under a positive time to live, and hands out a map the cache does not refer to |
| HolidaysProvider.Provider.Dataset | providers/calendar/holidays_jp/provider.go:145-194 | one whole call: its reply with values, version, time and status, and the new cache, are those of the machine in `HolidaysCache.CallIsSteps`; the returned map is never one the cache refers to |
| HolidaysProvider.WritesElsewhereAreHarmless | providers/calendar/holidays_jp/provider.go:157-190 | writing to any map the cache does not refer to leaves its contents as they were |
| HolidaysProvider.WritesTouchOneEntry | providers/calendar/holidays_jp/provider.go:188-192 | no two entries share a map: writing to one the cache refers to changes one entry only |
| HolidaysProvider.CallAndScribble | providers/calendar/holidays_jp/provider.go:145-194 | a caller that makes any sequence of calls and after each overwrites any of the maps it was given gets the replies, and leaves the cache, that it would without doing so |
| HolidaysInterleaved.Callers.TakeItem | providers/calendar/holidays_jp/provider.go:153-155 | under the lock the caller takes the item and a reference to its map |
| HolidaysInterleaved.Callers.CheckItem | providers/calendar/holidays_jp/provider.go:156-158 | after the lock an unexpired item is copied and the copy given out, even when the cache has another item by then |
| HolidaysInterleaved.Callers.StoreAndReturn | providers/calendar/holidays_jp/provider.go:188-193 | a copy is kept under the lock, and the original given out |
| HolidaysInterleaved.Interleave | providers/calendar/holidays_jp/provider.go:145-194 | any interleaving of callers, each step followed by any writes to the maps given out so far, gives the replies and the cache of the machine on values |
| ConfigDefaults.ApplyProviderConfigDefaults | catalog/connector_validation.go:284-311 | one pass over the fields of the first provider with the key |
| ConfigDefaults.IsReady | catalog/connector_validation.go:297-303 | every dependency has a value that is not empty |
| ConfigDefaults.FieldsOfIs | catalog/connector_validation.go:289-309 | only the first provider with the key counts, and an unknown key has no fields |
| ConfigDefaults.EmptyIs | catalog/connector_validation.go:460-475 | which values are empty |
| ConfigDefaults.PassExtends | catalog/connector_validation.go:284-311 | a pass keeps every supplied value and adds only defaults of absent fields |
| ConfigDefaults.PassKeepsSatisfied | catalog/connector_validation.go:317-323 | with unique keys it keeps every required_with constraint satisfied |
| ConfigDefaults.DuplicateKeysBreakSatisfied | catalog/connector_validation.go:293-307 | with duplicate keys it need not |
| ConfigDefaults.PassIsBelow | catalog/connector_validation.go:293-307 | it stays below every closed extension of the configuration |
| ConfigDefaults.StableIsFixed | catalog/connector_validation.go:293-307 | a pass changes nothing exactly when no field applies, and otherwise adds a key |
| ConfigDefaults.LeftOverIsOvertaken | catalog/connector_validation.go:293-307 | a field that still applies after a pass has been overtaken in it by a later one |
| ConfigDefaults.OvertakenIsLate | catalog/connector_validation.go:293-307 | for every overtaken field there is a configuration on which the first pass misses it and the second adds it |
| ConfigDefaults.FilledLate | catalog/connector_validation.go:293-307 | a key that only a second pass fills with a value betrays an overtaken field whose default is a value |
| ConfigDefaults.IdempotentExactly | catalog/connector_validation.go:284-311 | with unique keys a pass is idempotent on every configuration exactly when no field is overtaken by a later one |
| ConfigDefaults.ClosedExactly | catalog/connector_validation.go:284-311 | and one pass always closes the configuration under the same condition |
| ConfigDefaults.PassIsLeast | catalog/connector_validation.go:284-311 | and then gives the least closed extension |
| ConfigDefaults.OrderedPassIsLeast | catalog/connector_validation.go:284-311 | dependency order is one way to meet it |
| ConfigDefaults.UnorderedPassIsNotIdempotent | catalog/connector_validation.go:293-307 | a second pass can add more when fields are out of order |
| ConfigDefaults.RepeatStabilises | catalog/connector_validation.go:284-311 | in any order as many passes as fields reach a fixed point |
| ConfigDefaults.RepeatIsLeast | catalog/connector_validation.go:284-311 | with unique keys that is the least closed extension |
| ConfigValidation.ValidateProviderConfig | catalog/connector_validation.go:233-282 | the verdict on the configuration with its defaults: some unknown key, else the fault of the first faulty field, else accepted; accepted without a provider |
| ConfigValidation.ValidateFieldValue | catalog/connector_validation.go:313-361 | the first missing dependency of a value that is not empty, else the first rule it breaks |
| ConfigValidation.FieldFaultIs | catalog/connector_validation.go:267-280 | the fault of one field in the order of its checks, the missing dependency being the first one and only asked for when the value is not empty |
| ConfigValidation.FindUnknown | catalog/connector_validation.go:262-266 | finds an undeclared key if there is one, whatever the order of the map |
| ConfigValidation.DeclaredKeys | catalog/connector_validation.go:245-261 | a key is declared exactly when it is an extra one, the trimmed key of a field, or one a field is required with |
| ConfigValidation.AcceptedExactly | catalog/connector_validation.go:262-281 | accepted exactly when all keys are declared and every field is present if required, well typed, within its rules, and empty or complete with its dependencies |
| ConfigValidation.DefaultsKeepValid | catalog/connector_validation.go:233-361 | when the supplied fields are valid and the defaults good, filling in defaults leaves no fault but a required field with nothing to fill in |
| ConfigValidation.VerdictOfCompleted | catalog/connector_validation.go:233-311 | when no field is overtaken by a later one, validating a configuration already completed with defaults gives the same verdict, fault for fault |
| ConfigValidation.CuredExactly | catalog/connector_validation.go:233-311 | for fields with unique keys, completing some configuration first turns its rejection under some checks into an acceptance exactly when a field whose default is not empty is overtaken by a later one |
| ConfigValidation.CuredWhenOvertaken | catalog/connector_validation.go:267-271 | the checks and the configuration for each such pair: the overtaken field is the required one |
| ConfigValidation.AcceptanceIsKept | catalog/connector_validation.go:233-311 | completing it first never turns an acceptance into a rejection when every default passes the checks of its own field |
| ConfigValidation.UnorderedVerdictChanges | catalog/connector_validation.go:233-311 | the smallest case: rejected for a missing required field, and accepted when completed first |
| ConfigValidation.BadDefaultIsRejectedLate | catalog/connector_validation.go:233-311 | accepted, and rejected when completed first, for a default of the wrong type |
| HtmlText.HTMLText | internal/textcontent/html.go:13-69 | the token loop computes the machine it is specified by |
| HtmlText.RenderedIs | internal/textcontent/html.go:37-60 | which tags of HTML are ignored, break the line or end a cell |
| HtmlText.IgnoredWhileDeep | internal/textcontent/html.go:17-56 | a tag is being ignored exactly while the depth is positive |
| HtmlText.ElementLeavesNoTrace | internal/textcontent/html.go:27-56 | inserting a balanced ignored element where nothing is ignored leaves the result unchanged |
| HtmlText.UnclosedElementIsAnError | internal/textcontent/html.go:22-26 | a stream ending inside one is an error |
| HtmlText.ExtractIsVisible | internal/textcontent/html.go:13-69 | the result is the text of the tokens outside ignored elements, and an error exactly when one of them is never closed or the tokenizer fails |
| HtmlText.HtmlIsVisible | internal/textcontent/html.go:37-60 | so for the tags of the source |

## Left out

- SqlQuoting.QuotedBodyIsIrrelevant: asks that the delimiters are neither white space nor a closing `;`, because trimming and the stripping of one final `;` could remove them; the quotes of every policy in the repository qualify.
- Pairing.PairBranches: asks for at least one line, because the source requests a slice of negative capacity without one and panics; `Validate` never lets such an entry through.
- MailText.Text: takes a non-negative maximum; a negative one makes the source slice out of range.
- HtmlText.HTMLText: works on the tokenizer's tokens, so raw-text elements, entities and the buffer limit appear only as tokens or as a broken stream; the tag table is a parameter whose actual value is `HTML`, as in `HtmlIsVisible`.
- PdfDocument.DocumentRoundTrip: its reader takes the entries of a dictionary in the order the writer puts them and reads only the references it follows; it is not a parser for PDF in general.
- PdfBounds.RenderedReadsBack: header, title, footer and watermark are given as they are after trimming. The exact condition for any of them is that of `ReadableExactly`.
- MailCursor.JsonRoundTrip: decodes the record shape that `Encode` emits, with every string escape and numbers without leading zeros; other JSON that Go would also accept for a cursor is not read.
- OAuthRefresh.Refresh: the query escaping and base64 of basic credentials are left as the pair of credentials, and URL parsing of the endpoint as a flag.
- FeishuCalendar.CreateMeeting: the constant fields of request bodies and the response reference beside the result are not modelled. One calendar is modelled, its name being part of each request, and the body fields of replies are already trimmed.
- FeishuCalendar.Execute: the provider code is the integer the source's `intValue` extracts; how it treats other JSON types is not modelled. URLs, query strings and JSON encoding are not modelled, so the `request_invalid` errors cannot occur.
- FeishuCalendar.KeyHasItsLength: SHA-256 and the byte length of a string are uninterpreted functions; two request references with the same key are the same request to the service.
- FeishuCalendar.KeysAgreeExactly: asks that the digest, of 64 bytes, does not collide on the two references.
- GoogleCalendar.ExecuteWithRefresh: response bodies are reduced to whether they are valid JSON; the operations that build requests around it are not modelled, they pass the updates on unchanged.
- MoneyForward.CreateJournalEntry: ends at the payload; the HTTP exchange after it, the copying of the input into an entry, and the response's identity are not modelled.
- Journal.Validate: error texts are constructors, and strings are sequences of runes, so invalid UTF-8 in a field is outside the model.
- SqlKeywords.Keywords: which runes are letters and what their lower case is are parameters.
- SqlPolicy.SqlWords: the BigQuery and Snowflake scanners are the same text and are modelled once, as is the rest of the two validators up to their word lists.
- HolidaysProvider.Provider.Dataset: one call at a time; interleaved calls are in `HolidaysInterleaved`. The cache key, endpoint check and JSON decoding are inputs, and the response reference beside the reply is not modelled.
- ConfigDefaults.ApplyProviderConfigDefaults: configurations are values, so that defaults are cloned one level deep does not show; the dependency keys are given as the list that `providerConfigDependencyKeys` extracts.
- ConfigValidation.ValidateProviderConfig: the type check and the option, length, pattern and range checks of one value are functions given with each field; error parameters are reduced to the key, the dependency and the rule.
- `listFactors` and `normalizeRequest` of the holidays provider: a filter, a sort and field checks.
- `Scope`: a SHA-256 digest of a JSON list; only that it is hexadecimal is used.
- `DecodeText`, `Header` and `Addresses` of mail content: charset and MIME libraries.
- The remaining providers, webhook verification, schemas, catalogs and generated registries: request building, foreign cryptography and data tables.
