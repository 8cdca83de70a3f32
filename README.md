# voicepod_demo — a verified model of the call console and the demo wizard

voicepod_demo is a Next.js front end for an AI debt-collection voice agent.
It has two call controllers and a results view:

- The console page (`app/page.tsx`) collects a borrower's details, places a call, and polls the room list until the call ends. It then fetches the call's recording, transcript and analysis through a relay.
- The demo wizard (`components/demo-modal.tsx`) walks through four steps:
  1. a form, checked field by field;
  2. a randomly chosen mock loan and the call button;
  3. the call in progress, with its single polling timer;
  4. the analysis.
- The analysis dashboard (`components/call-analysis-dashboard.tsx`) labels the analysis questions and answers, classifies the outcome, filters the outcome entries and renders the transcript.

The model is written in Dafny, one module per concern:

| file | module | what it holds |
|---|---|---|
| `text.dfy` | `Text` | JavaScript string operations the code relies on: `trim`, `slice(-n)`, character replacement, `split`/`join`, ASCII upper-casing, decimal `toString` |
| `json.dfy` | `Json` | parsed JSON values: truthiness, property access, `Object.entries`, `String(v)` |
| `uri.dfy` | `Uri` | `encodeURIComponent` over UTF-8, and percent-decoding as its inverse |
| `call.dfy` | `Call` | room names, the dialled number, days past due, the form and call payload, network replies, relay URLs, and what a poll observes |
| `polling.dfy` | `Polling` | the "seen, then gone" rule that ends a call, over a run of poll observations |
| `retrieval.dfy` | `Retrieval` | the bounded analysis retry and the artifact fetch, with their network effects as a trace |
| `outcome.dfy` | `Outcome` | compact `yyyymmdd_hhmm` answers and their rendering, and question-code clean-up |
| `analysis_view.dfy` | `AnalysisView` | the dashboard's formatters, outcome status, outcome filter and transcript rendering |
| `page.dfy` | `Page` | the console page's formatters, its sorted outcome list, and class `Dashboard` for its state and handlers |
| `demo_modal.dfy` | `DemoModal` | the wizard's field checks, mock loans, and class `Modal` for its state, its handlers, the single timer reference and the step machine |

The handlers that change component state are methods of a class. React state hooks are its fields. The wizard's `pollingIntervalRef` and the `setInterval` closures it schedules are a `Timers` value: the reference, and every poll started so far with its own closure variables.

Everything outside the program is an input:

- network replies, each a `Reply`;
- `JSON.parse`, a function value;
- the current instant and `toISOString`, given as text and milliseconds;
- `Math.random`, given as the drawn values.

Asynchronous code runs sequentially. An awaited call completes before the next statement.

## Model

| member | source | states |
|---|---|---|
| Text.LeadingWhiteSpec | components/demo-modal.tsx:221-249 | the white space `trim` drops at the front is exactly the maximal run of JavaScript white-space characters |
| Text.TrailingWhiteSpec | components/demo-modal.tsx:221-249 | likewise at the end |
| Text.TrimBounds | components/demo-modal.tsx:221-249 | `trim` keeps one slice; everything outside it is white space; the slice starts and ends with a non-white character |
| Text.TrimEmptyIffAllWhite | components/demo-modal.tsx:222 | `!value.trim()` holds exactly when every character is white space |
| Text.Last | components/demo-modal.tsx:292-296 | `slice(-10)` is the last ten characters, or the whole string when it is shorter |
| Text.Utf16LengthSpec | components/demo-modal.tsx:223 | `length` counts UTF-16 code units: between the character count and twice it, and equal to the count exactly when no character lies outside the Basic Multilingual Plane |
| Text.ReplaceChars | components/demo-modal.tsx:293 | a global character-class replace keeps the length and changes exactly the listed characters |
| Text.RemoveWhere | components/demo-modal.tsx:229-235 | a global replace by "" leaves none of the removed characters and never lengthens the text |
| Text.RemoveWhereSpec | components/demo-modal.tsx:232 | removal works character by character in order: a removed character vanishes, any other stays, and the result of a concatenation is the concatenation of the results |
| Text.RemoveWhereKeepsClean | components/demo-modal.tsx:229-235 | removal does nothing to a string with none of those characters |
| Text.Split | components/call-analysis-dashboard.tsx:74 | `split` never yields an empty list |
| Text.JoinSplit | components/call-analysis-dashboard.tsx:74-76 | joining the parts of a split with the separator gives back the string |
| Text.SplitJoin | components/call-analysis-dashboard.tsx:74-76 | splitting a join of separator-free parts gives back the parts |
| Text.AsciiUpper | components/call-analysis-dashboard.tsx:75 | `toUpperCase` maps each lower-case ASCII letter to its own capital (32 code points down) and leaves other characters alone |
| Text.CapitalizeFixed | components/call-analysis-dashboard.tsx:75 | capitalising twice is capitalising once, and a word stays as it is exactly when it is empty or does not start with a lower-case letter |
| Text.CapitalizeAll | components/call-analysis-dashboard.tsx:75 | the map capitalises each word in place |
| Text.CapitalizeWordsAt | components/call-analysis-dashboard.tsx:74-76 | split, capitalise and join upper-cases exactly the characters that start a word |
| Text.NatToString | components/demo-modal.tsx:198-209 | `toString` of a non-negative integer is a non-empty run of digits without a leading zero |
| Text.IntToString | components/call-analysis-dashboard.tsx:232 | `String(n)` of a non-negative integer is digits whose value is `n`; of a negative one, `-` and then the digits of its magnitude |
| Text.DecimalRoundTrip | components/demo-modal.tsx:198-209 | reading a number's decimal text back gives the number |
| Text.NatToStringInjective | components/demo-modal.tsx:198-209 | different numbers have different texts |
| Json.Lookup | components/call-analysis-dashboard.tsx:98-108 | property access finds the first member with that key (the only one, as keys are distinct), or nothing when no member has it |
| Json.PropertyMember | components/call-analysis-dashboard.tsx:98-108 | on an object with distinct keys, reading a key gives a value exactly when the object has that member, and nothing exactly when no member has the key |
| Json.EntriesAreProperties | components/call-analysis-dashboard.tsx:218-222 | the entries of an object are exactly its properties: each entry reads back by its key, and every readable property is an entry |
| Json.EntryKeysDistinct | components/call-analysis-dashboard.tsx:218-224 | the index keys of an array or a string are pairwise distinct |
| Json.Display | components/call-analysis-dashboard.tsx:232 | `String(v)`: "null", "true"/"false", digits that read back as the number (with `-` when negative), the string itself, "" for an empty array, "[object Object]" for an object |
| Json.DisplayArraySplits | components/call-analysis-dashboard.tsx:232 | the text of a non-empty array of comma-free strings splits on `,` back into those strings |
| Json.DisplayElements | components/call-analysis-dashboard.tsx:298 | one text per element, in order: "" for `null`, `String(e)` otherwise |
| Uri.EncodeURIComponent | components/demo-modal.tsx:337-346 | the encoding uses only unreserved characters, `%` and hex digits |
| Uri.EncodeUnreserved | components/demo-modal.tsx:337-346 | a string of unreserved characters is encoded as itself |
| Uri.UnescapeEncode | app/api/proxy/route.ts:4-5 | percent-decoding the encoding gives the UTF-8 bytes of the string |
| Uri.Utf8RoundTrip | app/api/proxy/route.ts:4-5 | UTF-8 decoding the bytes gives the string back |
| Uri.DecodeEncode | app/api/proxy/route.ts:4-5 | the relay's decoding undoes `encodeURIComponent` exactly |
| Call.SanitizeTimestamp | components/demo-modal.tsx:293 | every `:` and `.` becomes `-`; nothing else changes, and the length stays |
| Call.SanitizeInjective | app/page.tsx:106 | two ISO instants that sanitise alike are the same instant |
| Call.RoomNameDetermines | app/page.tsx:105-109 | a room name determines both its instant and the phone's last ten characters, so two instants never share a room |
| Call.DialNumber | components/demo-modal.tsx:454-456 | a number starting with `+` is sent as entered; otherwise `+91` is put in front |
| Call.DialNumberIdempotent | app/page.tsx:220-222 | dialling a dialled number changes nothing |
| Call.DaysPastDue | components/demo-modal.tsx:187-189 | `max(0, ceil(diff / day))` is the least whole number of days that covers the difference |
| Call.DaysPastDueMonotone | app/page.tsx:95-97 | more elapsed time never gives fewer days past due |
| Call.DaysPastDueWhole | app/page.tsx:95-97 | a whole number of days is counted exactly |
| Call.DpdEffectCounts | components/demo-modal.tsx:183-191 | for a due date that parsed, the effect stores exactly k days once k whole days have passed, none while the date is ahead, and never fewer days for a later clock |
| Call.DpdText | components/demo-modal.tsx:466 | `dpd.toString()` is "NaN", or digits whose value is the day count |
| Call.WithField | components/demo-modal.tsx:256-258 | the form with one field replaced, every other field kept |
| Call.BuildPayloadInjective | components/demo-modal.tsx:453-471 | a request loses nothing: it determines the room, the days past due and every form field, except the loan type where it is not sent |
| Call.DpdTextInjective | components/demo-modal.tsx:466 | different days-past-due values are sent as different texts |
| Call.PayloadNumber | app/page.tsx:219-236 | the number sent starts with `+` and ends with the phone as typed |
| Call.OkBody | components/demo-modal.tsx:347-351 | a reply gives a body exactly when it is an ok response whose body parses |
| Call.ProxyUrlRecovers | app/api/proxy/route.ts:4-5 | the relay recovers exactly the storage URL it was handed |
| Call.ProxyUrlInjective | components/demo-modal.tsx:337-346 | different storage URLs give different relay URLs |
| Call.ArtifactTargetsDistinct | components/demo-modal.tsx:337-346 | a room's recording, transcript and analysis are three different objects |
| Call.SomeNamedTrue | components/demo-modal.tsx:406 | `some` answers true exactly when a room with that name comes before any `null` element |
| Call.SomeNamedFalse | components/demo-modal.tsx:406 | `some` answers false exactly when no element is `null` and none has that name |
| Call.SomeNamedSpec | components/demo-modal.tsx:403-406 | both directions of the above, with a `null` met first making the tick throw |
| Call.PageRoomPresentAgrees | app/page.tsx:290-301 | whenever the page's poll observes something, the wizard's observes the same |
| Call.RoomPresentOnRoomList | app/page.tsx:293-296 | on a room list without `null` elements, both observe whether some room has that name |
| Call.SomeNamedNone | components/demo-modal.tsx:406 | `some` throws exactly when it meets a `null` element before a room with that name |
| Call.TickObservationSpec | components/demo-modal.tsx:392-406 | a tick fails exactly when the request fails, the body is `null`, or the room list has a `null` before the room; it sees the room exactly when an ok reply lists it before any `null`; otherwise it sees absence |
| Call.TickObservationsAgree | app/page.tsx:281-301 | whenever a tick of the page observes something, a tick of the wizard on the same reply observes the same |
| Polling.EndIndex | components/demo-modal.tsx:408-422 | the tick that ends a call observed the room absent |
| Polling.EndIndexIsFirstCandidate | components/demo-modal.tsx:408-422 | a call ends at the first tick that sees the room absent after the latest good tick saw it present, and never when there is no such tick |
| Polling.EndsOnFirstAbsenceAfterPresence | app/page.tsx:302-315 | the same from a fresh closure, both directions |
| Polling.LatchAfterSnoc | components/demo-modal.tsx:422-425 | a failed tick leaves the latch alone; a good tick replaces it |
| Polling.EndIndexSnoc | components/demo-modal.tsx:386-426 | one more tick keeps an end already found, and otherwise ends exactly on an absence seen under a raised latch |
| Retrieval.ScheduleShape | components/demo-modal.tsx:298-330 | n attempts make n fetches alternating with n-1 ten-second pauses, starting and ending with a fetch |
| Retrieval.SchedulePauses | components/demo-modal.tsx:325-327 | success at attempt k has waited k-1 times |
| Retrieval.RetryResultUnique | app/page.tsx:147-204 | the replies determine the retry's outcome and its number of attempts |
| Retrieval.FetchAnalysisWithRetry | components/demo-modal.tsx:298-330 | at most maxRetries attempts; every attempt before the last was rejected; a found analysis is the last reply's body, unwrapped; nothing found means every allowed attempt was rejected; the trace is the schedule |
| Retrieval.RetrieveArtifacts | components/demo-modal.tsx:332-367 | sets the recording URL, then the transcript, then five analysis attempts, in that order of network effects |
| Outcome.RenderStamp | components/call-analysis-dashboard.tsx:86-93 | a compact date renders as `dd/mm/yyyy`, the separator, then `hh:mm` |
| Outcome.StampRoundTrip | components/call-analysis-dashboard.tsx:86-93 | the compact date can be read back from its rendering |
| Outcome.RenderedIsNotStamp | components/call-analysis-dashboard.tsx:86-93 | a rendered date is never itself a compact date |
| Outcome.Spaced | components/call-analysis-dashboard.tsx:72 | each underscore becomes a space and every other character stays in place |
| Outcome.StripWordCut | app/page.tsx:351-353 | a word followed by a space is cut, leaving exactly what follows the space |
| Outcome.StripWordSkip | app/page.tsx:351-353 | a text that starts with another letter than the word is left alone |
| AnalysisView.StripLeadingWord | components/call-analysis-dashboard.tsx:73 | at most one of "what", "if" or "does" is cut from the front, with its white space, and the text changes exactly when one of them leads it |
| AnalysisView.FormatQuestionCutsWord | components/call-analysis-dashboard.tsx:72-77 | a code spelled "what", "if" or "does", a space and `rest` shows `rest` capitalised: one word is cut, whatever `rest` starts with |
| AnalysisView.FormatQuestionUncut | components/call-analysis-dashboard.tsx:72-77 | a code starting with none of those words shows all its words capitalised |
| AnalysisView.FormatQuestionUnmapped | components/call-analysis-dashboard.tsx:60-78 | a code without a fixed label shows its words, with exactly the first letter of each word upper-cased and no underscore |
| AnalysisView.FormatAnswerSpec | components/call-analysis-dashboard.tsx:80-95 | an answer is shown unchanged exactly when it is none of the four fixed words and no compact date; a compact date can be read back from what is shown |
| AnalysisView.OutcomeStatus | components/call-analysis-dashboard.tsx:98-108 | Pending exactly without an outcome; Success or Failed exactly on "True" or "False" for the promise; Unclear otherwise |
| AnalysisView.ShownFrom | components/call-analysis-dashboard.tsx:218-222 | the positions it picks are in range |
| AnalysisView.ShownFromSpec | components/call-analysis-dashboard.tsx:218-222 | the positions are exactly those of truthy values other than "[]" and "0.0", in increasing order |
| AnalysisView.VisibleOutcomesInOrder | components/call-analysis-dashboard.tsx:218-222 | the filter keeps exactly the shown entries, in their original order |
| AnalysisView.TranscriptShown | components/call-analysis-dashboard.tsx:267-270 | a non-empty `items` array is listed, and only it; a non-empty string, or an object whose `length` is positive, passes the condition and makes `map` throw, and nothing else does; so every other transcript (none, `items` missing, `null`, a number, a boolean, an empty array or string, an object without a positive `length`) shows the placeholder |
| AnalysisView.SpeakerLabel | components/call-analysis-dashboard.tsx:272-285 | a `null` item throws; otherwise the agent label exactly for the assistant's items, "Customer" for the others |
| AnalysisView.RenderItem | components/call-analysis-dashboard.tsx:270-300 | an item renders exactly when it is not `null` and its content is an array, as its speaker and its text |
| AnalysisView.RenderItems | components/call-analysis-dashboard.tsx:270 | `map` renders every item in order, and throws exactly when some item does |
| AnalysisView.RenderTranscript | components/call-analysis-dashboard.tsx:267-305 | the card throws exactly when a non-array passes the condition or some item throws; it shows the placeholder exactly when there are no items; otherwise one row per item, in order |
| AnalysisView.RenderWellFormed | app/page.tsx:777-806 | a transcript of objects with content arrays renders one row per item, with the agent label exactly on the assistant's items |
| AnalysisView.ItemText | components/call-analysis-dashboard.tsx:298 | an item has text exactly when its content is an array |
| AnalysisView.ItemTextFragments | components/call-analysis-dashboard.tsx:298 | the text of space-free fragments splits back into exactly those fragments |
| Page.DigitRun | app/page.tsx:350 | the run of digits that `q\d+` consumes is maximal |
| Page.StripNumberedCut | app/page.tsx:350 | `q`, digits and a space are cut, leaving exactly what follows |
| Page.QuestionWordsTail | app/page.tsx:331-356 | without a label, a code shows a tail of its spaced-out words, with no underscore |
| Page.QuestionWordsCuts | app/page.tsx:347-353 | the page cuts in sequence: an optional `q<digits> `, then "what ", "if " and "does " in that order, each at most once, leaving exactly `rest` |
| Page.QuestionWordsPlain | app/page.tsx:347-353 | a code starting with none of the cut words shows its spaced-out words unchanged |
| Page.FormatAnswerSpec | app/page.tsx:358-375 | the page shows an answer unchanged exactly when it is none of the four fixed words and no compact date; a compact date can be read back |
| Page.KeptEntries | app/page.tsx:883-888 | the list keeps exactly the entries whose value is neither `null` nor "" |
| Page.LexLeTotal | app/page.tsx:889 | the key order is total |
| Page.LexLeTrans | app/page.tsx:889 | the key order is transitive |
| Page.LexLeAntisymmetric | app/page.tsx:889 | the key order is antisymmetric |
| Page.InsertPermutes | app/page.tsx:889 | an insertion adds its entry and loses none |
| Page.InsertSorted | app/page.tsx:889 | an insertion keeps the list sorted |
| Page.SortByKeySpec | app/page.tsx:889 | the sort orders entries by key and is a permutation of its input |
| Page.OutcomeEntriesSpec | app/page.tsx:880-902 | the outcome list holds exactly the kept entries, each as often as before, sorted by key |
| Page.Dashboard.constructor | app/page.tsx:62-88 | the initial state: an empty form, the system ready, zero days past due, no room, no media, no intervals |
| Page.Dashboard.HandleInputChange | app/page.tsx:91-103 | one field changes; the days past due follow the effect only when the due date changed; nothing else changes |
| Page.Dashboard.MakeCall | app/page.tsx:206-275 | without a name or phone, nothing happens; otherwise the payload of the form is sent with a fresh room; an accepted call sets the call flags and starts a poll; a refused one makes the system ready again |
| Page.Dashboard.StartPolling | app/page.tsx:277-320 | a new interval is added with its latch down, and every earlier one still runs |
| Page.Dashboard.FetchMediaFiles | app/page.tsx:111-145 | the recording URL, the transcript, five analysis attempts in order; loading ends and the system is ready |
| Page.Dashboard.Tick | app/page.tsx:281-318 | a failed tick changes nothing; a good tick shows presence and moves the latch; absence after presence ends the call, stops this interval and fetches the artifacts |
| Page.Dashboard.RunPoll | app/page.tsx:277-320 | a run of ticks ends the call exactly at the first absence after presence, after which the call is inactive, no longer polled and the system is ready; the interval runs on otherwise; the form, days past due and room never change |
| Page.Dashboard.RefreshAnalysis | app/page.tsx:830-838 | the refresh button makes one analysis attempt for the current room |
| Page.Dashboard.EndCall | app/page.tsx:322-329 | every call flag drops and the system is ready; intervals are not cleared |
| Page.EndCallThenTick | app/page.tsx:322-329 | after a call is ended by hand, its poll still runs, and a tick that sees the room again shows "Ongoing Call" and keeps the start button disabled |
| DemoModal.TrimAtLeastTwo | components/demo-modal.tsx:223 | the trimmed text is at least two UTF-16 code units long exactly when two positions hold non-white characters or one character lies outside the Basic Multilingual Plane |
| DemoModal.NameErrorSpec | components/demo-modal.tsx:221-227 | each of the name check's messages, in order, with the length counted in UTF-16 code units; it passes exactly with at least two such units and only letters and white space after trimming |
| DemoModal.NameAccepted | components/demo-modal.tsx:221-227 | a name passes exactly when it is made of ASCII letters and white space and holds two letters |
| DemoModal.CleanPhone | components/demo-modal.tsx:232 | removal of white space, `-`, `(` and `)` leaves none of them |
| DemoModal.CleanPhoneSpec | components/demo-modal.tsx:232 | cleaning drops exactly the separators and keeps every other character in order |
| DemoModal.MobileByLengthMatches | components/demo-modal.tsx:231 | the mobile pattern holds exactly for ten subscriber digits, alone, after `91`, or after `+91` |
| DemoModal.PhoneErrorSpec | components/demo-modal.tsx:229-235 | blank is "required"; otherwise it passes exactly when the number without separators matches the mobile pattern |
| DemoModal.PhoneSeparatorsIgnored | components/demo-modal.tsx:229-235 | separators never decide the check |
| DemoModal.DialAcceptedPhone | components/demo-modal.tsx:454-456 | a number that passed as typed is dialled as `+91` and its last ten digits; a 12-character `91…` number is dialled as `+9191…` |
| DemoModal.EmailByScanMatches | components/demo-modal.tsx:239 | the email pattern holds exactly when there is no white space and one `@` comes before a dot with text on each side |
| DemoModal.EmailErrorSpec | components/demo-modal.tsx:237-243 | the only message is the invalid-email one; it passes exactly when blank or when the text matches the pattern |
| DemoModal.NbfcErrorSpec | components/demo-modal.tsx:245-249 | blank is "required"; otherwise it passes exactly when the trimmed text is at least two UTF-16 code units long (two non-white characters, or one outside the Basic Multilingual Plane) |
| DemoModal.FormErrors | components/demo-modal.tsx:267-279 | the recorded errors cover exactly the four checked fields |
| DemoModal.FormErrorsSpec | components/demo-modal.tsx:267-279 | the form passes exactly when each of its four checks passes |
| DemoModal.LastPaymentDay | components/demo-modal.tsx:65-70 | the last payment lies `max(dpd + 15, 30)` days back |
| DemoModal.MockAmountBounds | components/demo-modal.tsx:199-209 | the original amount is 50000 to 449999 and the last payment 2000 to 16999; the outstanding amount is 50% to 90% of the original, rounded down |
| DemoModal.FillMock | components/demo-modal.tsx:193-217 | the contact fields are kept; the amounts are decimal texts of the drawn values; the dates and type come from the scenario |
| DemoModal.MockDaysPastDue | components/demo-modal.tsx:58-63 | a mock due date `dpd` days back counts `dpd` days only at midnight, and `dpd + 1` at any later time that day |
| DemoModal.Cleared | components/demo-modal.tsx:416-419 | clearing the reference stops the referenced interval and no other, and empties the reference |
| DemoModal.Modal.constructor | components/demo-modal.tsx:151-181 | step 1, the initial form with "Demo NBFC", the system ready, no errors, no room, no media, no interval |
| DemoModal.Modal.HandleInputChange | components/demo-modal.tsx:256-265 | one field changes, its error is re-checked, and the days past due follow the effect only when the due date changed |
| DemoModal.Modal.ValidateForm | components/demo-modal.tsx:267-279 | the errors become the four checks; the result says whether all pass |
| DemoModal.Modal.FillMockData | components/demo-modal.tsx:193-217 | the form becomes the drawn scenario's loan; the days past due follow the new due date |
| DemoModal.Modal.HandleUserInfoSubmit | components/demo-modal.tsx:281-290 | a failing form stays on step 1 unchanged; a passing form is filled with a mock loan and moves to step 2 |
| DemoModal.Modal.StartPolling | components/demo-modal.tsx:369-384 | the referenced interval is cleared before a new one is scheduled and referenced, so one interval runs at most |
| DemoModal.Modal.Connect | components/demo-modal.tsx:481-491 | an accepted request turns the call on, clears the previous artifacts, starts the poll of the new room as the only running interval, and moves to step 3 |
| DemoModal.Modal.HandleCallTrigger | components/demo-modal.tsx:440-502 | without a name or phone, nothing happens; otherwise the payload with `loanType` is sent with a fresh room; acceptance moves to step 3, clears the media and starts a poll; refusal makes the system ready again on step 2 |
| DemoModal.Modal.FetchMediaFiles | components/demo-modal.tsx:332-367 | the recording URL, the transcript, five analysis attempts in order; loading ends, the system is ready, and the wizard shows step 4 |
| DemoModal.Modal.EndCall | components/demo-modal.tsx:408-421 | the closure stops, the call flags drop, the reference is cleared, and the artifacts are fetched |
| DemoModal.Modal.Tick | components/demo-modal.tsx:375-426 | only a scheduled interval fires; a closure told to stop clears the reference; a failed tick only counts; a good one shows presence and moves the latch; absence after presence ends the call |
| DemoModal.Modal.PollStep | components/demo-modal.tsx:375-426 | one more tick keeps a run's progress: before the end the poll runs with the latch of the last good tick and every tick counted; after it the poll is stopped and the wizard shows step 4 |
| DemoModal.Modal.RunPoll | components/demo-modal.tsx:369-428 | a run of ticks ends the call exactly at the first absence after presence, counting each tick; otherwise the interval runs on with the latch of the last good tick |
| DemoModal.Modal.ResetModal | components/demo-modal.tsx:504-537 | the referenced interval is cleared and every piece of state returns to its initial value |
| DemoModal.Modal.Unmount | components/demo-modal.tsx:431-438 | the referenced interval is cleared |
| DemoModal.AcceptedCallLocksButton | components/demo-modal.tsx:700-708 | an accepted call from step 2 moves to step 3 with the call button disabled, and its interval is the only one running |

## Left out

- Rendering, styling, icons, `alert`, `console` logging and `onClose` are not modelled. The outcome list, the transcript items and the button enablement are. The dashboard computes an outcome status (`AnalysisView.OutcomeStatus`) that its markup never uses; the model states the classification only.
- Network access is not modelled: every `fetch` is an input reply.
- The relay route `app/api/proxy/route.ts` is not part of this model beyond the decoding of its `url` parameter, and that decoding is modelled only for text `EncodeURIComponent` produces: the relay's reading of `+` as a space and its keeping of malformed escapes are left out. Neither are `lib/api.ts` and `lib/proxy.ts`.
- Concurrency is not modelled: asynchronous handlers run to completion in order. In particular, the wizard's poll does not await `fetchMediaFiles`, but the model runs it inside the ending tick.
- The clock is not modelled. `Date`, `toISOString` and `setTimeout` pauses are inputs or trace entries. Dates are day numbers and `dateText` renders them.
- `Math.random` draws are parameters in exact arithmetic, not floating point.
- JSON numbers are integers, and floating-point answers appear only as strings.
- Strings hold Unicode scalar values; UTF-16 surrogate halves are not modelled. The two `length < 2` checks count UTF-16 code units (`Text.Utf16Length`).
- Text.Last: counts Unicode scalar values, where the source's `slice(-10)` counts UTF-16 code units. On a phone holding characters outside the Basic Multilingual Plane the model keeps more characters than the source does, and a cut through a surrogate pair, which leaves a lone surrogate, cannot be represented.
- A parsed object's members are taken to be in JavaScript property order with distinct keys, as `JSON.parse` builds them (integer-like keys first, a repeated key keeping its last value). Producing that order from the source text belongs to the parse function given as input and is not modelled.
- TranscriptShown: a `length` property of an object `items` counts as positive only as a number, a boolean, or digits (possibly padded with white space) as a string or a one-element array; other numeric notations (sign, fraction, exponent, hexadecimal) are read as not positive, and an object with its own `valueOf` or `toString` member is not modelled.
- The transcript's `item.interrupted` badge is not modelled; the console page renders its transcript with the same rules and the label "Agent", which `AnalysisView.RenderTranscript` takes as a parameter.
- `localeCompare` is modelled as a comparison of collation keys given by the caller. The sort in `Page.SortByKeySpec` is an insertion sort: the model proves it ordered and a permutation, and does not claim it matches the engine's stability.
- Text.AsciiUpper: upper-cases ASCII letters only; JavaScript's `toUpperCase` also upper-cases other letters.
- Form fields are an enumeration rather than free strings, and the wizard's errors map is keyed by it.
- DemoModal.MockLoanData: does not prove that each scenario's label agrees with its days past due.
- DemoModal.Modal.Tick: the `shouldContinuePolling` guard is modelled, but stopping and clearing happen together in the source, so the guard's branch is never reached from a reachable state.
- Page.Dashboard.HandleInputChange: the page has no loan type field, so that field is excluded.
- Polling.EndIndexExamples states concrete runs of the end rule; Dafny checks them by evaluation.
- A phone entered as `91` followed by ten digits passes the wizard's check but is dialled as `+9191…` (`DemoModal.DialAcceptedPhone`). The model records this as the code's behaviour.
- AnalysisView.FormatQuestion and Page.FormatQuestion: both read the label table with an ordinary property lookup, so an inherited `Object.prototype` name also hits it. A code such as `constructor`, `toString`, `valueOf` or `hasOwnProperty` gets a function, which renders as nothing, and `__proto__` gets an object, which makes the render throw. The model looks only at the table's own keys and shows such a code as its words ("Constructor" on the dashboard, "constructor" on the page).
- The page's `formatQuestion` differs from the dashboard's: it has its own label table, cuts `q<digits>`, then "what", "if" and "does" in turn, and does not capitalise. The model follows the code.
- The phone check first rejects a blank entry as required, and the page sends no `loanType`. The model follows the code.
