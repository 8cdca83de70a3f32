// The agent console page: its own question and answer formatting, the
// sorted list of outcome rows, and the controller that places a call,
// polls the room list and fetches the call's artifacts.

module Page {
  import opened Text
  import opened Json
  import opened Call
  import opened Polling
  import opened Retrieval
  import opened Outcome

  // ---------------------------------------------------------------------
  // Questions

  const QuestionLabels: map<string, string> := map[
    "if_the_user_promised_to_pay_then_what_was_the_amount" := "Promised Payment Amount",
    "if_the_user_promised_to_pay_then_what_was_the_date_in_yyyymmdd_hhmm_format" := "Promised Payment Date",
    "does_the_user_promised_to_pay" := "Did the user promise to pay?",
    "what_was_the_summary_of_the_conversation" := "Conversation Summary",
    "q01_does_the_user_agreed_to_pay" := "Does the user agree to pay?",
    "q02_what_is_the_summary_of_the_conversation" := "What is the summary of the conversation?",
    "q03_what_is_the_age_of_the_user" := "What is the age of the user?",
    "q04_what_are_the_reasons_user_refused_to_pay" := "What are the reasons user refused to pay?"
  ]

  /** The number of consecutive digits of `s` from position `i` on. */
  function DigitRun(s: string, i: nat): (n: nat)
    requires i <= |s|
    ensures i + n <= |s|
    ensures forall k :: i <= k < i + n ==> IsDigit(s[k])
    ensures i + n == |s| || !IsDigit(s[i + n])
    decreases |s| - i
  {
    if i < |s| && IsDigit(s[i]) then 1 + DigitRun(s, i + 1) else 0
  }

  /** The text starts with `q`, one or more digits and a white-space character. */
  predicate LeadsWithNumber(s: string) {
    |s| >= 2 && s[0] == 'q' && DigitRun(s, 1) >= 1 &&
    1 + DigitRun(s, 1) < |s| && IsWhite(s[1 + DigitRun(s, 1)])
  }

  /** The text with a leading question number (`q`, digits, white space) cut off. */
  function StripNumbered(s: string): string
  {
    if LeadsWithNumber(s) then s[2 + DigitRun(s, 1)..] else s
  }

  /** The words a question code is shown as on this page, before any label. */
  function QuestionWords(code: string): string {
    StripWord(StripWord(StripWord(StripNumbered(Spaced(code)), "what"), "if"), "does")
  }

  /** The page's label for an analysis question code. */
  function FormatQuestion(code: string): string {
    if code in QuestionLabels then QuestionLabels[code] else QuestionWords(code)
  }

  /** `r` is what is left of `s` after cutting off a prefix. */
  predicate IsTail(r: string, s: string) {
    |r| <= |s| && r == s[|s| - |r|..]
  }

  lemma TailTrans(a: string, b: string, c: string)
    requires IsTail(a, b) && IsTail(b, c)
    ensures IsTail(a, c)
  {
    assert c[|c| - |b|..][|b| - |a|..] == c[|c| - |a|..];
  }

  lemma StripWordTail(s: string, w: string)
    ensures IsTail(StripWord(s, w), s)
  {
  }

  /** A code without a fixed label is shown as a tail of its spaced-out
      form: a leading `q<digits>`, then `what`, then `if`, then `does`,
      each with the white space after it, may be cut off in that order;
      nothing else changes, so no underscore is left. */
  lemma QuestionWordsTail(code: string)
    ensures IsTail(QuestionWords(code), Spaced(code)) && '_' !in QuestionWords(code)
  {
    var s := Spaced(code);
    var a := StripNumbered(s);
    var b := StripWord(a, "what");
    var c := StripWord(b, "if");
    var r := StripWord(c, "does");
    assert IsTail(a, s);
    StripWordTail(a, "what");
    StripWordTail(b, "if");
    StripWordTail(c, "does");
    TailTrans(b, a, s);
    TailTrans(c, b, s);
    TailTrans(r, c, s);
    assert r == QuestionWords(code);
    forall i | 0 <= i < |r| ensures r[i] != '_' {
      assert r[i] == s[|s| - |r| + i];
    }
  }

  /** A code that starts with none of the cut words is shown with only
      its underscores replaced. */
  lemma QuestionWordsPlain(code: string)
    requires var s := Spaced(code);
      !LeadsWithNumber(s) && !LeadsWith(s, "what") && !LeadsWith(s, "if") && !LeadsWith(s, "does")
    ensures QuestionWords(code) == Spaced(code)
  {
  }

  /** The page cuts its leading words in sequence: a code whose
      spaced-out form is an optional `q<digits> `, then optionally
      `what `, `if ` and `does ` in that order, then `rest`, is shown as
      `rest`, provided the cut that would come next does not apply to
      `rest` itself. */
  lemma QuestionWordsCuts(code: string, digits: string, numbered: bool, what: bool, cutIf: bool, does: bool, rest: string)
    requires numbered ==> |digits| >= 1 && AllDigits(digits)
    requires Spaced(code) ==
      (if numbered then "q" + digits + " " else "") + ((if what then "what " else "") +
      ((if cutIf then "if " else "") + ((if does then "does " else "") + rest)))
    requires !numbered && !what && !cutIf && !does ==> !LeadsWithNumber(rest)
    requires !what && !cutIf && !does ==> !LeadsWith(rest, "what")
    requires !cutIf && !does ==> !LeadsWith(rest, "if")
    requires !does ==> !LeadsWith(rest, "does")
    ensures QuestionWords(code) == rest
  {
    CutsFrom(Spaced(code), digits, numbered, what, cutIf, does, rest);
  }

  lemma CutsFrom(s: string, digits: string, numbered: bool, what: bool, cutIf: bool, does: bool, rest: string)
    requires numbered ==> |digits| >= 1 && AllDigits(digits)
    requires s ==
      (if numbered then "q" + digits + " " else "") + ((if what then "what " else "") +
      ((if cutIf then "if " else "") + ((if does then "does " else "") + rest)))
    requires !numbered && !what && !cutIf && !does ==> !LeadsWithNumber(rest)
    requires !what && !cutIf && !does ==> !LeadsWith(rest, "what")
    requires !cutIf && !does ==> !LeadsWith(rest, "if")
    requires !does ==> !LeadsWith(rest, "does")
    ensures StripWord(StripWord(StripWord(StripNumbered(s), "what"), "if"), "does") == rest
  {
    hide StripNumbered, LeadsWithNumber, DigitRun, StripWord, LeadsWith;
    var b := (if what then "what " else "") + ((if cutIf then "if " else "") + ((if does then "does " else "") + rest));
    if numbered {
      assert s == "q" + digits + " " + b;
      StripNumberedCut(digits, b);
    } else {
      assert s == b;
      if what {
        assert b[0] == 'w';
        StripNumberedSkip(b);
      } else if cutIf {
        assert b[0] == 'i';
        StripNumberedSkip(b);
      } else if does {
        assert b[0] == 'd';
        StripNumberedSkip(b);
      } else {
        assert b == rest;
        StripNumberedKeep(rest);
      }
    }
    assert StripNumbered(s) == b;
    CutsAfterNumber(b, what, cutIf, does, rest);
  }

  lemma CutsAfterNumber(b: string, what: bool, cutIf: bool, does: bool, rest: string)
    requires b == (if what then "what " else "") + ((if cutIf then "if " else "") + ((if does then "does " else "") + rest))
    requires !what && !cutIf && !does ==> !LeadsWith(rest, "what")
    requires !cutIf && !does ==> !LeadsWith(rest, "if")
    requires !does ==> !LeadsWith(rest, "does")
    ensures StripWord(StripWord(StripWord(b, "what"), "if"), "does") == rest
  {
    var c := (if cutIf then "if " else "") + ((if does then "does " else "") + rest);
    if what {
      StripWordCut("what", c);
    } else if c != rest {
      assert c[0] in "id";
      StripWordSkip(c, "what");
    }
    assert StripWord(b, "what") == c;
    CutsAfterWhat(c, cutIf, does, rest);
  }

  lemma CutsAfterWhat(c: string, cutIf: bool, does: bool, rest: string)
    requires c == (if cutIf then "if " else "") + ((if does then "does " else "") + rest)
    requires !cutIf && !does ==> !LeadsWith(rest, "if")
    requires !does ==> !LeadsWith(rest, "does")
    ensures StripWord(StripWord(c, "if"), "does") == rest
  {
    var d := (if does then "does " else "") + rest;
    if cutIf {
      StripWordCut("if", d);
    } else if d != rest {
      StripWordSkip(d, "if");
    }
    assert StripWord(c, "if") == d;
    if does {
      StripWordCut("does", rest);
    }
  }

  /** `q`, digits and a space are cut, leaving exactly what follows. */
  lemma StripNumberedCut(digits: string, rest: string)
    requires |digits| >= 1 && AllDigits(digits)
    ensures StripNumbered("q" + digits + " " + rest) == rest
  {
    var a := "q" + digits + " " + rest;
    assert a[1 + |digits|] == ' ';
    assert forall k :: 1 <= k < 1 + |digits| ==> a[k] == digits[k - 1];
    assert DigitRun(a, 1) == |digits|;
    assert a[2 + |digits|..] == rest;
  }

  lemma StripNumberedKeep(s: string)
    requires !LeadsWithNumber(s)
    ensures StripNumbered(s) == s
  {
  }

  lemma StripNumberedSkip(s: string)
    requires s != [] && s[0] != 'q'
    ensures StripNumbered(s) == s
  {
  }

  // ---------------------------------------------------------------------
  // Answers

  /** The page's text for an answer. */
  function FormatAnswer(v: string): string {
    if v == "True" then "Yes"
    else if v == "False" then "No"
    else if v == "[]" then "None specified"
    else if v == "0.0" then "Not provided"
    else if IsCompactStamp(v) then RenderStamp(v, " ")
    else v
  }

  /** An answer is shown unchanged exactly when it is none of the four
      fixed words and no compact date; a compact date is shown as a date
      from which it can be read back. */
  lemma FormatAnswerSpec(v: string)
    ensures FormatAnswer(v) == v <==> v !in {"True", "False", "[]", "0.0"} && !IsCompactStamp(v)
    ensures IsCompactStamp(v) ==> UnrenderStamp(FormatAnswer(v), " ") == v
  {
    if IsCompactStamp(v) {
      RenderedIsNotStamp(v, " ");
      StampRoundTrip(v, " ");
      assert v != "True" && v != "False" && v != "[]" && v != "0.0";
    }
  }

  // ---------------------------------------------------------------------
  // Outcome rows

  /** The filter of the outcome list: `null` and the empty string are
      dropped (there is no `undefined` in parsed JSON). */
  predicate Kept(v: Json) {
    v != JNull && v != JString("")
  }

  function KeptEntries(es: seq<(string, Json)>): (r: seq<(string, Json)>)
    ensures forall e :: e in r <==> e in es && Kept(e.1)
  {
    if es == [] then []
    else (if Kept(es[0].1) then [es[0]] else []) + KeptEntries(es[1..])
  }

  /** `a.localeCompare(b) <= 0`, read through the collation keys of the
      two strings: `collate` gives the sort key of a string under the
      browser's locale, and keys compare lexicographically. */
  predicate LexLe(a: seq<int>, b: seq<int>)
    decreases |a|
  {
    a == [] || (b != [] && (a[0] < b[0] || (a[0] == b[0] && LexLe(a[1..], b[1..]))))
  }

  /** Any two keys are ordered one way or the other. */
  lemma {:induction false} LexLeTotal(a: seq<int>, b: seq<int>)
    ensures LexLe(a, b) || LexLe(b, a)
    decreases |a|
  {
    if a != [] && b != [] && a[0] == b[0] {
      LexLeTotal(a[1..], b[1..]);
    }
  }

  /** The order on keys is transitive. */
  lemma {:induction false} LexLeTrans(a: seq<int>, b: seq<int>, c: seq<int>)
    requires LexLe(a, b) && LexLe(b, c)
    ensures LexLe(a, c)
    decreases |a|
  {
    if a != [] && a[0] == b[0] && b[0] == c[0] {
      LexLeTrans(a[1..], b[1..], c[1..]);
    }
  }

  /** Two keys ordered both ways are equal. */
  lemma {:induction false} LexLeAntisymmetric(a: seq<int>, b: seq<int>)
    requires LexLe(a, b) && LexLe(b, a)
    ensures a == b
    decreases |a|
  {
    if a != [] {
      LexLeAntisymmetric(a[1..], b[1..]);
      assert a == [a[0]] + a[1..] && b == [b[0]] + b[1..];
    }
  }

  predicate SortedByKey(es: seq<(string, Json)>, collate: string -> seq<int>) {
    forall i, j :: 0 <= i < j < |es| ==> LexLe(collate(es[i].0), collate(es[j].0))
  }

  /** `e` put before the first entry it does not sort after. */
  function Insert(e: (string, Json), es: seq<(string, Json)>, collate: string -> seq<int>): seq<(string, Json)> {
    if es == [] then [e]
    else if LexLe(collate(e.0), collate(es[0].0)) then [e] + es
    else [es[0]] + Insert(e, es[1..], collate)
  }

  /** The entries ordered by their keys' collation keys. */
  function SortByKey(es: seq<(string, Json)>, collate: string -> seq<int>): seq<(string, Json)> {
    if es == [] then [] else Insert(es[0], SortByKey(es[1..], collate), collate)
  }

  lemma {:induction false} InsertPermutes(e: (string, Json), es: seq<(string, Json)>, collate: string -> seq<int>)
    ensures multiset(Insert(e, es, collate)) == multiset(es) + multiset{e}
  {
    if es != [] && !LexLe(collate(e.0), collate(es[0].0)) {
      InsertPermutes(e, es[1..], collate);
      assert es == [es[0]] + es[1..];
    }
  }

  /** Every entry of `es` sorts at or after the key `k`. */
  predicate AllFrom(k: seq<int>, es: seq<(string, Json)>, collate: string -> seq<int>) {
    forall i :: 0 <= i < |es| ==> LexLe(k, collate(es[i].0))
  }

  lemma {:induction false} InsertAllFrom(k: seq<int>, e: (string, Json), es: seq<(string, Json)>,
                                         collate: string -> seq<int>)
    requires AllFrom(k, es, collate) && LexLe(k, collate(e.0))
    ensures AllFrom(k, Insert(e, es, collate), collate)
  {
    if es != [] && !LexLe(collate(e.0), collate(es[0].0)) {
      InsertAllFrom(k, e, es[1..], collate);
      var r := Insert(e, es, collate);
      forall i | 0 <= i < |r| ensures LexLe(k, collate(r[i].0)) {
        if i > 0 {
          assert r[i] == Insert(e, es[1..], collate)[i - 1];
        }
      }
    }
  }

  /** `[x] + rest` is sorted when `rest` is and every entry of `rest`
      sorts at or after `x`. */
  lemma ConsSorted(x: (string, Json), rest: seq<(string, Json)>, collate: string -> seq<int>)
    requires SortedByKey(rest, collate) && AllFrom(collate(x.0), rest, collate)
    ensures SortedByKey([x] + rest, collate)
  {
    var r := [x] + rest;
    forall i, j | 0 <= i < j < |r| ensures LexLe(collate(r[i].0), collate(r[j].0)) {
      if i == 0 {
        assert r[j] == rest[j - 1];
      } else {
        assert r[i] == rest[i - 1] && r[j] == rest[j - 1];
      }
    }
  }

  lemma {:induction false} InsertSorted(e: (string, Json), es: seq<(string, Json)>, collate: string -> seq<int>)
    requires SortedByKey(es, collate)
    ensures SortedByKey(Insert(e, es, collate), collate)
  {
    if es == [] {
    } else if LexLe(collate(e.0), collate(es[0].0)) {
      var k := collate(e.0);
      forall i | 0 <= i < |es| ensures LexLe(k, collate(es[i].0)) {
        if i > 0 {
          LexLeTrans(k, collate(es[0].0), collate(es[i].0));
        }
      }
      ConsSorted(e, es, collate);
    } else {
      var k := collate(es[0].0);
      var tail := es[1..];
      InsertSorted(e, tail, collate);
      LexLeTotal(collate(e.0), k);
      forall i | 0 <= i < |tail| ensures LexLe(k, collate(tail[i].0)) {
        assert tail[i] == es[i + 1];
      }
      InsertAllFrom(k, e, tail, collate);
      ConsSorted(es[0], Insert(e, tail, collate), collate);
    }
  }

  /** Sorting orders the entries by key and keeps every entry, as many
      times as it occurs. */
  lemma {:induction false} SortByKeySpec(es: seq<(string, Json)>, collate: string -> seq<int>)
    ensures SortedByKey(SortByKey(es, collate), collate)
    ensures multiset(SortByKey(es, collate)) == multiset(es)
  {
    if es != [] {
      SortByKeySpec(es[1..], collate);
      InsertSorted(es[0], SortByKey(es[1..], collate), collate);
      InsertPermutes(es[0], SortByKey(es[1..], collate), collate);
      assert es == [es[0]] + es[1..];
    }
  }

  /** The entries of the outcome list, in the order shown; the list is
      shown only for a truthy outcome. */
  function OutcomeEntries(outcome: Json, collate: string -> seq<int>): seq<(string, Json)> {
    if Truthy(outcome) then SortByKey(KeptEntries(Entries(outcome)), collate) else []
  }

  /** The rows of the outcome list: a label and an answer text each. */
  function OutcomeRows(outcome: Json, collate: string -> seq<int>): seq<(string, string)>
  {
    var es := OutcomeEntries(outcome, collate);
    seq(|es|, i requires 0 <= i < |es| => (FormatQuestion(es[i].0), FormatAnswer(Display(es[i].1))))
  }

  /** The outcome list of a truthy outcome holds exactly its entries
      whose value is neither `null` nor empty, each once per occurrence,
      ordered by key. */
  lemma OutcomeEntriesSpec(outcome: Json, collate: string -> seq<int>)
    requires Truthy(outcome)
    ensures var r := OutcomeEntries(outcome, collate);
      SortedByKey(r, collate) &&
      multiset(r) == multiset(KeptEntries(Entries(outcome))) &&
      forall e :: e in r <==> e in Entries(outcome) && Kept(e.1)
  {
    var kept := KeptEntries(Entries(outcome));
    SortByKeySpec(kept, collate);
    var r := SortByKey(kept, collate);
    forall e ensures e in r <==> e in kept {
      assert e in r <==> e in multiset(r);
      assert e in kept <==> e in multiset(kept);
    }
  }

  // ---------------------------------------------------------------------
  // The controller

  /** One `setInterval` poll: the room it watches, its latch, and whether
      it still runs. */
  datatype PagePoll = PagePoll(room: string, lastRoomPresent: bool, running: bool)

  /** The observations a poll makes of a run of replies. */
  function Observations(replies: seq<Reply>, room: string): seq<Option<bool>>
  {
    seq(|replies|, i requires 0 <= i < |replies| => PageTickObservation(replies[i], room))
  }

  /** The page's call-status flags. */
  datatype Flags = Flags(
    isCallActive: bool, isOngoingCall: bool, isRecording: bool, isConnecting: bool,
    isSystemReady: bool, isPolling: bool, isLoadingMedia: bool)

  /** The console page's state: the form, the flags, the days past due,
      the current room, the artifacts shown, and the polls, where
      `intervals[id]` is the poll started with interval id `id` (ending a
      call by hand leaves it running). Requests are answered within the
      event that sends them, so no request is in flight between events. */
  class Dashboard {
    var form: FormData
    var flags: Flags
    var dpd: Dpd
    var roomName: string
    var media: Artifacts
    var intervals: seq<PagePoll>
    const parse: string -> Option<Json>

    /** Nothing is in flight, and the polling and recording flags follow
        the call-active flag. */
    predicate Valid()
      reads this
    {
      !flags.isConnecting && !flags.isLoadingMedia &&
      flags.isPolling == flags.isCallActive && flags.isRecording == flags.isCallActive
    }

    /** The poll `id` still runs. */
    predicate Running(id: nat)
      reads this
    {
      id < |intervals| && intervals[id].running
    }

    /** The start button is enabled. */
    predicate StartEnabled()
      reads this
    {
      !flags.isOngoingCall &&
      !(flags.isConnecting || flags.isCallActive || !flags.isSystemReady || !HasContact(form))
    }

    constructor (parse: string -> Option<Json>)
      ensures Valid()
      ensures form == FormData("", "", "", "", "", "", "", "", "", "")
      ensures flags == Flags(false, false, false, false, true, false, false)
      ensures dpd == Days(0) && roomName == "" && media == Artifacts("", JNull, JNull)
      ensures intervals == [] && this.parse == parse
    {
      form := FormData("", "", "", "", "", "", "", "", "", "");
      flags := Flags(false, false, false, false, true, false, false);
      dpd, roomName, media := Days(0), "", Artifacts("", JNull, JNull);
      intervals := [];
      this.parse := parse;
    }

    /** `handleInputChange` followed by the days-past-due effect, which
        runs when the due date changed; `dueMs` is the new due date as
        `new Date` reads it and `nowMs` the clock. */
    method HandleInputChange(field: Field, value: string, dueMs: Option<int>, nowMs: int)
      requires Valid() && field != LoanType
      modifies this
      ensures Valid()
      ensures form == WithField(old(form), field, value)
      ensures dpd == if field == EmiDueDate && value != old(form.emiDueDate)
        then DpdEffect(value, dueMs, nowMs, old(dpd)) else old(dpd)
      ensures unchanged(`flags, `roomName, `media, `intervals)
    {
      var before := form.emiDueDate;
      form := WithField(form, field, value);
      if field == EmiDueDate && value != before {
        dpd := DpdEffect(value, dueMs, nowMs, dpd);
      }
    }

    /** `makeCall()` at the instant `iso`, answered by `reply`. Without a
        name or a phone number nothing is sent. Otherwise the request
        goes out with a new room; an accepted request (status 200)
        clears the previous call's artifacts and starts a new poll of the
        room, anything else makes the system ready again. */
    method MakeCall(iso: string, reply: Reply) returns (request: Option<Payload>)
      requires Valid()
      modifies this
      ensures Valid()
      ensures !HasContact(old(form)) ==> request.None? && unchanged(this)
      ensures HasContact(old(form)) ==>
        var room := RoomName(old(form.phone), iso);
        request == Some(BuildPayload(old(form), old(dpd), room, false)) && roomName == room
      ensures HasContact(old(form)) && CallAccepted(reply) ==>
        flags == old(flags).(isCallActive := true, isOngoingCall := true, isRecording := true,
          isPolling := true, isConnecting := false, isSystemReady := false) &&
        media == Artifacts("", JNull, JNull) &&
        intervals == old(intervals) + [PagePoll(RoomName(old(form.phone), iso), false, true)]
      ensures HasContact(old(form)) && !CallAccepted(reply) ==>
        flags == old(flags).(isConnecting := false, isSystemReady := true) &&
        unchanged(`media, `intervals)
      ensures unchanged(`form, `dpd)
    {
      if !HasContact(form) {
        return None;
      }
      var room := RoomName(form.phone, iso);
      request := Some(BuildPayload(form, dpd, room, false));
      roomName := room;
      if CallAccepted(reply) {
        flags := flags.(isCallActive := true, isOngoingCall := true, isRecording := true,
          isPolling := true, isConnecting := false, isSystemReady := false);
        media := Artifacts("", JNull, JNull);
        StartPolling(room);
      } else {
        flags := flags.(isConnecting := false, isSystemReady := true);
      }
    }

    /** `startPolling(room)`: a new interval, with its latch down. */
    method StartPolling(room: string)
      modifies this`intervals
      ensures intervals == old(intervals) + [PagePoll(room, false, true)]
    {
      intervals := intervals + [PagePoll(room, false, true)];
    }

    /** `fetchMediaFiles(room)`: the recording URL, the transcript and
        the analysis (five attempts), after which the system is ready. */
    method FetchMediaFiles(room: string, transcriptReply: Reply, analysisReplies: nat -> Reply)
      returns (attempts: nat, trace: seq<Effect>)
      requires Valid()
      modifies this
      ensures Valid()
      ensures media.recordingUrl == ProxyUrl(RecordingTarget(room))
      ensures media.transcript == TranscriptAfter(transcriptReply, old(media.transcript))
      ensures exists found ::
        RetryResult(5, analysisReplies, parse, found, attempts) &&
        media.outcome == (if found.Some? then found.value else old(media.outcome))
      ensures trace == [Fetch(ProxyUrl(TranscriptTarget(room)))] + Schedule(ProxyUrl(AnalysisTarget(room)), attempts)
      ensures flags == old(flags).(isSystemReady := true, isLoadingMedia := false)
      ensures unchanged(`form, `dpd, `roomName, `intervals)
    {
      var found;
      media, found, attempts, trace := RetrieveArtifacts(room, media, transcriptReply, analysisReplies, parse);
      flags := flags.(isSystemReady := true, isLoadingMedia := false);
    }

    /** One tick of the poll `id`. A failed tick changes nothing. A good
        tick shows whether the room is listed; when the room is gone and
        the previous good tick saw it, the call ends: the flags drop,
        this poll stops and the artifacts are fetched. Otherwise the
        poll's latch takes the observation. */
    method Tick(id: nat, reply: Reply, transcriptReply: Reply, analysisReplies: nat -> Reply)
      returns (ended: bool, trace: seq<Effect>)
      requires Valid() && Running(id)
      modifies this
      ensures Valid() && |intervals| == old(|intervals|)
      ensures var p := old(intervals[id]);
        ended <==> PageTickObservation(reply, p.room) == Some(false) && p.lastRoomPresent
      ensures var o := PageTickObservation(reply, old(intervals[id].room));
        o.None? ==> unchanged(this) && trace == []
      ensures var p, o := old(intervals[id]), PageTickObservation(reply, old(intervals[id].room));
        o.Some? && !ended ==>
          flags == old(flags).(isOngoingCall := o.value) &&
          intervals == old(intervals)[id := p.(lastRoomPresent := o.value)] &&
          unchanged(`media) && trace == []
      ensures var p := old(intervals[id]);
        ended ==>
          flags == old(flags).(isCallActive := false, isOngoingCall := false, isRecording := false,
            isPolling := false, isSystemReady := true) &&
          intervals == old(intervals)[id := p.(lastRoomPresent := false, running := false)] &&
          media.recordingUrl == ProxyUrl(RecordingTarget(p.room)) &&
          media.transcript == TranscriptAfter(transcriptReply, old(media.transcript)) &&
          exists found, attempts ::
            RetryResult(5, analysisReplies, parse, found, attempts) &&
            media.outcome == (if found.Some? then found.value else old(media.outcome)) &&
            trace == [Fetch(ProxyUrl(TranscriptTarget(p.room)))] + Schedule(ProxyUrl(AnalysisTarget(p.room)), attempts)
      ensures unchanged(`form, `dpd, `roomName)
    {
      var p := intervals[id];
      var o := PageTickObservation(reply, p.room);
      ended, trace := false, [];
      if o.None? {
        return;
      }
      var present := o.value;
      if !present && p.lastRoomPresent {
        flags := flags.(isCallActive := false, isOngoingCall := false, isRecording := false, isPolling := false);
        intervals := intervals[id := p.(lastRoomPresent := false, running := false)];
        var attempts;
        attempts, trace := FetchMediaFiles(p.room, transcriptReply, analysisReplies);
        ended := true;
      } else {
        flags := flags.(isOngoingCall := present);
        intervals := intervals[id := p.(lastRoomPresent := present)];
      }
    }

    /** The poll `id`, fresh, run over the replies of its successive
        ticks: it ends the call at the tick `EndIndex` names, that is at
        the first tick that finds the room gone after a good tick saw it,
        and keeps running when there is none. */
    method RunPoll(id: nat, replies: seq<Reply>, transcriptReply: Reply, analysisReplies: nat -> Reply)
      returns (ended: Option<nat>)
      requires Valid() && Running(id) && !intervals[id].lastRoomPresent
      modifies this
      ensures Valid()
      ensures ended == EndIndex(false, Observations(replies, old(intervals[id].room)))
      ensures ended.Some? <==> !Running(id)
      ensures ended.None? ==>
        intervals[id].lastRoomPresent == LatchAfter(false, Observations(replies, old(intervals[id].room)))
      ensures ended.Some? ==> !flags.isCallActive && !flags.isPolling && flags.isSystemReady
      ensures unchanged(`form, `dpd, `roomName)
    {
      var room := intervals[id].room;
      var obs := Observations(replies, room);
      ended := None;
      var i := 0;
      while i < |replies|
        invariant 0 <= i <= |replies|
        invariant Valid() && id < |intervals| && intervals[id].room == room
        invariant ended == EndIndex(false, obs[..i])
        invariant ended.None? ==> Running(id) && intervals[id].lastRoomPresent == LatchAfter(false, obs[..i])
        invariant ended.Some? ==> !Running(id)
        invariant ended.Some? ==> !flags.isCallActive && !flags.isPolling && flags.isSystemReady
        invariant unchanged(`form, `dpd, `roomName)
        decreases |replies| - i
      {
        assert obs[..i + 1] == obs[..i] + [obs[i]];
        EndIndexSnoc(false, obs[..i], obs[i]);
        LatchAfterSnoc(false, obs[..i], obs[i]);
        if ended.None? {
          var e, _ := Tick(id, replies[i], transcriptReply, analysisReplies);
          if e {
            ended := Some(i);
          }
        }
        i := i + 1;
      }
      assert obs[..i] == obs;
    }

    /** The outcome refresh button, shown while there is no outcome for
        the current room and enabled while nothing loads: one attempt. */
    method RefreshAnalysis(replies: nat -> Reply) returns (attempts: nat, trace: seq<Effect>)
      requires Valid() && !Truthy(media.outcome) && roomName != ""
      modifies this
      ensures Valid()
      ensures exists found ::
        RetryResult(1, replies, parse, found, attempts) &&
        media == old(media).(outcome := if found.Some? then found.value else old(media.outcome))
      ensures trace == Schedule(ProxyUrl(AnalysisTarget(roomName)), attempts)
      ensures unchanged(`form, `flags, `dpd, `roomName, `intervals)
    {
      var found;
      found, attempts, trace := FetchAnalysisWithRetry(roomName, 1, replies, parse);
      if found.Some? {
        media := media.(outcome := found.value);
      }
    }

    /** `endCall()`: every call flag drops and the system is ready, but
        the polls keep running. */
    method EndCall()
      requires Valid()
      modifies this
      ensures Valid()
      ensures flags == old(flags).(isCallActive := false, isOngoingCall := false, isRecording := false,
        isPolling := false, isConnecting := false, isSystemReady := true)
      ensures unchanged(`form, `dpd, `roomName, `media, `intervals)
    {
      flags := flags.(isCallActive := false, isOngoingCall := false, isRecording := false,
        isPolling := false, isConnecting := false, isSystemReady := true);
    }
  }

  /** Ending a call by hand does not stop its poll: a later tick that
      still sees the room marks the call as ongoing again, which turns
      the start button into the disabled "Ongoing Call" one. */
  method EndCallThenTick(d: Dashboard, id: nat, reply: Reply, transcriptReply: Reply, analysisReplies: nat -> Reply)
    returns (startEnabled: bool)
    requires d.Valid() && d.Running(id)
    requires PageTickObservation(reply, d.intervals[id].room) == Some(true)
    modifies d
    ensures d.Valid() && d.flags.isOngoingCall && !d.flags.isCallActive && d.Running(id) && !startEnabled
  {
    d.EndCall();
    var ended, _ := d.Tick(id, reply, transcriptReply, analysisReplies);
    startEnabled := d.StartEnabled();
  }
}
