// Fetching the artifacts of an ended call: the recording URL, the
// transcript, and the analysis with its bounded retry. Network replies are
// inputs: `replies(k)` is what attempt `k` of the analysis fetch gets back.
// The network effects are returned as a trace so that their order and
// number can be stated.

module Retrieval {
  import opened Json
  import opened Call

  /** The pause between two analysis attempts, in milliseconds. */
  const RetryWaitMs: nat := 10000

  datatype Effect = Fetch(url: string) | Sleep(ms: nat)

  function Max0(n: int): nat {
    if n < 0 then 0 else n
  }

  /** The analysis value stored for an accepted body: a body that is a
      JSON string is parsed once more, keeping the string when that parse
      fails; the result is not parsed again, even when it is a string. */
  function Unwrap(body: Json, parse: string -> Option<Json>): Json
  {
    match body
    case JString(s) => (match parse(s) case Some(v) => v case None => body)
    case _ => body
  }

  /** Attempts, one fetch each, with a pause between consecutive ones and
      none before the first or after the last. */
  function Schedule(url: string, attempts: nat): seq<Effect> {
    if attempts == 0 then []
    else if attempts == 1 then [Fetch(url)]
    else Schedule(url, attempts - 1) + [Sleep(RetryWaitMs), Fetch(url)]
  }

  /** A schedule alternates fetch and pause, starting and ending with a
      fetch: `n` attempts make `n` fetches and `n - 1` pauses. */
  lemma {:induction false} ScheduleShape(url: string, n: nat)
    requires n >= 1
    ensures |Schedule(url, n)| == 2 * n - 1
    ensures forall i :: 0 <= i < 2 * n - 1 ==>
      Schedule(url, n)[i] == if i % 2 == 0 then Fetch(url) else Sleep(RetryWaitMs)
  {
    if n > 1 {
      ScheduleShape(url, n - 1);
      var s := Schedule(url, n - 1);
      assert Schedule(url, n) == s + [Sleep(RetryWaitMs), Fetch(url)];
    }
  }

  function Pauses(trace: seq<Effect>): nat {
    if trace == [] then 0 else (if trace[0].Sleep? then 1 else 0) + Pauses(trace[1..])
  }

  lemma {:induction false} PausesAppend(a: seq<Effect>, b: seq<Effect>)
    ensures Pauses(a + b) == Pauses(a) + Pauses(b)
  {
    if a != [] {
      assert (a + b)[1..] == a[1..] + b;
      PausesAppend(a[1..], b);
    } else {
      assert a + b == b;
    }
  }

  /** An analysis that succeeds at attempt `k` has waited `k - 1` times. */
  lemma {:induction false} SchedulePauses(url: string, n: nat)
    ensures Pauses(Schedule(url, n)) == if n == 0 then 0 else n - 1
  {
    if n > 1 {
      SchedulePauses(url, n - 1);
      PausesAppend(Schedule(url, n - 1), [Sleep(RetryWaitMs), Fetch(url)]);
      assert [Sleep(RetryWaitMs), Fetch(url)][1..] == [Fetch(url)];
      assert Pauses([Sleep(RetryWaitMs), Fetch(url)]) == 1;
    } else if n == 1 {
      assert Pauses([Fetch(url)]) == 0;
    }
  }

  /** What the retry promises: `attempts` fetches, none beyond
      `maxRetries`; every attempt before the last was rejected; a found
      value comes from the last attempt's accepted body, unwrapped; and
      nothing is found only when every allowed attempt was rejected. */
  predicate RetryResult(maxRetries: int, replies: nat -> Reply, parse: string -> Option<Json>,
                        found: Option<Json>, attempts: nat)
  {
    attempts <= Max0(maxRetries) &&
    (forall k :: 1 <= k < attempts ==> OkBody(replies(k)).None?) &&
    (found.Some? ==>
      1 <= attempts && OkBody(replies(attempts)).Some? &&
      found.value == Unwrap(OkBody(replies(attempts)).value, parse)) &&
    (found.None? ==>
      attempts == Max0(maxRetries) && (attempts >= 1 ==> OkBody(replies(attempts)).None?))
  }

  /** The retry's outcome is determined by the replies: it stops at the
      first accepted reply, and runs out all attempts otherwise. */
  lemma RetryResultUnique(maxRetries: int, replies: nat -> Reply, parse: string -> Option<Json>,
                          f1: Option<Json>, a1: nat, f2: Option<Json>, a2: nat)
    requires RetryResult(maxRetries, replies, parse, f1, a1)
    requires RetryResult(maxRetries, replies, parse, f2, a2)
    ensures f1 == f2 && a1 == a2
  {
    var r1, r2 := replies(a1), replies(a2);
  }

  /** `fetchAnalysisWithRetry(room, maxRetries)`: up to `maxRetries`
      attempts, stopping at the first ok response whose body parses,
      pausing only between attempts. */
  method FetchAnalysisWithRetry(room: string, maxRetries: int, replies: nat -> Reply,
                                parse: string -> Option<Json>)
    returns (found: Option<Json>, attempts: nat, trace: seq<Effect>)
    ensures RetryResult(maxRetries, replies, parse, found, attempts)
    ensures trace == Schedule(ProxyUrl(AnalysisTarget(room)), attempts)
  {
    var url := ProxyUrl(AnalysisTarget(room));
    found, attempts, trace := None, 0, [];
    var attempt := 1;
    while attempt <= maxRetries
      invariant 1 <= attempt <= Max0(maxRetries) + 1
      invariant attempts == attempt - 1
      invariant forall k :: 1 <= k < attempt ==> OkBody(replies(k)).None?
      invariant trace ==
        if attempts == 0 then []
        else if attempts < maxRetries then Schedule(url, attempts) + [Sleep(RetryWaitMs)]
        else Schedule(url, attempts)
      decreases maxRetries - attempt
    {
      if attempts > 0 {
        assert trace + [Fetch(url)] == Schedule(url, attempts) + [Sleep(RetryWaitMs), Fetch(url)];
      }
      trace := trace + [Fetch(url)];
      attempts := attempt;
      var body := OkBody(replies(attempt));
      if body.Some? {
        found := Some(Unwrap(body.value, parse));
        return;
      }
      if attempt < maxRetries {
        trace := trace + [Sleep(RetryWaitMs)];
      }
      attempt := attempt + 1;
    }
  }

  /** The transcript after its fetch: an ok response whose body parses
      replaces it; a failure leaves it as it was. */
  function TranscriptAfter(reply: Reply, current: Json): Json
  {
    match OkBody(reply)
    case Some(t) => t
    case None => current
  }

  /** The artifacts a controller shows for a call. */
  datatype Artifacts = Artifacts(recordingUrl: string, transcript: Json, outcome: Json)

  /** The body of `fetchMediaFiles(room)` without its loading flags: set
      the recording URL, fetch the transcript (a failure is swallowed),
      then run the analysis retry with five attempts. */
  method RetrieveArtifacts(room: string, current: Artifacts, transcriptReply: Reply,
                           analysisReplies: nat -> Reply, parse: string -> Option<Json>)
    returns (next: Artifacts, found: Option<Json>, attempts: nat, trace: seq<Effect>)
    ensures next.recordingUrl == ProxyUrl(RecordingTarget(room))
    ensures next.transcript == TranscriptAfter(transcriptReply, current.transcript)
    ensures RetryResult(5, analysisReplies, parse, found, attempts)
    ensures next.outcome == if found.Some? then found.value else current.outcome
    ensures trace == [Fetch(ProxyUrl(TranscriptTarget(room)))] + Schedule(ProxyUrl(AnalysisTarget(room)), attempts)
  {
    var transcript := TranscriptAfter(transcriptReply, current.transcript);
    var retryTrace;
    found, attempts, retryTrace := FetchAnalysisWithRetry(room, 5, analysisReplies, parse);
    next := Artifacts(ProxyUrl(RecordingTarget(room)), transcript,
      if found.Some? then found.value else current.outcome);
    trace := [Fetch(ProxyUrl(TranscriptTarget(room)))] + retryTrace;
  }
}
