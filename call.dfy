// The value-level pieces both call-session controllers share: room names,
// the dialled number, the days-past-due figure, the call request payload,
// the replies the controllers receive, the storage URLs they fetch through
// the relay, and what one poll of the room list observes.

module Call {
  import opened Text
  import opened Json
  import opened Uri

  // ---------------------------------------------------------------------
  // Room names

  const RoomPrefix: string := "Test_Campaign_"

  /** The shape of `Date.prototype.toISOString()` for years 0 to 9999:
      `YYYY-MM-DDTHH:mm:ss.sssZ`. */
  predicate IsIsoInstant(s: string) {
    |s| == 24 &&
    s[4] == '-' && s[7] == '-' && s[10] == 'T' && s[13] == ':' && s[16] == ':' &&
    s[19] == '.' && s[23] == 'Z' &&
    forall i :: 0 <= i < 23 && i !in {4, 7, 10, 13, 16, 19} ==> IsDigit(s[i])
  }

  /** The timestamp part of a room name: every `:` and `.` becomes `-`. */
  function SanitizeTimestamp(iso: string): (r: string)
    ensures |r| == |iso| && ':' !in r && '.' !in r
    ensures forall i :: 0 <= i < |iso| && iso[i] != ':' && iso[i] != '.' ==> r[i] == iso[i]
    ensures forall i :: 0 <= i < |iso| && (iso[i] == ':' || iso[i] == '.') ==> r[i] == '-'
  {
    var r := ReplaceChars(iso, {':', '.'}, '-');
    assert forall i :: 0 <= i < |r| ==> r[i] != ':' && r[i] != '.';
    r
  }

  /** Two instants in ISO form that sanitise alike are the same instant:
      the replaced characters sit at fixed positions. */
  lemma SanitizeInjective(a: string, b: string)
    requires IsIsoInstant(a) && IsIsoInstant(b)
    requires SanitizeTimestamp(a) == SanitizeTimestamp(b)
    ensures a == b
  {
    forall i | 0 <= i < 24
      ensures a[i] == b[i]
    {
      if i !in {13, 16, 19} {
        assert i == 23 || i in {4, 7, 10} || IsDigit(a[i]);
        assert SanitizeTimestamp(a)[i] == a[i];
        assert SanitizeTimestamp(b)[i] == b[i];
      }
    }
  }

  /** The room a call is placed in: the campaign prefix, the last ten
      characters of the phone number and the sanitised instant. */
  function RoomName(phone: string, iso: string): string
  {
    RoomPrefix + Last(phone, 10) + "_" + SanitizeTimestamp(iso)
  }

  /** A room name determines the instant it was made at and the last ten
      characters of the phone number: rooms made at different instants
      never coincide, whatever the numbers. */
  lemma RoomNameDetermines(p1: string, i1: string, p2: string, i2: string)
    requires IsIsoInstant(i1) && IsIsoInstant(i2)
    requires RoomName(p1, i1) == RoomName(p2, i2)
    ensures i1 == i2 && Last(p1, 10) == Last(p2, 10)
  {
    var r := RoomName(p1, i1);
    var s1, s2 := SanitizeTimestamp(i1), SanitizeTimestamp(i2);
    assert r == (RoomPrefix + Last(p1, 10) + "_") + s1 == (RoomPrefix + Last(p2, 10) + "_") + s2;
    assert |s1| == |s2| == 24;
    assert r[|r| - 24..] == s1 == s2;
    assert r[..|r| - 24] == RoomPrefix + Last(p1, 10) + "_" == RoomPrefix + Last(p2, 10) + "_";
    assert Last(p1, 10) == r[|RoomPrefix|..|r| - 25] == Last(p2, 10);
    SanitizeInjective(i1, i2);
  }

  // ---------------------------------------------------------------------
  // The dialled number

  /** `payload.number`: a number already starting with `+` is sent as it
      is, any other gets the `+91` country code in front. */
  function DialNumber(phone: string): (r: string)
    ensures |r| >= 1 && r[0] == '+'
    ensures StartsWith(phone, "+") ==> r == phone
    ensures !StartsWith(phone, "+") ==> r == "+91" + phone
  {
    if StartsWith(phone, "+") then phone else "+91" + phone
  }

  /** Dialling an already dialled number changes nothing more. */
  lemma DialNumberIdempotent(phone: string)
    ensures DialNumber(DialNumber(phone)) == DialNumber(phone)
  {
  }

  // ---------------------------------------------------------------------
  // Days past due

  const DayMs: nat := 86400000

  /** The number shown as days past due: the state starts at 0, becomes
      `NaN` when the due date does not parse as a date. */
  datatype Dpd = Days(n: nat) | NaN

  /** `Math.max(0, Math.ceil(diffMs / 86400000))`: the least number of
      whole days covering the elapsed time, 0 when the due date is not
      in the past. */
  function DaysPastDue(diffMs: int): (r: nat)
    ensures r * DayMs >= diffMs
    ensures r == 0 || (r - 1) * DayMs < diffMs
  {
    if diffMs <= 0 then 0 else (diffMs + DayMs - 1) / DayMs
  }

  /** More elapsed time never gives fewer days past due. */
  lemma DaysPastDueMonotone(a: int, b: int)
    requires a <= b
    ensures DaysPastDue(a) <= DaysPastDue(b)
  {
    var x, y := DaysPastDue(a), DaysPastDue(b);
    if x > 0 {
      assert (x - 1) * DayMs < a <= b <= y * DayMs;
    }
  }

  /** A whole number of days elapsed is counted exactly. */
  lemma DaysPastDueWhole(k: nat)
    ensures DaysPastDue(k * DayMs) == k
  {
    var r := DaysPastDue(k * DayMs);
    assert r * DayMs >= k * DayMs;
    if r > 0 {
      assert (r - 1) * DayMs < k * DayMs;
    }
  }

  /** The days-past-due effect: runs only when the due date field is not
      empty; `dueMs` is the due date as parsed by `new Date`, `None` when
      it is not a valid date. */
  function DpdEffect(emiDueDate: string, dueMs: Option<int>, nowMs: int, current: Dpd): Dpd
  {
    if emiDueDate == "" then current
    else match dueMs
      case None => NaN
      case Some(d) => Days(DaysPastDue(nowMs - d))
  }

  /** What the effect stores for a due date that parsed: exactly k days
      once k whole days have passed since it, none while it is still
      ahead, and never fewer days for a later clock. */
  lemma DpdEffectCounts(emiDueDate: string, dueMs: int, nowMs: int, laterMs: int, k: nat, current: Dpd)
    requires emiDueDate != ""
    ensures DpdEffect(emiDueDate, Some(dueMs), dueMs + k * DayMs, current) == Days(k)
    ensures nowMs <= dueMs ==> DpdEffect(emiDueDate, Some(dueMs), nowMs, current) == Days(0)
    ensures nowMs <= laterMs ==>
      DpdEffect(emiDueDate, Some(dueMs), nowMs, current).n <= DpdEffect(emiDueDate, Some(dueMs), laterMs, current).n
  {
    DaysPastDueWhole(k);
    if nowMs <= laterMs {
      DaysPastDueMonotone(nowMs - dueMs, laterMs - dueMs);
    }
  }

  /** The days past due as sent in a request: "NaN", or the count in decimal. */
  function DpdText(d: Dpd): (r: string)
    ensures d.NaN? ==> r == "NaN"
    ensures d.Days? ==> AllDigits(r) && DecimalValue(r) == d.n
  {
    match d
    case NaN => "NaN"
    case Days(n) => DecimalRoundTrip(n); NatToString(n)
  }

  // ---------------------------------------------------------------------
  // Form and payload

  /** The loan form. The console page has no loan type; it stays empty there. */
  datatype FormData = FormData(
    name: string, phone: string, email: string, nbfcName: string,
    originalAmount: string, outstandingAmount: string, emiDueDate: string,
    lastPaymentDate: string, lastPaymentAmount: string, loanType: string)

  datatype Field =
    | Name | Phone | Email | NbfcName | OriginalAmount | OutstandingAmount
    | EmiDueDate | LastPaymentDate | LastPaymentAmount | LoanType

  /** The form with one field replaced by a new value. */
  function WithField(f: FormData, field: Field, value: string): (r: FormData)
    ensures Get(r, field) == value
    ensures forall g :: g != field ==> Get(r, g) == Get(f, g)
  {
    match field
    case Name => f.(name := value)
    case Phone => f.(phone := value)
    case Email => f.(email := value)
    case NbfcName => f.(nbfcName := value)
    case OriginalAmount => f.(originalAmount := value)
    case OutstandingAmount => f.(outstandingAmount := value)
    case EmiDueDate => f.(emiDueDate := value)
    case LastPaymentDate => f.(lastPaymentDate := value)
    case LastPaymentAmount => f.(lastPaymentAmount := value)
    case LoanType => f.(loanType := value)
  }

  function Get(f: FormData, field: Field): string {
    match field
    case Name => f.name
    case Phone => f.phone
    case Email => f.email
    case NbfcName => f.nbfcName
    case OriginalAmount => f.originalAmount
    case OutstandingAmount => f.outstandingAmount
    case EmiDueDate => f.emiDueDate
    case LastPaymentDate => f.lastPaymentDate
    case LastPaymentAmount => f.lastPaymentAmount
    case LoanType => f.loanType
  }

  /** Both controllers place a call only with a name and a phone number. */
  predicate HasContact(f: FormData) {
    f.name != "" && f.phone != ""
  }

  /** The `info` object of a call request; `loanType` is sent only by the
      wizard. */
  datatype CallInfo = CallInfo(
    name: string, email: string, phone: string, nbfcName: string,
    originalAmount: string, outstandingAmount: string, emiDueDate: string,
    dpd: string, lastPaymentDate: string, lastPaymentAmount: string,
    loanType: Option<string>)

  datatype Payload = Payload(number: string, roomname: string, info: CallInfo)

  /** The body posted to the call endpoint. */
  function BuildPayload(f: FormData, dpd: Dpd, room: string, withLoanType: bool): Payload
  {
    Payload(DialNumber(f.phone), room,
      CallInfo(f.name, f.email, f.phone, f.nbfcName, f.originalAmount, f.outstandingAmount,
        f.emiDueDate, DpdText(dpd), f.lastPaymentDate, f.lastPaymentAmount,
        if withLoanType then Some(f.loanType) else None))
  }

  /** Distinct days-past-due values have distinct texts. */
  lemma DpdTextInjective(a: Dpd, b: Dpd)
    requires DpdText(a) == DpdText(b)
    ensures a == b
  {
  }

  /** A payload loses nothing: it determines the room, the days past due
      and every field of the form, except the loan type when that is not
      sent. */
  lemma BuildPayloadInjective(f1: FormData, d1: Dpd, r1: string, f2: FormData, d2: Dpd, r2: string, withLoanType: bool)
    requires BuildPayload(f1, d1, r1, withLoanType) == BuildPayload(f2, d2, r2, withLoanType)
    ensures r1 == r2 && d1 == d2
    ensures withLoanType ==> f1 == f2
    ensures !withLoanType ==> f1.(loanType := "") == f2.(loanType := "")
  {
    DpdTextInjective(d1, d2);
  }

  /** The number in a payload always starts with `+`, and the phone the
      form held is recoverable from the payload. */
  lemma PayloadNumber(f: FormData, dpd: Dpd, room: string, withLoanType: bool)
    ensures var p := BuildPayload(f, dpd, room, withLoanType);
      p.number[0] == '+' &&
      (p.number == p.info.phone || p.number == "+91" + p.info.phone) &&
      (p.number == p.info.phone <==> StartsWith(p.info.phone, "+"))
  {
    var p := BuildPayload(f, dpd, room, withLoanType);
    if !StartsWith(f.phone, "+") {
      assert StartsWith(p.number, "+");
    }
  }

  // ---------------------------------------------------------------------
  // Replies

  /** What a `fetch` gives back: a network failure (the promise rejects),
      or a response with its status and, when the body is valid JSON,
      the parsed body (`None` when `.json()` would throw). */
  datatype Reply = NetworkError | Response(status: int, body: Option<Json>)

  /** A status in the 200 to 299 range counts as a successful response. */
  predicate IsOk(status: int) {
    200 <= status <= 299
  }

  /** The call endpoint accepted the request: exactly status 200. */
  predicate CallAccepted(reply: Reply) {
    reply.Response? && reply.status == 200
  }

  /** The parsed body of an ok response; `None` for a failure, a non-ok
      status or a body that is not JSON. */
  function OkBody(reply: Reply): (r: Option<Json>)
    ensures r.Some? <==> reply.Response? && IsOk(reply.status) && reply.body.Some?
    ensures r.Some? ==> r == reply.body
  {
    if reply.Response? && IsOk(reply.status) then reply.body else None
  }

  // ---------------------------------------------------------------------
  // Storage URLs, fetched through the relay endpoint

  const BlobBase: string := "https://livekitblob.blob.core.windows.net/livekitblob/"
  const ProxyPrefix: string := "/api/proxy?url="

  function ProxyUrl(target: string): string {
    ProxyPrefix + EncodeURIComponent(target)
  }

  function RecordingTarget(room: string): string {
    BlobBase + room + ".mp4"
  }

  function TranscriptTarget(room: string): string {
    BlobBase + "transcripts/" + room + ".json"
  }

  function AnalysisTarget(room: string): string {
    BlobBase + "analysis/" + room + ".json"
  }

  /** The relay gets back exactly the storage URL it was handed. */
  lemma ProxyUrlRecovers(target: string)
    ensures ProxyUrl(target)[..|ProxyPrefix|] == ProxyPrefix
    ensures Unescape(ProxyUrl(target)[|ProxyPrefix|..]) == Some(Utf8(target))
    ensures Utf8Decode(Utf8(target)) == Some(target)
  {
    assert ProxyUrl(target)[|ProxyPrefix|..] == EncodeURIComponent(target);
    DecodeEncode(target);
  }

  /** Different storage URLs give different relay URLs. */
  lemma ProxyUrlInjective(a: string, b: string)
    requires ProxyUrl(a) == ProxyUrl(b)
    ensures a == b
  {
    ProxyUrlRecovers(a);
    ProxyUrlRecovers(b);
    assert ProxyUrl(a)[|ProxyPrefix|..] == ProxyUrl(b)[|ProxyPrefix|..];
  }

  /** The recording, transcript and analysis of one room are three
      different files. */
  lemma ArtifactTargetsDistinct(room: string)
    ensures RecordingTarget(room) != TranscriptTarget(room)
    ensures RecordingTarget(room) != AnalysisTarget(room)
    ensures TranscriptTarget(room) != AnalysisTarget(room)
  {
    var rec, tr, an := RecordingTarget(room), TranscriptTarget(room), AnalysisTarget(room);
    assert rec[|rec| - 4..] == ".mp4";
    assert tr[|tr| - 5..] == ".json" && an[|an| - 5..] == ".json";
    assert rec[|rec| - 2] == 'p' && tr[|tr| - 2] == 'o' && an[|an| - 2] == 'o';
    assert tr[|BlobBase|] == 't' && an[|BlobBase|] == 'a';
  }

  // ---------------------------------------------------------------------
  // One poll of the room list

  /** The element `r`, not `null`, has the name `room`. */
  predicate NamedAs(r: Json, room: string) {
    Property(r, "name") == Some(JString(room))
  }

  /** `rooms.some(r => r.name === room)`, `None` when it reaches a `null`
      element before a match (reading `.name` of `null` throws). */
  function SomeNamed(rooms: seq<Json>, room: string): (r: Option<bool>)
  {
    if rooms == [] then Some(false)
    else if rooms[0].JNull? then None
    else if NamedAs(rooms[0], room) then Some(true)
    else SomeNamed(rooms[1..], room)
  }

  /** The element at `i` bears the name and no `null` comes before it. */
  predicate HitAt(rooms: seq<Json>, room: string, i: int) {
    0 <= i < |rooms| && NamedAs(rooms[i], room) && forall j :: 0 <= j < i ==> !rooms[j].JNull?
  }

  /** No element is `null` and none bears the name. */
  predicate NoHitNoNull(rooms: seq<Json>, room: string) {
    forall i :: 0 <= i < |rooms| ==> !rooms[i].JNull? && !NamedAs(rooms[i], room)
  }

  lemma HitShift(rooms: seq<Json>, room: string, i: int)
    requires rooms != [] && !rooms[0].JNull? && !NamedAs(rooms[0], room) && 1 <= i
    ensures HitAt(rooms, room, i) <==> HitAt(rooms[1..], room, i - 1)
  {
    if i < |rooms| {
      assert rooms[i] == rooms[1..][i - 1];
      if HitAt(rooms[1..], room, i - 1) {
        forall j | 0 <= j < i ensures !rooms[j].JNull? {
          if j > 0 { assert rooms[j] == rooms[1..][j - 1]; }
        }
      }
      if HitAt(rooms, room, i) {
        forall j | 0 <= j < i - 1 ensures !rooms[1..][j].JNull? {
          assert rooms[1..][j] == rooms[j + 1];
        }
      }
    }
  }

  lemma {:induction false} SomeNamedTrue(rooms: seq<Json>, room: string)
    ensures SomeNamed(rooms, room) == Some(true) <==> exists i :: HitAt(rooms, room, i)
  {
    if rooms != [] && !rooms[0].JNull? && !NamedAs(rooms[0], room) {
      SomeNamedTrue(rooms[1..], room);
      if exists i :: HitAt(rooms, room, i) {
        var i :| HitAt(rooms, room, i);
        HitShift(rooms, room, i);
      }
      if exists i :: HitAt(rooms[1..], room, i) {
        var i :| HitAt(rooms[1..], room, i);
        HitShift(rooms, room, i + 1);
      }
    } else if rooms != [] && !rooms[0].JNull? {
      assert HitAt(rooms, room, 0);
    }
  }

  lemma {:induction false} SomeNamedFalse(rooms: seq<Json>, room: string)
    ensures SomeNamed(rooms, room) == Some(false) <==> NoHitNoNull(rooms, room)
  {
    if rooms != [] {
      SomeNamedFalse(rooms[1..], room);
      if NoHitNoNull(rooms, room) {
        forall i | 0 <= i < |rooms[1..]| ensures !rooms[1..][i].JNull? && !NamedAs(rooms[1..][i], room) {
          assert rooms[1..][i] == rooms[i + 1];
        }
      }
      if !rooms[0].JNull? && !NamedAs(rooms[0], room) && NoHitNoNull(rooms[1..], room) {
        forall i | 0 <= i < |rooms| ensures !rooms[i].JNull? && !NamedAs(rooms[i], room) {
          if i > 0 { assert rooms[i] == rooms[1..][i - 1]; }
        }
      }
    }
  }

  /** `some` answers true exactly when a room of that name comes before
      any `null` element, false exactly when there is neither a match nor
      a `null`, and throws otherwise. */
  lemma SomeNamedSpec(rooms: seq<Json>, room: string)
    ensures SomeNamed(rooms, room) == Some(true) <==>
      exists i :: 0 <= i < |rooms| && NamedAs(rooms[i], room) &&
        forall j :: 0 <= j < i ==> !rooms[j].JNull?
    ensures SomeNamed(rooms, room) == Some(false) <==>
      forall i :: 0 <= i < |rooms| ==> !rooms[i].JNull? && !NamedAs(rooms[i], room)
  {
    SomeNamedTrue(rooms, room);
    SomeNamedFalse(rooms, room);
    if exists i :: 0 <= i < |rooms| && NamedAs(rooms[i], room) && forall j :: 0 <= j < i ==> !rooms[j].JNull? {
      var i :| 0 <= i < |rooms| && NamedAs(rooms[i], room) && forall j :: 0 <= j < i ==> !rooms[j].JNull?;
      assert HitAt(rooms, room, i);
    }
  }

  /** A `null` element comes at `i`, before any element bearing the name. */
  predicate NullFirst(rooms: seq<Json>, room: string, i: int) {
    0 <= i < |rooms| && rooms[i].JNull? && forall j :: 0 <= j < i ==> !NamedAs(rooms[j], room)
  }

  /** `some` throws exactly when it meets a `null` element before a match. */
  lemma {:induction false} SomeNamedNone(rooms: seq<Json>, room: string)
    ensures SomeNamed(rooms, room).None? <==> exists i :: NullFirst(rooms, room, i)
  {
    if rooms != [] {
      if rooms[0].JNull? {
        assert NullFirst(rooms, room, 0);
      } else if !NamedAs(rooms[0], room) {
        SomeNamedNone(rooms[1..], room);
        if exists i :: NullFirst(rooms, room, i) {
          var i :| NullFirst(rooms, room, i);
          assert NullFirst(rooms[1..], room, i - 1) by {
            assert rooms[1..][i - 1] == rooms[i];
            forall j | 0 <= j < i - 1 ensures !NamedAs(rooms[1..][j], room) {
              assert rooms[1..][j] == rooms[j + 1];
            }
          }
        }
        if exists i :: NullFirst(rooms[1..], room, i) {
          var i :| NullFirst(rooms[1..], room, i);
          assert NullFirst(rooms, room, i + 1) by {
            assert rooms[i + 1] == rooms[1..][i];
            forall j | 0 <= j < i + 1 ensures !NamedAs(rooms[j], room) {
              if j > 0 { assert rooms[j] == rooms[1..][j - 1]; }
            }
          }
        }
      }
    }
  }

  /** The room list of a poll reply, when it is an array. */
  function RoomList(data: Json): Option<seq<Json>> {
    match Property(data, "rooms")
    case Some(JArray(rs)) => Some(rs)
    case _ => None
  }

  /** What a successful poll of the wizard observes: whether the room is
      listed (`data.rooms && Array.isArray(data.rooms) && data.rooms.some(…)`
      read as a truth value), `None` when evaluating it throws. */
  function RoomPresent(data: Json, room: string): (r: Option<bool>)
    ensures data.JNull? ==> r.None?
    ensures !data.JNull? && !(Property(data, "rooms").Some? && Property(data, "rooms").value.JArray?) ==>
      r == Some(false)
  {
    if data.JNull? then None
    else match Property(data, "rooms")
      case Some(JArray(rs)) => SomeNamed(rs, room)
      case _ => Some(false)
  }

  /** What a successful poll of the console page observes. The page also
      logs `data.rooms?.map(r => r.name)`, which throws on a `null`
      element anywhere and on a `rooms` that is present, not `null` and
      not an array. */
  function PageRoomPresent(data: Json, room: string): Option<bool>
  {
    if data.JNull? then None
    else match Property(data, "rooms")
      case None => Some(false)
      case Some(JNull) => Some(false)
      case Some(JArray(rs)) =>
        if exists i :: 0 <= i < |rs| && rs[i].JNull? then None else SomeNamed(rs, room)
      case Some(_) => None
  }

  /** Whenever the page's poll gets an answer, the wizard's poll gets the
      same one; the page only fails more often. */
  lemma PageRoomPresentAgrees(data: Json, room: string)
    ensures PageRoomPresent(data, room).Some? ==> PageRoomPresent(data, room) == RoomPresent(data, room)
  {
  }

  /** On a well-formed room list (an array without `null` elements) both
      pollers answer whether some room bears the name. */
  lemma RoomPresentOnRoomList(data: Json, room: string)
    requires data.JObject? && Property(data, "rooms").Some? && Property(data, "rooms").value.JArray?
    requires forall e :: e in Property(data, "rooms").value.elems ==> !e.JNull?
    ensures var rs := Property(data, "rooms").value.elems;
      RoomPresent(data, room) == PageRoomPresent(data, room) ==
      Some(exists i :: 0 <= i < |rs| && NamedAs(rs[i], room))
  {
    var rs := Property(data, "rooms").value.elems;
    SomeNamedSpec(rs, room);
    assert forall i :: 0 <= i < |rs| ==> !rs[i].JNull? by {
      forall i | 0 <= i < |rs| ensures !rs[i].JNull? { assert rs[i] in rs; }
    }
  }

  /** A poll tick's observation in the wizard: `None` for a failed tick
      (network failure, non-ok status, unparsable body, or a throw while
      reading the body), otherwise whether the room is listed. */
  function TickObservation(reply: Reply, room: string): Option<bool>
  {
    match OkBody(reply)
    case None => None
    case Some(data) => RoomPresent(data, room)
  }

  /** A poll tick's observation on the console page. */
  function PageTickObservation(reply: Reply, room: string): Option<bool>
  {
    match OkBody(reply)
    case None => None
    case Some(data) => PageRoomPresent(data, room)
  }

  /** What one tick of the wizard's poll observes, from the reply alone:
      it fails exactly when the request fails, the body is `null`, or the
      room list holds a `null` before any room of that name; it sees the
      room exactly when an ok reply lists a room of that name before any
      `null`; otherwise (no room list, or no such room) it sees absence. */
  lemma TickObservationSpec(reply: Reply, room: string)
    ensures var r, b := TickObservation(reply, room), OkBody(reply);
      (r.None? <==>
        b.None? || b.value.JNull? ||
        (RoomList(b.value).Some? && exists i :: NullFirst(RoomList(b.value).value, room, i))) &&
      (r == Some(true) <==>
        b.Some? && RoomList(b.value).Some? && exists i :: HitAt(RoomList(b.value).value, room, i))
  {
    var b := OkBody(reply);
    if b.Some? && RoomList(b.value).Some? {
      SomeNamedNone(RoomList(b.value).value, room);
      SomeNamedTrue(RoomList(b.value).value, room);
    }
  }

  /** Whenever a tick of the console page observes something, a tick of
      the wizard on the same reply observes the same. */
  lemma TickObservationsAgree(reply: Reply, room: string)
    ensures PageTickObservation(reply, room).Some? ==>
      PageTickObservation(reply, room) == TickObservation(reply, room)
  {
    if OkBody(reply).Some? {
      PageRoomPresentAgrees(OkBody(reply).value, room);
    }
  }
}
