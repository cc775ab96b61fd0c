/**
 * The check-in client of src/lib/api.ts: the request it builds, the gate on the HTTP
 * status, and the adapter from the workflow's `{success, message, error_code, data}`
 * reply to the page's `{valid, alreadyToday, message, visitor, scanInfo}` result.
 *
 * The network is not modelled: the reply to a request is a parameter. A JSON field the
 * reply leaves out is `None` when the source tells `undefined` apart from a value, and
 * the falsy value (`""`, `false`) when every reader treats both alike.
 */
module Api {
  import opened Wrappers
  import opened Strings

  const AlreadyCheckedInCode: string := "ALREADY_CHECKED_IN"
  const StatusValidated: string := "Validé"
  const StatusAlreadyScanned: string := "Déjà scanné"
  const InvalidTicketMessage: string := "Ticket non valide"
  const ConnectionError: string := "Erreur de connexion"
  const CheckinUrlMissing: string := "Webhook URL not configured"
  const StatsUrlMissing: string := "Stats URL not configured"
  const StatsRequestFailed: string := "Erreur lors de la récupération des statistiques"

  // ---------------------------------------------------------------------------
  // The page's result shape
  // ---------------------------------------------------------------------------

  datatype Visitor = Visitor(name: string, company: string, email: string)

  datatype ScanInfo = ScanInfo(day: string, timestamp: Option<string>, previousScanTime: Option<string>, status: string)

  /** `alreadyToday` left undefined reads as `false` everywhere it is used. */
  datatype CheckinResponse = CheckinResponse(
    valid: bool,
    alreadyToday: bool,
    message: string,
    visitor: Option<Visitor>,
    scanInfo: Option<ScanInfo>)

  /** What every result of the client satisfies: a duplicate is a known ticket, and a rejection always says why. */
  predicate WellFormed(r: CheckinResponse) {
    && (r.alreadyToday ==> r.valid)
    && (!r.valid ==> r.message != "")
  }

  datatype RecentScan = RecentScan(name: string, company: string, timestamp: string, day: string, email: Option<string>)

  datatype DayCounts = DayCounts(j1: int, j2: int, j3: int)

  datatype Stats = Stats(totalRegistered: int, totalCheckedIn: int, todayCheckedIn: int, byDay: DayCounts)

  datatype StatsResponse = StatsResponse(currentDay: string, stats: Stats, recentScans: seq<RecentScan>, generatedAt: string)

  // ---------------------------------------------------------------------------
  // The workflow's reply shape
  // ---------------------------------------------------------------------------

  datatype N8nData = N8nData(
    ticketId: string,
    name: Option<string>,
    ticketNumber: string,
    email: Option<string>,
    checkedInAt: Option<string>)

  /** `success` absent reads as `false` (only `=== true` is tested); `message` absent reads as `""`. */
  datatype N8nCheckinResponse = N8nCheckinResponse(
    success: bool,
    message: string,
    errorCode: Option<string>,
    data: Option<N8nData>)

  /** `x || ''` on an optional string. */
  function OrEmpty(x: Option<string>): string {
    x.GetOr("")
  }

  /** `x || fallback` on a string: the empty string is falsy. */
  function OrElse(x: string, fallback: string): (r: string)
    ensures x != "" ==> r == x
    ensures x == "" ==> r == fallback
    ensures fallback != "" ==> r != ""
  {
    if x != "" then x else fallback
  }

  // ---------------------------------------------------------------------------
  // extractTimeFromMessage: the regex /(\d{2}\/\d{2}\/\d{4}\s+\d{2}:\d{2}:\d{2})/
  // ---------------------------------------------------------------------------

  predicate IsDate(t: string) {
    && |t| == 10
    && IsDigit(t[0]) && IsDigit(t[1]) && t[2] == '/'
    && IsDigit(t[3]) && IsDigit(t[4]) && t[5] == '/'
    && IsDigit(t[6]) && IsDigit(t[7]) && IsDigit(t[8]) && IsDigit(t[9])
  }

  predicate IsClock(t: string) {
    && |t| == 8
    && IsDigit(t[0]) && IsDigit(t[1]) && t[2] == ':'
    && IsDigit(t[3]) && IsDigit(t[4]) && t[5] == ':'
    && IsDigit(t[6]) && IsDigit(t[7])
  }

  /** `t` as a whole matches `\d{2}\/\d{2}\/\d{4}\s+\d{2}:\d{2}:\d{2}`. */
  predicate IsTimestamp(t: string) {
    && |t| >= 19
    && IsDate(t[..10])
    && AllSpace(t[10..|t| - 8])
    && IsClock(t[|t| - 8..])
  }

  /** No match of the pattern starts in `s` before index `i`. */
  ghost predicate NoMatchBefore(s: string, i: int) {
    forall p, q :: 0 <= p < i && p <= q <= |s| ==> !IsTimestamp(s[p..q])
  }

  /** The length of the run of whitespace in `s` starting at `i`. */
  function SpaceRun(s: string, i: nat): (k: nat)
    requires i <= |s|
    ensures i + k <= |s| && AllSpace(s[i..i + k])
    ensures i + k < |s| ==> !IsSpace(s[i + k])
    decreases |s| - i
  {
    if i < |s| && IsSpace(s[i]) then
      var k := 1 + SpaceRun(s, i + 1);
      assert s[i..i + k] == [s[i]] + s[i + 1..i + k];
      k
    else 0
  }

  /** A match at `p` ending at `q` has the shape the greedy `\s+` dictates: its blank run is the whole run after the date. */
  lemma TimestampShape(s: string, p: int, q: int)
    requires 0 <= p <= q <= |s| && IsTimestamp(s[p..q])
    ensures p + 10 <= |s| && IsDate(s[p..p + 10])
    ensures SpaceRun(s, p + 10) == q - p - 18
    ensures IsClock(s[q - 8..q])
  {
    var t := s[p..q];
    assert t[..10] == s[p..p + 10];
    assert t[|t| - 8..] == s[q - 8..q];
    var m := q - p - 18;
    forall j | p + 10 <= j < q - 8 ensures IsSpace(s[j]) {
      assert t[j - p] == s[j];
      assert t[10..|t| - 8][j - p - 10] == t[j - p];
    }
    assert !IsSpace(s[p + 10 + m]) by { assert s[p + 10 + m] == t[|t| - 8]; }
    SpaceRunExact(s, p + 10, m);
  }

  /** The whitespace run ends at the first non-whitespace character. */
  lemma {:induction false} SpaceRunExact(s: string, i: nat, m: nat)
    requires i + m < |s|
    requires forall j :: i <= j < i + m ==> IsSpace(s[j])
    requires !IsSpace(s[i + m])
    ensures SpaceRun(s, i) == m
    decreases m
  {
    if m > 0 {
      SpaceRunExact(s, i + 1, m - 1);
    }
  }

  /** The shape a match from `p` to `q` must have: a date, then the whole blank run after it, then a clock. */
  predicate MatchShape(s: string, p: int, q: int) {
    && 0 <= p && p + 10 <= |s| && IsDate(s[p..p + 10])
    && var k := SpaceRun(s, p + 10);
       1 <= k && q == p + 18 + k && q <= |s| && IsClock(s[p + 10 + k..q])
  }

  lemma TimestampShapeAll(s: string, p: int)
    requires 0 <= p <= |s|
    ensures forall q :: p <= q <= |s| && IsTimestamp(s[p..q]) ==> MatchShape(s, p, q)
  {
    forall q | p <= q <= |s| && IsTimestamp(s[p..q])
      ensures MatchShape(s, p, q)
    {
      TimestampShape(s, p, q);
    }
  }

  lemma SliceOfSlice(s: string, lo: int, hi: int, a: int, b: int)
    requires 0 <= lo <= hi <= |s| && 0 <= a <= b <= hi - lo
    ensures s[lo..hi][a..b] == s[lo + a..lo + b]
  {
    assert forall i :: 0 <= i < b - a ==> s[lo..hi][a..b][i] == s[lo..hi][a + i] == s[lo + a + i];
  }

  /** A date, a non-empty blank run and a clock, side by side, form a match. */
  lemma MatchFromParts(s: string, p: nat, q: nat)
    requires p + 19 <= q <= |s|
    requires IsDate(s[p..p + 10]) && AllSpace(s[p + 10..q - 8]) && IsClock(s[q - 8..q])
    ensures IsTimestamp(s[p..q])
  {
    var t := s[p..q];
    SliceOfSlice(s, p, q, 0, 10);
    SliceOfSlice(s, p, q, 10, q - p - 8);
    SliceOfSlice(s, p, q, q - p - 8, q - p);
    assert t[..10] == t[0..10];
    assert t[|t| - 8..] == t[q - p - 8..q - p];
  }

  /** Where a match starting at `p` ends, if one does; the end is unique. */
  function MatchEndAt(s: string, p: nat): (r: Option<nat>)
    requires p <= |s|
    ensures r.Some? ==> p + 19 <= r.value <= |s| && IsTimestamp(s[p..r.value])
    ensures forall q :: p <= q <= |s| && IsTimestamp(s[p..q]) ==> r == Some(q)
  {
    TimestampShapeAll(s, p);
    var q := if p + 10 <= |s| then p + 18 + SpaceRun(s, p + 10) else p;
    if MatchShape(s, p, q) then
      MatchFromParts(s, p, q);
      Some(q)
    else None
  }

  /** The leftmost match starting at or after `from`, as a pair of indices. */
  function FindTimestamp(s: string, from: nat): (r: Option<(nat, nat)>)
    requires from <= |s|
    ensures r.Some? ==> from <= r.value.0 && r.value.0 + 19 <= r.value.1 <= |s|
    ensures r.Some? ==> IsTimestamp(s[r.value.0..r.value.1])
    ensures r.Some? ==> forall q :: r.value.0 <= q <= |s| && IsTimestamp(s[r.value.0..q]) ==> q == r.value.1
    ensures r.Some? ==> forall p, q :: from <= p < r.value.0 && p <= q <= |s| ==> !IsTimestamp(s[p..q])
    ensures r.None? ==> forall p, q :: from <= p <= q <= |s| ==> !IsTimestamp(s[p..q])
    decreases |s| - from
  {
    if from + 19 > |s| then None
    else
      match MatchEndAt(s, from)
      case Some(e) => Some((from, e))
      case None => FindTimestamp(s, from + 1)
  }

  /**
   * `extractTimeFromMessage`: the leftmost substring of `message` matching the date-time
   * pattern, taken verbatim, or `None` when no substring matches.
   */
  function ExtractTimeFromMessage(message: string): (r: Option<string>)
    ensures r.None? <==> NoMatchBefore(message, |message| + 1)
    ensures r.Some? ==> IsTimestamp(r.value) && |r.value| >= 19
    ensures r.Some? ==> exists i :: 0 <= i <= |message| - |r.value| && r.value == message[i..i + |r.value|] && NoMatchBefore(message, i)
  {
    match FindTimestamp(message, 0)
    case Some((i, j)) =>
      assert message[i..j] == message[i..i + (j - i)];
      assert NoMatchBefore(message, i);
      Some(message[i..j])
    case None => None
  }

  /** Every match starts with a digit. */
  lemma MatchStartsWithDigit(s: string, p: nat)
    requires p <= |s|
    ensures MatchEndAt(s, p).Some? ==> p < |s| && IsDigit(s[p])
  {
    if MatchEndAt(s, p).Some? {
      var e := MatchEndAt(s, p).value;
      assert s[p..e][..10][0] == s[p];
    }
  }

  /** The search stops at the first start that has a match. */
  lemma {:induction false} FindTimestampReaches(s: string, from: nat, n: nat)
    requires from <= n <= |s| && MatchEndAt(s, n).Some?
    requires forall p :: from <= p < n ==> MatchEndAt(s, p).None?
    ensures FindTimestamp(s, from) == Some((n, MatchEndAt(s, n).value))
    decreases n - from
  {
    assert from + 19 <= n + 19 <= MatchEndAt(s, n).value <= |s|;
    if from < n {
      assert MatchEndAt(s, from).None?;
      assert FindTimestamp(s, from) == FindTimestamp(s, from + 1);
      FindTimestampReaches(s, from + 1, n);
    }
  }

  /** A message whose timestamp is preceded by digit-free text yields exactly that timestamp. */
  lemma ExtractAfterDigitFreeText(prefix: string, stamp: string)
    requires forall i :: 0 <= i < |prefix| ==> !IsDigit(prefix[i])
    requires IsTimestamp(stamp)
    ensures ExtractTimeFromMessage(prefix + stamp) == Some(stamp)
  {
    var s, n := prefix + stamp, |prefix|;
    forall p | 0 <= p < n
      ensures MatchEndAt(s, p).None?
    {
      MatchStartsWithDigit(s, p);
      assert s[p] == prefix[p];
    }
    assert s[n..|s|] == stamp;
    assert MatchEndAt(s, n) == Some(|s|);
    FindTimestampReaches(s, 0, n);
  }

  // ---------------------------------------------------------------------------
  // adaptN8nResponse
  // ---------------------------------------------------------------------------

  /** `response.success === true && response.data`: the only reply that counts as a new check-in. */
  predicate IsCheckinSuccess(response: N8nCheckinResponse) {
    response.success && response.data.Some?
  }

  predicate IsAlreadyCheckedIn(response: N8nCheckinResponse) {
    response.errorCode == Some(AlreadyCheckedInCode)
  }

  /** `adaptN8nResponse`: the well-formed result that classifies the reply as new, duplicate or invalid. */
  function Adapt(response: N8nCheckinResponse): (r: CheckinResponse)
    ensures WellFormed(r)
    ensures r.valid && !r.alreadyToday <==> IsCheckinSuccess(response)
    ensures r.alreadyToday <==> !IsCheckinSuccess(response) && IsAlreadyCheckedIn(response)
    ensures r.visitor.Some? <==> r.valid && !r.alreadyToday
    ensures r.scanInfo.Some? <==> r.valid
    ensures r.scanInfo.Some? ==> r.scanInfo.value.day == ""
    ensures r.valid ==> r.message == response.message
    ensures !r.valid ==> r.message == OrElse(response.message, InvalidTicketMessage)
  {
    if IsCheckinSuccess(response) then
      var d := response.data.value;
      CheckinResponse(
        true, false, response.message,
        Some(Visitor(OrEmpty(d.name), "", OrEmpty(d.email))),
        Some(ScanInfo("", d.checkedInAt, None, StatusValidated)))
    else if IsAlreadyCheckedIn(response) then
      CheckinResponse(
        true, true, response.message,
        None,
        Some(ScanInfo("", None, ExtractTimeFromMessage(response.message), StatusAlreadyScanned)))
    else
      CheckinResponse(false, false, OrElse(response.message, InvalidTicketMessage), None, None)
  }

  lemma AdaptSuccess(response: N8nCheckinResponse)
    requires response.success && response.data.Some?
    ensures var r := Adapt(response);
      && r.valid && !r.alreadyToday
      && r.visitor == Some(Visitor(OrEmpty(response.data.value.name), "", OrEmpty(response.data.value.email)))
      && r.scanInfo.Some? && r.scanInfo.value.status == StatusValidated
      && r.scanInfo.value.timestamp == response.data.value.checkedInAt
  {
  }

  /** `success` without `data` is not a check-in, even with `success` set. */
  lemma AdaptSuccessWithoutData(response: N8nCheckinResponse)
    requires response.data.None?
    ensures Adapt(response) == Adapt(response.(success := false))
    ensures !Adapt(response).valid || Adapt(response).alreadyToday
  {
  }

  lemma AdaptDuplicate(response: N8nCheckinResponse)
    requires !(response.success && response.data.Some?)
    requires response.errorCode == Some(AlreadyCheckedInCode)
    ensures var r := Adapt(response);
      && r.valid && r.alreadyToday && r.visitor.None? && r.message == response.message
      && r.scanInfo == Some(ScanInfo("", None, ExtractTimeFromMessage(response.message), StatusAlreadyScanned))
  {
  }

  lemma AdaptInvalid(response: N8nCheckinResponse)
    requires !(response.success && response.data.Some?)
    requires response.errorCode != Some(AlreadyCheckedInCode)
    ensures var r := Adapt(response);
      && !r.valid && !r.alreadyToday && r.visitor.None? && r.scanInfo.None?
      && r.message == (if response.message == "" then InvalidTicketMessage else response.message)
  {
  }

  // ---------------------------------------------------------------------------
  // checkinByQR / checkinByEmail / getStats
  // ---------------------------------------------------------------------------

  /** What `response.json()` yields: the parsed body, or the parse error it throws. */
  datatype Json<T> = Parsed(value: T) | Malformed(reason: string)

  /** What `fetch` yields: a rejection (network failure), or a reply with its status and body. */
  datatype HttpReply<T> = NetworkFailure(reason: string) | Reply(ok: bool, status: int, body: Json<T>)

  datatype CheckinBody = Barcode(barcode: string, scannedAt: string) | EmailLookup(email: string, scannedAt: string)

  datatype Request = PostCheckin(url: string, body: CheckinBody) | GetStats(url: string)

  /** The request sent, if any, and what the call returned or threw. */
  datatype Call<T> = Call(request: Option<Request>, result: Result<T>)

  /** The shared tail of `checkinByQR` and `checkinByEmail`: the status gate, then the adapter. */
  function CheckinReply(reply: HttpReply<N8nCheckinResponse>): (r: Result<CheckinResponse>)
    ensures r.Ok? ==> WellFormed(r.value)
    ensures r.Ok? ==> reply.Reply? && reply.body.Parsed?
    ensures r.Ok? && !reply.ok && reply.status != 404 ==> !r.value.valid && !r.value.alreadyToday
  {
    match reply
    case NetworkFailure(reason) => Err(reason)
    case Reply(ok, status, body) =>
      match body
      case Malformed(reason) => Err(reason)
      case Parsed(data) =>
        if !ok && status != 404 then
          if data.message != "" then Ok(CheckinResponse(false, false, data.message, None, None))
          else Err(ConnectionError)
        else Ok(Adapt(data))
  }

  lemma GateRejectionWithMessage(status: int, data: N8nCheckinResponse)
    requires status != 404 && data.message != ""
    ensures CheckinReply(Reply(false, status, Parsed(data))) == Ok(CheckinResponse(false, false, data.message, None, None))
  {
  }

  lemma GateRejectionWithoutMessage(status: int, data: N8nCheckinResponse)
    requires status != 404 && data.message == ""
    ensures CheckinReply(Reply(false, status, Parsed(data))) == Err(ConnectionError)
  {
  }

  lemma GatePassesOkAnd404(ok: bool, status: int, data: N8nCheckinResponse)
    requires ok || status == 404
    ensures CheckinReply(Reply(ok, status, Parsed(data))) == Ok(Adapt(data))
  {
  }

  /** `checkinByQR`: nothing is sent without an endpoint; otherwise the scanned text is sent verbatim. */
  function CheckinByQr(checkinUrl: string, qrData: string, scannedAt: string, reply: HttpReply<N8nCheckinResponse>): (c: Call<CheckinResponse>)
    ensures c.request.None? <==> checkinUrl == ""
    ensures c.request.None? ==> c.result == Err(CheckinUrlMissing)
    ensures c.request.Some? ==> c.request.value == PostCheckin(checkinUrl, Barcode(qrData, scannedAt))
    ensures c.request.Some? ==> c.result == CheckinReply(reply)
    ensures c.result.Ok? ==> WellFormed(c.result.value)
  {
    if checkinUrl == "" then Call(None, Err(CheckinUrlMissing))
    else Call(Some(PostCheckin(checkinUrl, Barcode(qrData, scannedAt))), CheckinReply(reply))
  }

  /** `checkinByEmail`: like `CheckinByQr`, but the body carries the lower-cased email. */
  function CheckinByEmail(checkinUrl: string, email: string, scannedAt: string, reply: HttpReply<N8nCheckinResponse>): (c: Call<CheckinResponse>)
    ensures c.request.None? <==> checkinUrl == ""
    ensures c.request.None? ==> c.result == Err(CheckinUrlMissing)
    ensures c.request.Some? ==> c.request.value.PostCheckin? && c.request.value.body.EmailLookup?
    ensures c.request.Some? ==> var sent := c.request.value.body.email;
      |sent| == |email| && (forall i :: 0 <= i < |sent| ==> !('A' <= sent[i] <= 'Z'))
    ensures c.request.Some? ==> c.request.value == PostCheckin(checkinUrl, EmailLookup(Lower(email), scannedAt))
    ensures c.request.Some? ==> c.result == CheckinReply(reply)
    ensures c.result.Ok? ==> WellFormed(c.result.value)
  {
    if checkinUrl == "" then Call(None, Err(CheckinUrlMissing))
    else Call(Some(PostCheckin(checkinUrl, EmailLookup(Lower(email), scannedAt))), CheckinReply(reply))
  }

  /** Emails differing only in letter case produce the same request. */
  lemma CheckinByEmailIgnoresCase(checkinUrl: string, email: string, scannedAt: string, reply: HttpReply<N8nCheckinResponse>)
    ensures CheckinByEmail(checkinUrl, email, scannedAt, reply) == CheckinByEmail(checkinUrl, Lower(email), scannedAt, reply)
  {
    LowerIdempotent(email);
  }

  /** `getStats`: a non-ok status throws before the body is read; only an ok, parsed reply succeeds. */
  function FetchStats(statsUrl: string, reply: HttpReply<StatsResponse>): (c: Call<StatsResponse>)
    ensures c.request.None? <==> statsUrl == ""
    ensures c.request.None? ==> c.result == Err(StatsUrlMissing)
    ensures c.result.Ok? <==> statsUrl != "" && reply.Reply? && reply.ok && reply.body.Parsed?
    ensures c.result.Ok? ==> c.result.value == reply.body.value
    ensures statsUrl != "" && reply.Reply? && !reply.ok ==> c.result == Err(StatsRequestFailed)
  {
    if statsUrl == "" then Call(None, Err(StatsUrlMissing))
    else
      var result :=
        match reply
        case NetworkFailure(reason) => Err(reason)
        case Reply(ok, _, body) =>
          if !ok then Err(StatsRequestFailed)
          else match body
            case Malformed(reason) => Err(reason)
            case Parsed(stats) => Ok(stats);
      Call(Some(GetStats(statsUrl)), result)
  }

  const DuplicateMessage: string := "Ticket déjà scanné le 20/01/2026 14:30:00"

  const DuplicatePrefix: string := "Ticket déjà scanné le "
  const DuplicateStamp: string := "20/01/2026 14:30:00"

  lemma DuplicateMessageParts()
    ensures DuplicatePrefix + DuplicateStamp == DuplicateMessage
    ensures forall i :: 0 <= i < |DuplicatePrefix| ==> !IsDigit(DuplicatePrefix[i])
  {
  }

  lemma DuplicateStampMatches()
    ensures IsTimestamp(DuplicateStamp)
  {
    var stamp := DuplicateStamp;
    assert IsDate(stamp[..10]) by { assert stamp[..10] == "20/01/2026"; }
    assert AllSpace(stamp[10..|stamp| - 8]) by { assert stamp[10..|stamp| - 8] == " "; }
    assert IsClock(stamp[|stamp| - 8..]) by { assert stamp[|stamp| - 8..] == "14:30:00"; }
  }

  /** The example message of the source comment yields its timestamp. */
  lemma DuplicateMessageTime()
    ensures ExtractTimeFromMessage(DuplicateMessage) == Some(DuplicateStamp)
  {
    DuplicateMessageParts();
    DuplicateStampMatches();
    ExtractAfterDigitFreeText(DuplicatePrefix, DuplicateStamp);
  }

  /** The duplicate example: the previous scan time is lifted out of the message verbatim. */
  lemma DuplicateExample()
    ensures var r := Adapt(N8nCheckinResponse(false, DuplicateMessage, Some(AlreadyCheckedInCode), None));
      r.valid && r.alreadyToday && r.scanInfo.Some? && r.scanInfo.value.previousScanTime == Some(DuplicateStamp)
  {
    DuplicateMessageTime();
  }
}
