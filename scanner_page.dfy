/**
 * The orchestration of src/pages/Scanner.tsx: the two check-in channels (camera and e-mail
 * search), each guarded by its own busy flag, the classification of a result into an
 * outcome, the stats refetch after a new check-in, the stats snapshot of `fetchStats`, and
 * dismissing the overlay. Each asynchronous handler is split at its `await` into a
 * `Begin…` method (guard and flag) and a `Complete…` method (result, refetch, `finally`).
 */
module ScannerPage {
  import opened Wrappers
  import opened Api
  import opened ScanResult

  /** The camera handler's chain: not valid and not a duplicate is invalid, then duplicate, then success. */
  function ClassifyQr(r: CheckinResponse): (status: ScanStatus)
    ensures !status.Error?
    ensures status.Invalid? <==> !r.valid && !r.alreadyToday
    ensures status.Duplicate? <==> r.alreadyToday
    ensures status.Success? <==> r.valid && !r.alreadyToday
  {
    if !r.valid && !r.alreadyToday then Invalid
    else if r.alreadyToday then Duplicate
    else Success
  }

  /** The e-mail handler's chain: not valid is invalid, then duplicate, then success. */
  function ClassifyEmail(r: CheckinResponse): (status: ScanStatus)
    ensures !status.Error?
    ensures status.Invalid? <==> !r.valid
    ensures status.Duplicate? <==> r.valid && r.alreadyToday
    ensures status.Success? <==> r.valid && !r.alreadyToday
  {
    if !r.valid then Invalid
    else if r.alreadyToday then Duplicate
    else Success
  }

  /** The two chains differ exactly on a duplicate that is not valid, which no client result is. */
  lemma ChannelsDifferOnlyOnInvalidDuplicates(r: CheckinResponse)
    ensures ClassifyQr(r) != ClassifyEmail(r) <==> r.alreadyToday && !r.valid
    ensures WellFormed(r) ==> ClassifyQr(r) == ClassifyEmail(r)
  {
  }

  /**
   * For the same reply from the webhook, the two check-in calls produce the same result, and
   * the two channels classify it the same way.
   */
  lemma ChannelsAgreeOnClientResults(checkinUrl: string, qrData: string, email: string, scannedAt: string, reply: HttpReply<N8nCheckinResponse>)
    ensures CheckinByQr(checkinUrl, qrData, scannedAt, reply).result == CheckinByEmail(checkinUrl, email, scannedAt, reply).result
    ensures var result := CheckinByQr(checkinUrl, qrData, scannedAt, reply).result;
      result.Ok? ==> ClassifyQr(result.value) == ClassifyEmail(result.value)
  {
  }

  datatype Channel = Camera | EmailSearch

  /** The `scanResult` state: the outcome shown in the overlay. */
  datatype ScanOutcome = ScanOutcome(status: ScanStatus, response: Option<CheckinResponse>, errorMessage: Option<string>)

  /**
   * What a handler shows for the settled call: the classified response, or, for a call that
   * threw, the error status with the error's message.
   */
  function Outcome(channel: Channel, result: Result<CheckinResponse>): (o: ScanOutcome)
    ensures o.status.Error? <==> result.Err?
    ensures result.Err? ==> o.response.None? && o.errorMessage == Some(result.error)
    ensures result.Ok? ==> o.response == Some(result.value) && o.errorMessage.None?
    ensures result.Ok? ==> o.status == (if channel.Camera? then ClassifyQr(result.value) else ClassifyEmail(result.value))
  {
    match result
    case Ok(response) => ScanOutcome(if channel.Camera? then ClassifyQr(response) else ClassifyEmail(response), Some(response), None)
    case Err(message) => ScanOutcome(Error, None, Some(message))
  }

  /** Only a new check-in asks for fresh stats. */
  predicate Refetches(o: ScanOutcome) {
    o.status.Success?
  }

  lemma RefetchOnlyOnNewCheckin(channel: Channel, result: Result<CheckinResponse>)
    ensures Refetches(Outcome(channel, result)) <==> result.Ok? && result.value.valid && !result.value.alreadyToday
  {
  }

  /** The end-to-end camera path for a first scan of a known ticket. */
  lemma FirstScanShowsVisitor(checkinUrl: string, qrData: string, scannedAt: string, data: N8nData)
    requires checkinUrl != ""
    ensures var reply := Reply(true, 200, Parsed(N8nCheckinResponse(true, "Check-in OK", None, Some(data))));
      var o := Outcome(Camera, CheckinByQr(checkinUrl, qrData, scannedAt, reply).result);
      && o.status.Success? && Refetches(o)
      && o.response.Some? && o.response.value.visitor == Some(Visitor(OrEmpty(data.name), "", OrEmpty(data.email)))
      && Config(o.status, o.response, o.errorMessage).title == "Check-in OK"
  {
  }

  /**
   * The end-to-end path of a webhook rejection without a message: a connection error in either
   * channel, the camera posting the scanned text and the search posting the e-mail.
   */
  lemma SilentRejectionIsConnectionError(channel: Channel, checkinUrl: string, qrData: string, email: string, scannedAt: string, status: int, data: N8nCheckinResponse)
    requires checkinUrl != "" && status != 404 && data.message == ""
    ensures var reply := Reply(false, status, Parsed(data));
      var call := if channel == Camera then CheckinByQr(checkinUrl, qrData, scannedAt, reply)
                  else CheckinByEmail(checkinUrl, email, scannedAt, reply);
      var o := Outcome(channel, call.result);
      && o.status.Error? && !Refetches(o)
      && Config(o.status, o.response, o.errorMessage).title == ConnectionError
  {
  }

  class Page {
    var todayCount: int
    var totalCount: int
    var currentDay: string
    var recentScans: seq<RecentScan>
    var isLoadingStats: bool
    var isProcessing: bool
    var isSearching: bool
    var scanResult: Option<ScanOutcome>
    /** The number of `fetchStats()` calls fired after a check-in. */
    var refetches: nat

    constructor ()
      ensures todayCount == 0 && totalCount == 0 && currentDay == "J1" && recentScans == []
      ensures isLoadingStats && !isProcessing && !isSearching && scanResult.None? && refetches == 0
    {
      todayCount := 0;
      totalCount := 0;
      currentDay := "J1";
      recentScans := [];
      isLoadingStats := true;
      isProcessing := false;
      isSearching := false;
      scanResult := None;
      refetches := 0;
    }

    /** The busy flag of a channel. */
    function Busy(channel: Channel): bool
      reads this
    {
      if channel.Camera? then isProcessing else isSearching
    }

    /**
     * The start of `handleQRScan` / `handleEmailSearch`: a call while the channel is busy is
     * ignored; otherwise the channel becomes busy and the request goes out. The other
     * channel's flag and everything else stay as they were.
     */
    method Begin(channel: Channel) returns (started: bool)
      modifies this
      ensures started <==> !old(Busy(channel))
      ensures Busy(channel)
      ensures channel.Camera? ==> isSearching == old(isSearching)
      ensures channel.EmailSearch? ==> isProcessing == old(isProcessing)
      ensures scanResult == old(scanResult) && refetches == old(refetches)
      ensures todayCount == old(todayCount) && totalCount == old(totalCount) && currentDay == old(currentDay)
      ensures recentScans == old(recentScans) && isLoadingStats == old(isLoadingStats)
    {
      if Busy(channel) {
        return false;
      }
      if channel.Camera? {
        isProcessing := true;
      } else {
        isSearching := true;
      }
      started := true;
    }

    /**
     * The rest of a handler once its call settles: show the outcome, fire a stats refetch on a
     * new check-in, and clear the channel's flag on every path.
     */
    method Complete(channel: Channel, result: Result<CheckinResponse>)
      modifies this
      ensures scanResult == Some(Outcome(channel, result))
      ensures refetches == old(refetches) + (if Refetches(Outcome(channel, result)) then 1 else 0)
      ensures !Busy(channel)
      ensures channel.Camera? ==> isSearching == old(isSearching)
      ensures channel.EmailSearch? ==> isProcessing == old(isProcessing)
      ensures todayCount == old(todayCount) && totalCount == old(totalCount) && currentDay == old(currentDay)
      ensures recentScans == old(recentScans) && isLoadingStats == old(isLoadingStats)
    {
      var outcome := Outcome(channel, result);
      scanResult := Some(outcome);
      if outcome.status.Success? {
        refetches := refetches + 1;
      }
      if channel.Camera? {
        isProcessing := false;
      } else {
        isSearching := false;
      }
    }

    /** `fetchStats` once `getStats` settles: a snapshot replaces all four fields, a failure none. */
    method ApplyStats(result: Result<StatsResponse>)
      modifies this
      ensures !isLoadingStats
      ensures result.Ok? ==>
        && todayCount == result.value.stats.todayCheckedIn
        && totalCount == result.value.stats.totalCheckedIn
        && currentDay == result.value.currentDay
        && recentScans == result.value.recentScans
      ensures result.Err? ==>
        todayCount == old(todayCount) && totalCount == old(totalCount) && currentDay == old(currentDay) && recentScans == old(recentScans)
      ensures isProcessing == old(isProcessing) && isSearching == old(isSearching)
      ensures scanResult == old(scanResult) && refetches == old(refetches)
    {
      if result.Ok? {
        var snapshot := result.value;
        todayCount := snapshot.stats.todayCheckedIn;
        totalCount := snapshot.stats.totalCheckedIn;
        currentDay := snapshot.currentDay;
        recentScans := snapshot.recentScans;
      }
      isLoadingStats := false;
    }

    /** `handleDismissResult`. */
    method Dismiss()
      modifies this
      ensures scanResult.None?
      ensures isProcessing == old(isProcessing) && isSearching == old(isSearching) && refetches == old(refetches)
      ensures todayCount == old(todayCount) && totalCount == old(totalCount) && currentDay == old(currentDay)
      ensures recentScans == old(recentScans) && isLoadingStats == old(isLoadingStats)
    {
      scanResult := None;
    }
  }
}
