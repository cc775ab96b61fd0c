/**
 * The camera scanner of src/components/scanner/QRScanner.tsx: the debounce of `handleScan`
 * over the two refs `lastScanRef`/`lastScanTimeRef`, and the bookkeeping of `scannerRef`,
 * `isScanning` and `error` in `startScanning`, `stopScanning`, the unmount cleanup and the
 * pause/resume effect. The `qr-scanner` library is abstract: its operations are recorded
 * as a sequence of calls, and its answers (camera present, start succeeded) are parameters.
 */
module QrScanner {
  import opened Wrappers

  const DebounceMs: int := 3000

  const NoCameraError: string := "Aucune caméra détectée sur cet appareil."
  const CameraAccessError: string := "Impossible d'accéder à la caméra. Vérifiez les permissions dans les paramètres."

  // ---------------------------------------------------------------------------
  // Debounce
  // ---------------------------------------------------------------------------

  /** The two refs: the last forwarded payload and when it was forwarded. */
  datatype Debounce = Debounce(lastScan: string, lastScanTime: int)

  const InitialDebounce: Debounce := Debounce("", 0)

  /** One decoded frame: its text and the `Date.now()` at which it arrived. */
  datatype ScanEvent = ScanEvent(text: string, time: int)

  /**
   * `handleScan`: a repeat of the last forwarded payload less than 3000 ms after it is dropped
   * and leaves the refs alone; anything else is forwarded verbatim and becomes the new state.
   */
  function Scan(d: Debounce, e: ScanEvent): (r: (Debounce, Option<string>))
    ensures r.1.Some? <==> e.text != d.lastScan || e.time - d.lastScanTime >= DebounceMs
    ensures r.1.Some? ==> r.1.value == e.text && r.0 == Debounce(e.text, e.time)
    ensures r.1.None? ==> r.0 == d
  {
    if e.text == d.lastScan && e.time - d.lastScanTime < DebounceMs then (d, None)
    else (Debounce(e.text, e.time), Some(e.text))
  }

  /** A stream of frames handled one after the other: the final refs and the forwarded frames. */
  function Run(d: Debounce, events: seq<ScanEvent>): (r: (Debounce, seq<ScanEvent>))
    decreases |events|
  {
    if events == [] then (d, [])
    else
      var (d1, forwarded) := Scan(d, events[0]);
      var (final, rest) := Run(d1, events[1..]);
      (final, (if forwarded.Some? then [events[0]] else []) + rest)
  }

  /**
   * Forwarded frames with the same payload as the previous forwarded one (or as the initial
   * refs, for the first) are at least 3000 ms after it.
   */
  predicate Spaced(d: Debounce, forwarded: seq<ScanEvent>) {
    && (forwarded != [] && forwarded[0].text == d.lastScan ==> forwarded[0].time - d.lastScanTime >= DebounceMs)
    && (forall k :: 0 <= k < |forwarded| - 1 && forwarded[k].text == forwarded[k + 1].text ==>
          forwarded[k + 1].time - forwarded[k].time >= DebounceMs)
  }

  /** `sub` is `s` with some elements left out: its elements occur in `s`, in order, each once. */
  predicate SubsequenceOf(sub: seq<ScanEvent>, s: seq<ScanEvent>)
    decreases |s|
  {
    sub == [] ||
    (s != [] && ((sub[0] == s[0] && SubsequenceOf(sub[1..], s[1..])) || SubsequenceOf(sub, s[1..])))
  }

  /** The debounce never lets a payload through twice within 3000 ms of its last forwarding. */
  lemma {:induction false} RunSpaced(d: Debounce, events: seq<ScanEvent>)
    ensures Spaced(d, Run(d, events).1)
    decreases |events|
  {
    if events != [] {
      var (d1, forwarded) := Scan(d, events[0]);
      RunSpaced(d1, events[1..]);
      var rest := Run(d1, events[1..]).1;
      if forwarded.Some? {
        var all := [events[0]] + rest;
        assert Run(d, events).1 == all;
        forall k | 0 <= k < |all| - 1 && all[k].text == all[k + 1].text
          ensures all[k + 1].time - all[k].time >= DebounceMs
        {
          if k > 0 {
            assert all[k] == rest[k - 1] && all[k + 1] == rest[k];
          }
        }
      }
    }
  }

  /** The refs end as the last forwarded frame, or as they started when nothing was forwarded. */
  lemma {:induction false} RunFinal(d: Debounce, events: seq<ScanEvent>)
    ensures var (final, forwarded) := Run(d, events);
      final == if forwarded == [] then d else Debounce(forwarded[|forwarded| - 1].text, forwarded[|forwarded| - 1].time)
    decreases |events|
  {
    if events != [] {
      RunFinal(Scan(d, events[0]).0, events[1..]);
    }
  }

  /** Only input frames are forwarded, each once and in order. */
  lemma {:induction false} RunForwardsInputs(d: Debounce, events: seq<ScanEvent>)
    ensures SubsequenceOf(Run(d, events).1, events)
    decreases |events|
  {
    if events != [] {
      var (d1, forwarded) := Scan(d, events[0]);
      RunForwardsInputs(d1, events[1..]);
      var rest := Run(d1, events[1..]).1;
      if forwarded.Some? {
        assert Run(d, events).1 == [events[0]] + rest;
        assert ([events[0]] + rest)[1..] == rest;
      } else {
        assert Run(d, events).1 == rest;
      }
    }
  }

  /**
   * A badge held in front of the camera for less than 3000 ms is forwarded exactly once, on its
   * first frame, when that first frame gets through.
   */
  lemma {:induction false} HeldBadgeForwardedOnce(d: Debounce, events: seq<ScanEvent>)
    requires events != []
    requires Scan(d, events[0]).1.Some?
    requires forall k :: 0 <= k < |events| ==> events[k].text == events[0].text
    requires forall k :: 0 <= k < |events| ==> events[0].time <= events[k].time < events[0].time + DebounceMs
    ensures Run(d, events).1 == [events[0]]
  {
    var d1 := Scan(d, events[0]).0;
    assert d1 == Debounce(events[0].text, events[0].time);
    forall k | 0 <= k < |events[1..]|
      ensures events[1..][k].text == d1.lastScan && events[1..][k].time - d1.lastScanTime < DebounceMs
    {
      assert events[1..][k] == events[k + 1];
    }
    RunSuppressed(d1, events[1..]);
  }

  /** Frames that all repeat the refs' payload inside its window are all dropped. */
  lemma {:induction false} RunSuppressed(d: Debounce, events: seq<ScanEvent>)
    requires forall k :: 0 <= k < |events| ==> events[k].text == d.lastScan && events[k].time - d.lastScanTime < DebounceMs
    ensures Run(d, events) == (d, [])
    decreases |events|
  {
    if events != [] {
      assert Scan(d, events[0]) == (d, None);
      forall k | 0 <= k < |events[1..]|
        ensures events[1..][k].text == d.lastScan && events[1..][k].time - d.lastScanTime < DebounceMs
      {
        assert events[1..][k] == events[k + 1];
      }
      RunSuppressed(d, events[1..]);
      var empty: seq<ScanEvent> := [];
      assert empty + [] == [];
      assert Run(d, events) == (d, empty + []);
    }
  }

  // ---------------------------------------------------------------------------
  // The scanner instance
  // ---------------------------------------------------------------------------

  /** A call into the `qr-scanner` library on the instance numbered `id`. */
  datatype EngineCall = Create(id: nat) | Start(id: nat) | Pause(id: nat) | Stop(id: nat) | Destroy(id: nat)

  /** The instances created and not yet destroyed by a call history. */
  function Live(calls: seq<EngineCall>): set<nat>
    decreases |calls|
  {
    if calls == [] then {}
    else
      var prior := Live(calls[..|calls| - 1]);
      var c := calls[|calls| - 1];
      if c.Create? then prior + {c.id}
      else if c.Destroy? then prior - {c.id}
      else prior
  }

  /** Every call other than a creation addresses a live instance. */
  predicate TargetsLive(calls: seq<EngineCall>)
    decreases |calls|
  {
    calls == [] ||
    (var prior := calls[..|calls| - 1];
     TargetsLive(prior) && (calls[|calls| - 1].Create? || calls[|calls| - 1].id in Live(prior)))
  }

  lemma CallsSnoc(calls: seq<EngineCall>, c: EngineCall)
    ensures Live(calls + [c]) == if c.Create? then Live(calls) + {c.id} else if c.Destroy? then Live(calls) - {c.id} else Live(calls)
    ensures TargetsLive(calls + [c]) <==> TargetsLive(calls) && (c.Create? || c.id in Live(calls))
  {
    assert (calls + [c])[..|calls|] == calls;
  }

  class QrScannerComponent {
    var isScanning: bool
    var error: Option<string>
    /** `scannerRef.current`: the instance held, if any. */
    var scanner: Option<nat>
    var lastScan: string
    var lastScanTime: int
    /** The library calls made so far, oldest first. */
    var calls: seq<EngineCall>
    /** The number the next created instance gets. */
    var nextId: nat

    function Refs(): Debounce
      reads this
    {
      Debounce(lastScan, lastScanTime)
    }

    function Held(): set<nat>
      reads this
    {
      if scanner.Some? then {scanner.value} else {}
    }

    /**
     * The component holds exactly the instances that are live (so none ever leaks), no call
     * reaches a destroyed instance, and instance numbers are never reused.
     */
    predicate Valid()
      reads this
    {
      && Live(calls) == Held()
      && TargetsLive(calls)
      && (forall i :: 0 <= i < |calls| ==> calls[i].id < nextId)
      && (scanner.Some? ==> scanner.value < nextId)
    }

    constructor ()
      ensures Valid()
      ensures !isScanning && error.None? && scanner.None? && calls == []
      ensures Refs() == InitialDebounce
    {
      isScanning := false;
      error := None;
      scanner := None;
      lastScan := "";
      lastScanTime := 0;
      calls := [];
      nextId := 0;
    }

    /** `handleScan`, for a frame decoded at time `now`; the result is what reaches `onScan`. */
    method HandleScan(text: string, now: int) returns (forwarded: Option<string>)
      modifies this
      ensures (Refs(), forwarded) == Scan(old(Refs()), ScanEvent(text, now))
      ensures isScanning == old(isScanning) && error == old(error) && scanner == old(scanner)
      ensures calls == old(calls) && nextId == old(nextId)
    {
      if text == lastScan && now - lastScanTime < DebounceMs {
        return None;
      }
      lastScan := text;
      lastScanTime := now;
      forwarded := Some(text);
    }

    /** Records one library call. */
    method Call(c: EngineCall)
      requires Valid()
      requires c.Create? ==> scanner.None? && c.id == nextId
      requires !c.Create? ==> scanner == Some(c.id)
      modifies this
      ensures calls == old(calls) + [c]
      ensures scanner == (if c.Create? then Some(c.id) else if c.Destroy? then None else old(scanner))
      ensures nextId == (if c.Create? then old(nextId) + 1 else old(nextId))
      ensures isScanning == old(isScanning) && error == old(error) && Refs() == old(Refs())
      ensures Valid()
    {
      CallsSnoc(calls, c);
      calls := calls + [c];
      if c.Create? {
        scanner := Some(c.id);
        nextId := nextId + 1;
      } else if c.Destroy? {
        scanner := None;
      }
    }

    /**
     * `startScanning`. The library's answers are parameters: `hasVideo` (the video element is
     * mounted), `hasCamera` (`None` when `hasCamera()` throws), `listOk` (`listCameras`
     * resolves), `createOk` (the constructor returns) and `startOk` (`start()` resolves).
     */
    method StartScanning(hasVideo: bool, hasCamera: Option<bool>, listOk: bool, createOk: bool, startOk: bool)
      requires Valid()
      modifies this
      ensures Valid()
      ensures Refs() == old(Refs())
      ensures !hasVideo ==> isScanning == old(isScanning) && error == old(error) && scanner == old(scanner) && calls == old(calls)
      ensures hasVideo && hasCamera != Some(true) ==>
        && error == Some(if hasCamera == Some(false) then NoCameraError else CameraAccessError)
        && isScanning == old(isScanning) && scanner == old(scanner) && calls == old(calls)
      ensures hasVideo && hasCamera == Some(true) && !listOk ==>
        error == Some(CameraAccessError) && isScanning == old(isScanning) && scanner == old(scanner) && calls == old(calls)
      ensures hasVideo && hasCamera == Some(true) && listOk ==>
        && calls == old(calls) + (if old(scanner).Some? then [Destroy(old(scanner).value)] else [])
                               + (if createOk then [Create(old(nextId)), Start(old(nextId))] else [])
        && scanner == (if createOk then Some(old(nextId)) else None)
        && error == (if createOk && startOk then None else Some(CameraAccessError))
        && isScanning == (old(isScanning) || (createOk && startOk))
    {
      if !hasVideo {
        return;
      }
      error := None;
      if hasCamera.None? {
        error := Some(CameraAccessError);
        return;
      }
      if !hasCamera.value {
        error := Some(NoCameraError);
        return;
      }
      if !listOk {
        error := Some(CameraAccessError);
        return;
      }
      Install(createOk, startOk);
    }

    /** The part of `startScanning` after the camera checks: replace the held instance and start it. */
    method Install(createOk: bool, startOk: bool)
      requires Valid()
      modifies this
      ensures Valid()
      ensures Refs() == old(Refs())
      ensures calls == old(calls) + (if old(scanner).Some? then [Destroy(old(scanner).value)] else [])
                                  + (if createOk then [Create(old(nextId)), Start(old(nextId))] else [])
      ensures scanner == (if createOk then Some(old(nextId)) else None)
      ensures error == (if createOk && startOk then old(error) else Some(CameraAccessError))
      ensures isScanning == (old(isScanning) || (createOk && startOk))
    {
      if scanner.Some? {
        Call(Destroy(scanner.value));
      }
      ghost var released := calls;
      if createOk {
        var id := nextId;
        Call(Create(id));
        Call(Start(id));
        assert calls == released + [Create(id), Start(id)];
      }
      if createOk && startOk {
        isScanning := true;
      } else {
        error := Some(CameraAccessError);
      }
    }

    /** `stopScanning`: stop and destroy the held instance, if any; scanning is off afterwards. */
    method StopScanning()
      requires Valid()
      modifies this
      ensures Valid()
      ensures scanner.None? && !isScanning
      ensures calls == old(calls) + (if old(scanner).Some? then [Stop(old(scanner).value), Destroy(old(scanner).value)] else [])
      ensures error == old(error) && Refs() == old(Refs())
    {
      if scanner.Some? {
        var id := scanner.value;
        Call(Stop(id));
        Call(Destroy(id));
      }
      isScanning := false;
    }

    /** The unmount cleanup: destroy the held instance, if any. */
    method Cleanup()
      requires Valid()
      modifies this
      ensures Valid()
      ensures scanner.None?
      ensures calls == old(calls) + (if old(scanner).Some? then [Destroy(old(scanner).value)] else [])
      ensures isScanning == old(isScanning) && error == old(error) && Refs() == old(Refs())
    {
      if scanner.Some? {
        Call(Destroy(scanner.value));
      }
    }

    /**
     * The effect on `[isProcessing, isScanning]`: while scanning with an instance, pause it
     * during processing and start it again afterwards (a rejected restart is ignored).
     */
    method SyncProcessing(isProcessing: bool)
      requires Valid()
      modifies this
      ensures Valid()
      ensures calls == old(calls) + (if old(scanner).Some? && isScanning then [if isProcessing then Pause(old(scanner).value) else Start(old(scanner).value)] else [])
      ensures isScanning == old(isScanning) && error == old(error) && scanner == old(scanner) && Refs() == old(Refs())
    {
      if scanner.None? || !isScanning {
        return;
      }
      if isProcessing {
        Call(Pause(scanner.value));
      } else {
        Call(Start(scanner.value));
      }
    }
  }
}
