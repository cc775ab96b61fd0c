/**
 * The overlay of src/components/scanner/ScanResult.tsx as values: the vibration pattern per
 * outcome, the `config` table of colour, icon, animation and title, and the conditions under
 * which the previous-scan time, the visitor card and the day badge are shown. Rendering, the
 * `vibrate` call itself and the auto-dismiss timer are not modelled.
 */
module ScanResult {
  import opened Wrappers
  import opened Api

  datatype ScanStatus = Success | Duplicate | Invalid | Error

  datatype Background = Emerald | Amber | Rose

  datatype Icon = CheckCircle | Clock | XCircle | AlertTriangle

  datatype Animation = PulseSuccess | PulseWarning | PulseError

  datatype Style = Style(bg: Background, icon: Icon, animation: Animation, title: string)

  const SuccessFallback: string := "Check-in réussi"
  const DuplicateFallback: string := "Déjà scanné aujourd'hui"
  const InvalidFallback: string := "Badge non reconnu"
  const ErrorFallback: string := "Erreur de connexion"

  /** The `vibrate` pattern (milliseconds, vibration and pause alternating) of each outcome. */
  function VibrationPattern(status: ScanStatus): (pattern: seq<nat>)
    ensures |pattern| % 2 == 1
    ensures pattern != []
  {
    match status
    case Success => [100, 50, 100, 50, 200]
    case Duplicate => [200, 100, 200]
    case Invalid => [500]
    case Error => [500]
  }

  /** Success and duplicate each feel different; invalid and error share one long buzz. */
  lemma VibrationPatternsDistinguish(a: ScanStatus, b: ScanStatus)
    ensures VibrationPattern(a) == VibrationPattern(b) <==> a == b || ((a.Invalid? || a.Error?) && (b.Invalid? || b.Error?))
  {
  }

  /** `response?.message || fallback`. */
  function MessageOr(response: Option<CheckinResponse>, fallback: string): string {
    if response.Some? && response.value.message != "" then response.value.message else fallback
  }

  /** `config[status]`. */
  function Config(status: ScanStatus, response: Option<CheckinResponse>, errorMessage: Option<string>): (style: Style)
    ensures style.title != ""
    ensures !status.Error? && response.Some? && response.value.message != "" ==> style.title == response.value.message
    ensures status.Error? ==> style.title == (if errorMessage.Some? && errorMessage.value != "" then errorMessage.value else ErrorFallback)
  {
    match status
    case Success => Style(Emerald, CheckCircle, PulseSuccess, MessageOr(response, SuccessFallback))
    case Duplicate => Style(Amber, Clock, PulseWarning, MessageOr(response, DuplicateFallback))
    case Invalid => Style(Rose, XCircle, PulseError, MessageOr(response, InvalidFallback))
    case Error => Style(Rose, AlertTriangle, PulseError, if errorMessage.Some? && errorMessage.value != "" then errorMessage.value else ErrorFallback)
  }

  /** Invalid and error share colour and animation; success and duplicate each have their own. */
  lemma ConfigLooks(a: ScanStatus, b: ScanStatus, ra: Option<CheckinResponse>, rb: Option<CheckinResponse>, ea: Option<string>, eb: Option<string>)
    ensures var sa, sb := Config(a, ra, ea), Config(b, rb, eb);
      (sa.bg == sb.bg <==> sa.animation == sb.animation)
      && (sa.bg == sb.bg <==> a == b || ((a.Invalid? || a.Error?) && (b.Invalid? || b.Error?)))
      && (sa.icon == sb.icon <==> a == b)
  {
  }

  /** The fallback title of each outcome shows when there is no message. */
  lemma ConfigFallbackTitles(response: Option<CheckinResponse>)
    requires response.None? || response.value.message == ""
    ensures Config(Success, response, None).title == SuccessFallback
    ensures Config(Duplicate, response, None).title == DuplicateFallback
    ensures Config(Invalid, response, None).title == InvalidFallback
    ensures Config(Error, response, None).title == ErrorFallback
  {
  }

  /** "Scanné à …" appears only for a duplicate with a non-empty previous-scan time. */
  predicate ShowsPreviousScanTime(status: ScanStatus, response: Option<CheckinResponse>) {
    && status.Duplicate?
    && response.Some? && response.value.scanInfo.Some?
    && response.value.scanInfo.value.previousScanTime.Some?
    && response.value.scanInfo.value.previousScanTime.value != ""
  }

  /** The visitor card appears when the result names a visitor, the company line when it is non-empty. */
  predicate ShowsVisitor(response: Option<CheckinResponse>) {
    response.Some? && response.value.visitor.Some?
  }

  predicate ShowsCompany(response: Option<CheckinResponse>) {
    ShowsVisitor(response) && response.value.visitor.value.company != ""
  }

  /** The day badge needs a non-empty `scanInfo.day`. */
  predicate ShowsDayBadge(response: Option<CheckinResponse>) {
    response.Some? && response.value.scanInfo.Some? && response.value.scanInfo.value.day != ""
  }

  /** On a duplicate from the adapter, the previous time shows exactly when the message holds a timestamp. */
  lemma AdapterDuplicateShowsTimeIffStamped(response: N8nCheckinResponse)
    requires Adapt(response).alreadyToday
    ensures ShowsPreviousScanTime(Duplicate, Some(Adapt(response))) <==> ExtractTimeFromMessage(response.message).Some?
  {
  }

  /** Adapter results never show the day badge or a company line, since both are always empty. */
  lemma AdapterHidesDayAndCompany(response: N8nCheckinResponse)
    ensures !ShowsDayBadge(Some(Adapt(response)))
    ensures !ShowsCompany(Some(Adapt(response)))
  {
  }

  /** Only a new check-in shows the visitor card. */
  lemma AdapterVisitorOnlyOnSuccess(response: N8nCheckinResponse)
    ensures ShowsVisitor(Some(Adapt(response))) <==> response.success && response.data.Some?
  {
  }
}
