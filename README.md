# clinica-scanner core, modelled in Dafny

clinica-scanner is a badge-scanning web app for event check-in. A staff member signs in with a
Google account whose address is on an allow-list. They scan visitors' QR badges with the device
camera, or look a visitor up by e-mail. Each scan is posted to a check-in webhook, and each reply
is shown as a full-screen overlay (new check-in, already scanned today, invalid ticket, error)
beside the day's statistics.

This project models the deterministic logic of that app and proves properties of it:

- `Strings` (`strings.dfy`): the JavaScript string operations the code relies on.
  - `split` on one character, with `"".split(",")` giving `[""]`.
  - `trim` over the exact ECMAScript WhiteSpace and LineTerminator set.
  - `toLowerCase`, for ASCII letters.
  - A global one-character `replace`.
  - The regex classes `\s` and `\d`.
- `Api` (`api.dfy`):
  - `adaptN8nResponse`, which maps the webhook's `{success, message, error_code, data}` object onto `{valid, alreadyToday, message, visitor, scanInfo}`;
  - `extractTimeFromMessage`, the leftmost regex match of a `dd/dd/dddd<ws+>dd:dd:dd` timestamp;
  - the HTTP status gate of `checkinByQR`/`checkinByEmail`;
  - the request each call builds and the missing-URL errors;
  - `getStats`.
- `GoogleAuth` (`google_auth.dfy`): `isEmailAllowed`, plus `decodeJwt`'s choice of the second dot segment and its base64url-to-base64 translation.
- `QrScanner` (`qr_scanner.dfy`): the 3000 ms debounce of `handleScan` as a pure step. A class holds the component's fields (`isScanning`, `error`, the scanner instance and the two debounce refs) and records the calls it makes into the scanner library. Its invariant says that no instance leaks and that no call reaches a destroyed instance.
- `ScannerPage` (`scanner_page.dfy`): the two classification chains, an outcome per settled call, the per-channel busy flags, the stats refetch after a new check-in, the stats snapshot and dismissing the overlay.
- `Auth` (`auth_context.dfy`): `checkSession`, `login`, `logout` and `clearError`, over one abstract storage slot, with a 24-hour session.
- `ScanResult`, `ManualSearch` and `Utils`:
  - the overlay's vibration patterns, style table and visibility conditions;
  - the manual-search submit guard;
  - the French branch of `formatTime`.

`Wrappers` holds `Option` and `Result`.

Library calls the model cannot see are parameters:

- `Date.now()` is `now`.
- The webhook's reply is an `HttpReply` value.
- Base64 decoding, percent decoding and `JSON.parse` of a token payload are `decodePayload`.
- `new Date(...)` with `toLocaleTimeString('fr-FR')` is `localeTime`.
- The camera library's answers are booleans.

Where the design description and the code disagree, the model follows the code:

- The design says the allow-list test is whitespace-insensitive on both sides. The code (src/lib/google-auth.ts:102-103) trims only the configured entries, so a padded candidate is always refused (`GoogleAuth.UntrimmedCandidateRejected`).
- The design says an empty configuration rejects everyone. The code's list is then `[""]`, so the empty address is admitted (`GoogleAuth.EmptyConfigurationAdmitsOnlyEmpty`).
- The design gives each of the four outcomes its own colour and vibration. The code (src/components/scanner/ScanResult.tsx:32-35, 58-69) gives invalid and error the same rose background, the same animation and the same `[500]` pattern, so only three looks and three patterns are told apart (`ScanResult.VibrationPatternsDistinguish`, `ScanResult.ConfigLooks`).

## Model

| member | source | states |
|---|---|---|
| Strings.Trim | src/lib/google-auth.ts:102 | the result neither starts nor ends with whitespace |
| Strings.TrimEmptyIffBlank | src/lib/google-auth.ts:102 | the result is empty exactly when the input is all whitespace |
| Strings.TrimRemovesOnlyWhitespace | src/lib/google-auth.ts:102 | the result is a contiguous piece of the input with only whitespace cut off either side |
| Strings.TrimUnpadded | src/lib/google-auth.ts:102 | a string that starts and ends with non-whitespace is its own trim |
| Strings.TrimLeadingSpace | src/lib/utils.ts:18 | one leading whitespace character does not change the trim |
| Strings.TrimIdempotent | src/lib/google-auth.ts:102 | trimming twice is trimming once |
| Strings.TrimLower | src/lib/google-auth.ts:102 | trimming and lower-casing commute |
| Strings.Lower | src/lib/google-auth.ts:103 | same length, no upper-case ASCII letter left, each character lower-cased in place |
| Strings.LowerIdempotent | src/lib/google-auth.ts:103 | lower-casing twice is lower-casing once |
| Strings.LowerCharSpace | src/lib/google-auth.ts:102-103 | lower-casing turns whitespace into whitespace and nothing else into whitespace |
| Strings.Split | src/lib/google-auth.ts:102 | at least one part, no part holds the separator, a single part exactly when the separator is absent |
| Strings.JoinSplit | src/lib/google-auth.ts:102 | joining the parts with the separator gives back the input |
| Strings.SplitJoin | src/lib/google-auth.ts:102 | splitting a join of separator-free parts gives back the parts |
| Strings.SplitAfterFirst | src/lib/google-auth.ts:50 | the first part is exactly the text before the first separator |
| Strings.SplitLower | src/lib/google-auth.ts:102 | lower-casing the input lower-cases each part, for a separator that is not a letter |
| Strings.ReplaceChar | src/lib/google-auth.ts:51 | same length; each occurrence of the character is replaced and every other character kept |
| Api.OrElse | src/lib/api.ts:118 | a non-empty value is kept, an empty one gives the fallback, and a non-empty fallback makes the result non-empty |
| Api.MatchEndAt | src/lib/api.ts:128 | where a match of the timestamp pattern starting at a position ends; a match end is unique, so the result is the only one |
| Api.FindTimestamp | src/lib/api.ts:128-129 | the leftmost match at or after a position; no match starts before it; none means no match at all |
| Api.FindTimestampReaches | src/lib/api.ts:128-129 | when no match starts before a position that has one, the search returns the match at that position |
| Api.ExtractTimeFromMessage | src/lib/api.ts:127-131 | none exactly when no substring matches; otherwise a substring of the message that matches, at least 19 long, with no match starting earlier |
| Api.ExtractAfterDigitFreeText | src/lib/api.ts:125-131 | text without digits followed by a timestamp yields exactly that timestamp |
| Api.DuplicateMessageTime | src/lib/api.ts:125 | the example message of the comment, "Ticket déjà scanné le 20/01/2026 14:30:00", yields "20/01/2026 14:30:00" |
| Api.DuplicateExample | src/lib/api.ts:100-111 | an already-checked-in reply with that message gives a valid duplicate whose previous scan time is that timestamp |
| Api.Adapt | src/lib/api.ts:74-122 | the output is well formed: a duplicate is valid, and a rejection has a message. It is a new check-in exactly when `success` is true and `data` is present, and a duplicate exactly when it is not and the code is `ALREADY_CHECKED_IN`. A visitor is present exactly on a new check-in and scan info exactly when valid, with an empty day. The message is kept when valid; otherwise it falls back to "Ticket non valide" |
| Api.AdaptSuccess | src/lib/api.ts:78-93 | a new check-in carries the visitor's name and email from `data` (empty when absent), an empty company, status "Validé" and `checked_in_at` |
| Api.AdaptSuccessWithoutData | src/lib/api.ts:78 | `success` without `data` is handled as if `success` were false, and is never a new check-in |
| Api.AdaptDuplicate | src/lib/api.ts:97-111 | a duplicate has no visitor, status "Déjà scanné" and the timestamp extracted from the message |
| Api.AdaptInvalid | src/lib/api.ts:114-121 | any other reply is invalid, without visitor or scan info, and the message falls back to "Ticket non valide" |
| Api.CheckinReply | src/lib/api.ts:155-168 | a result only comes from a parsed body and is well formed; behind a non-ok, non-404 status it is a rejection |
| Api.GateRejectionWithMessage | src/lib/api.ts:158-164 | non-ok, not 404, with a message: a rejection carrying that message |
| Api.GateRejectionWithoutMessage | src/lib/api.ts:158-166 | non-ok, not 404, without a message: the error "Erreur de connexion" |
| Api.GatePassesOkAnd404 | src/lib/api.ts:158-168 | an ok or 404 reply goes through the adapter |
| Api.CheckinByQr | src/lib/api.ts:141-169 | without an endpoint nothing is sent and the error is "Webhook URL not configured"; otherwise the scanned text is posted verbatim to that endpoint and the result is the reply read through the status gate (`CheckinReply`); results are well formed |
| Api.CheckinByEmail | src/lib/api.ts:175-202 | the same: without an endpoint nothing is sent; otherwise the body carries exactly the lower-cased e-mail and the scan time, and the result is the reply read through the status gate |
| Api.CheckinByEmailIgnoresCase | src/lib/api.ts:184 | addresses differing only in case give the same request and result |
| Api.FetchStats | src/lib/api.ts:207-222 | without an endpoint nothing is sent; a non-ok status fails with the statistics message before the body is read; only an ok, parsed reply succeeds, and it returns the body |
| GoogleAuth.AllowedIffSomeEntryMatches | src/lib/google-auth.ts:100-104 | allowed exactly when some comma-separated part of the configuration, trimmed and lower-cased, equals the lower-cased candidate |
| GoogleAuth.CandidateCaseIgnored | src/lib/google-auth.ts:103 | the candidate's letter case does not matter |
| GoogleAuth.ConfigurationCaseIgnored | src/lib/google-auth.ts:102 | the configuration's letter case does not matter |
| GoogleAuth.UntrimmedCandidateRejected | src/lib/google-auth.ts:102-103 | a candidate with leading or trailing whitespace is never allowed |
| GoogleAuth.EmptyConfigurationAdmitsOnlyEmpty | src/lib/google-auth.ts:101-103 | with an empty configuration, only the empty address is allowed |
| GoogleAuth.AllowedIffListed | src/lib/google-auth.ts:102-103 | for a configuration written as comma-joined entries, allowed exactly when some normalised entry equals the normalised candidate |
| GoogleAuth.EntryOrderIrrelevant | src/lib/google-auth.ts:102-103 | two configurations listing the same entries, in any order and with any repetition, agree on every candidate |
| GoogleAuth.Base64UrlToBase64 | src/lib/google-auth.ts:51 | same length, no `-` or `_` left, each `-` becomes `+` and each `_` becomes `/`, other characters unchanged |
| GoogleAuth.Base64UrlToBase64Idempotent | src/lib/google-auth.ts:51 | the translation changes nothing on its own output |
| GoogleAuth.DecodeJwt | src/lib/google-auth.ts:49-58 | a token without `.` fails, since it has no payload segment |
| GoogleAuth.DecodeJwtReadsOnlyPayload | src/lib/google-auth.ts:50 | the header and anything after the payload segment do not affect the result |
| Utils.FrenchTimePartWindow | src/lib/utils.ts:17-18 | the part is absent exactly when the input holds no `à`; otherwise the input is `a à b c` with no `à` in `a` or `b` and `c` empty or starting at an `à`, and the part is `b` trimmed |
| Utils.FormatTime | src/lib/utils.ts:14-37 | with a non-empty French part, the result is its first five characters (fewer when it is shorter), non-empty and not starting with whitespace; otherwise it is the locale formatting of the date, or the input when the date is invalid |
| Utils.FrenchPartBetweenFirstAndSecond | src/lib/utils.ts:18 | the French part is read from the text after the first `à` up to the next one |
| Utils.FormatTimeFrench | src/lib/utils.ts:17-20 | `<date> à <clock>` shows the clock cut to five characters |
| Utils.FormatTimeExample | src/lib/utils.ts:16-20 | "19/01/2026 à 14:30:45" gives "14:30" |
| Utils.FormatTimeFallsBackToInput | src/lib/utils.ts:19-33 | with no usable French part and an invalid date, the input comes back unchanged |
| ScanResult.VibrationPattern | src/components/scanner/ScanResult.tsx:24-37 | the pattern of each outcome is non-empty and ends on a vibration |
| ScanResult.VibrationPatternsDistinguish | src/components/scanner/ScanResult.tsx:25-36 | two outcomes share a pattern exactly when they are equal or both are invalid/error |
| ScanResult.Config | src/components/scanner/ScanResult.tsx:45-72 | the title is never empty; outside the error status it is the response's message when non-empty; for the error status it is the error message, or "Erreur de connexion" |
| ScanResult.ConfigLooks | src/components/scanner/ScanResult.tsx:45-70 | equal background exactly when equal animation, exactly when equal status or both invalid/error; icons tell every status apart |
| ScanResult.ConfigFallbackTitles | src/components/scanner/ScanResult.tsx:50-68 | without a message each status shows its fixed fallback title |
| ScanResult.AdapterDuplicateShowsTimeIffStamped | src/components/scanner/ScanResult.tsx:103 | for an adapter duplicate, "Scanné à …" shows exactly when the message contained a timestamp |
| ScanResult.AdapterHidesDayAndCompany | src/components/scanner/ScanResult.tsx:110 | adapter results never show the day badge or a company line |
| ScanResult.AdapterVisitorOnlyOnSuccess | src/components/scanner/ScanResult.tsx:93 | the visitor card shows exactly for a reply with `success` and `data` |
| ManualSearch.Submission | src/components/scanner/ManualSearch.tsx:14-19 | a submit forwards something exactly when the input is not all whitespace and no search runs; what it forwards is the trimmed input, non-empty and unpadded |
| ManualSearch.SubmitDisabledIffNothingForwarded | src/components/scanner/ManualSearch.tsx:68 | the button is disabled exactly when a submit would forward nothing |
| ManualSearch.SubmissionStable | src/components/scanner/ManualSearch.tsx:16-17 | resubmitting a forwarded value forwards the same value |
| ManualSearch.SearchPanel.constructor | src/components/scanner/ManualSearch.tsx:11-12 | empty input, collapsed |
| ManualSearch.SearchPanel.Expand | src/components/scanner/ManualSearch.tsx:24 | expanded, input untouched |
| ManualSearch.SearchPanel.Edit | src/components/scanner/ManualSearch.tsx:55 | the input becomes the typed value |
| ManualSearch.SearchPanel.Submit | src/components/scanner/ManualSearch.tsx:14-19 | forwards exactly `Submission` of the current input and changes nothing |
| ManualSearch.SearchPanel.Close | src/components/scanner/ManualSearch.tsx:41-44 | collapsed with an empty input |
| QrScanner.Scan | src/components/scanner/QRScanner.tsx:20-40 | a frame is forwarded exactly when its text differs from the last forwarded one or 3000 ms have passed; a forwarded frame's text is passed on verbatim and becomes the new state; a dropped frame leaves the state as it was |
| QrScanner.RunSpaced | src/components/scanner/QRScanner.tsx:26-34 | over any stream of frames, consecutive forwardings of the same text are at least 3000 ms apart, and so is the first from the initial state |
| QrScanner.RunFinal | src/components/scanner/QRScanner.tsx:33-34 | the state after a stream is the last forwarded frame, or the initial state if none was forwarded |
| QrScanner.RunForwardsInputs | src/components/scanner/QRScanner.tsx:37 | the forwarded frames are input frames, in order, each at most once |
| QrScanner.HeldBadgeForwardedOnce | src/components/scanner/QRScanner.tsx:24-31 | a badge held for under 3000 ms whose first frame gets through is forwarded exactly once |
| QrScanner.RunSuppressed | src/components/scanner/QRScanner.tsx:26-31 | repeats inside the window are all dropped and leave the state unchanged, so they do not extend the window |
| QrScanner.QrScannerComponent.constructor | src/components/scanner/QRScanner.tsx:12-18 | not scanning, no error, no instance, debounce refs `""` and 0 |
| QrScanner.QrScannerComponent.HandleScan | src/components/scanner/QRScanner.tsx:20-40 | the refs and the forwarded text follow `Scan`; nothing else changes |
| QrScanner.QrScannerComponent.StartScanning | src/components/scanner/QRScanner.tsx:42-107 | without a video element nothing changes. No camera sets "Aucune caméra détectée sur cet appareil."; a failed probe, camera list, construction or start sets the permission error. Any held instance is destroyed before a new one is created and started; scanning turns on only when start succeeds |
| QrScanner.QrScannerComponent.StopScanning | src/components/scanner/QRScanner.tsx:109-117 | the held instance, if any, is stopped then destroyed; afterwards no instance and not scanning; a second call makes no library call |
| QrScanner.QrScannerComponent.Cleanup | src/components/scanner/QRScanner.tsx:120-127 | the held instance, if any, is destroyed; repeating it makes no library call |
| QrScanner.QrScannerComponent.SyncProcessing | src/components/scanner/QRScanner.tsx:130-140 | while scanning with an instance, processing pauses it and its end restarts it; otherwise no call |
| ScannerPage.ClassifyQr | src/pages/Scanner.tsx:63-71 | invalid exactly when neither valid nor a duplicate, duplicate exactly when `alreadyToday`, success exactly when valid and not a duplicate; never error |
| ScannerPage.ClassifyEmail | src/pages/Scanner.tsx:91-99 | invalid exactly when not valid, duplicate exactly when valid and `alreadyToday`, success exactly when valid and not a duplicate; never error |
| ScannerPage.ChannelsDifferOnlyOnInvalidDuplicates | src/pages/Scanner.tsx:63-99 | the chains disagree exactly on a duplicate that is not valid, so they agree on every well-formed response |
| ScannerPage.ChannelsAgreeOnClientResults | src/pages/Scanner.tsx:61-99 | for one webhook reply the two check-in calls give the same result, classified the same way by both channels |
| ScannerPage.Outcome | src/pages/Scanner.tsx:63-76 | the error status exactly for a call that threw, with its message and no response; otherwise the response classified by its channel |
| ScannerPage.RefetchOnlyOnNewCheckin | src/pages/Scanner.tsx:68-70 | a refetch follows exactly a valid, non-duplicate response |
| ScannerPage.FirstScanShowsVisitor | src/pages/Scanner.tsx:61-71 | a successful reply with data shows success with the visitor from `data`, triggers a refetch, and is titled with the reply's message |
| ScannerPage.SilentRejectionIsConnectionError | src/pages/Scanner.tsx:61-104 | on the camera path (`checkinByQR`) and on the e-mail path (`checkinByEmail`) alike, a non-ok, non-404 reply without a message shows the error status titled "Erreur de connexion", with no refetch |
| ScannerPage.Page.constructor | src/pages/Scanner.tsx:15-28 | zero counts, day "J1", no recent scans, loading, neither channel busy, no result |
| ScannerPage.Page.Begin | src/pages/Scanner.tsx:55-57 | a call while the channel is busy is ignored; otherwise the channel becomes busy; the other flag and all other state are unchanged |
| ScannerPage.Page.Complete | src/pages/Scanner.tsx:59-79 | the result becomes `Outcome`; one refetch more on success only; the channel's flag is cleared on every path, the other's untouched |
| ScannerPage.Page.ApplyStats | src/pages/Scanner.tsx:31-43 | a snapshot replaces today, total, day and recent scans together; a failure changes none of them; loading ends either way |
| ScannerPage.Page.Dismiss | src/pages/Scanner.tsx:111-113 | no result is shown; nothing else changes |
| Auth.Startup | src/contexts/AuthContext.tsx:35-54 | a user is restored exactly from a saved session with expiry after now, and that session is kept; an expired or unparseable entry is removed; an empty entry stays |
| Auth.NewSession | src/contexts/AuthContext.tsx:76-79 | the stored session names the user and expires 86 400 000 ms after login |
| Auth.SessionLastsOneDay | src/contexts/AuthContext.tsx:42 | a session written at login is restored by any startup less than 24 hours later, and removed by any later one |
| Auth.StartupLeavesNoStaleSession | src/contexts/AuthContext.tsx:44-50 | after startup the slot holds nothing, an empty entry, or an unexpired session |
| Auth.LoginAttempt | src/contexts/AuthContext.tsx:59-89 | success exactly for a token that decodes to an allowed address, giving its email, name and picture; a token that does not decode gives "Erreur lors de la connexion. Réessayez."; a refused address gets a message naming it |
| Auth.SignedInUserIsListed | src/contexts/AuthContext.tsx:64 | a signed-in address matches some configured entry, ignoring case and the entry's padding |
| Auth.PaddedAddressRefused | src/contexts/AuthContext.tsx:64 | a decoded address with surrounding whitespace never signs in |
| Auth.AuthProvider.constructor | src/contexts/AuthContext.tsx:29-31 | no user, loading, no error, slot as found |
| Auth.AuthProvider.CheckSession | src/contexts/AuthContext.tsx:35-54 | the user and slot follow `Startup`; loading ends on every path; on mount the signed-in user is the stored one |
| Auth.AuthProvider.Login | src/contexts/AuthContext.tsx:59-89 | returns true exactly when `LoginAttempt` succeeds, and then sets the user, stores a 24-hour session and clears the error; otherwise sets the error and leaves user and slot unchanged |
| Auth.AuthProvider.Logout | src/contexts/AuthContext.tsx:91-95 | slot, user and error all cleared, so a second call changes nothing |
| Auth.AuthProvider.ClearError | src/contexts/AuthContext.tsx:97-99 | only the error changes, to none |

## Left out

- `fetch` and `response.json()` are left out: the webhook's reply is an input value. A body that does not parse is `Malformed`, and a network failure is `NetworkFailure`, each with the thrown message.
- `new Date().toISOString()` for `scannedAt` is a parameter, because it reads the clock.
- `atob`, `decodeURIComponent` and `JSON.parse` in `decodeJwt` are one opaque partial function, `decodePayload`. There is no signature check, as in the code.
- `localStorage` is a single `Option<Stored>` slot, with no persistence. The parse in `checkSession` is abstracted to "a session `login` wrote" or "unparseable text". JSON that parses but is not a session is not modelled separately.
- Strings.Lower: lower-cases ASCII letters only, because full Unicode case mapping is not modelled; every contract about case holds for this mapping.
- Utils.FormatTime: counts Unicode scalar values, while `substring(0, 5)` (src/lib/utils.ts:20) counts UTF-16 code units, so the two cut differently when the clock part holds a character outside the Basic Multilingual Plane.
- The ISO branch of `formatTime` (`new Date`, `toLocaleTimeString('fr-FR')`) is the opaque `localeTime`, because it is locale and date-library behaviour.
- The `qr-scanner` library is left out: camera detection, frame decoding and the start/pause/stop/destroy effects are recorded calls and boolean answers. The `debugInfo` strings, the camera list's labels and the inline video styles are display only.
- `navigator.vibrate`, `cn`/`twMerge` and all rendering are left out, because they are foreign calls or display.
- The 30-second stats poll, the 4-second auto-dismiss and the retry of the Google button setup are left out: they are timers.
- The race between the poll and the refetch after a check-in is left out, because it is asynchronous interleaving. `Page.Complete` records that a refetch was fired; `Page.ApplyStats` is what a settled fetch does.
- ScannerPage.Page.Begin: reads the flag's current value. React's stale-closure effects (a handler created before a flag update still seeing the old value) are not modelled.
- A thrown value that is not an `Error` would show "Erreur de connexion". None of the modelled calls throws one, so that fallback is not modelled.
- The Google button setup (src/lib/google-auth.ts:61-98), the login screen, routing and the dashboard widgets are left out, because they are display and wiring.
- QrScanner.QrScannerComponent.Cleanup: leaves `isScanning` as it was, as the code does. The component is unmounted afterwards, so the flag is never read again.
