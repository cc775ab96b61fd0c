/**
 * The deterministic part of src/lib/google-auth.ts: the e-mail allow-list test and the
 * segment selection and alphabet translation of `decodeJwt`. Base64 decoding, percent
 * decoding and `JSON.parse` are one opaque partial function, passed in as `decodePayload`;
 * there is no signature check, as in the source.
 */
module GoogleAuth {
  import opened Wrappers
  import opened Strings

  datatype DecodedToken = DecodedToken(
    email: string,
    emailVerified: bool,
    name: string,
    picture: string,
    sub: string,
    iat: int,
    exp: int)

  // ---------------------------------------------------------------------------
  // isEmailAllowed
  // ---------------------------------------------------------------------------

  /** The configured list `allowedEmails.split(',').map(e => e.trim().toLowerCase())`. */
  function AllowList(allowedEmails: string): seq<string> {
    var parts := Split(allowedEmails, ',');
    seq(|parts|, i requires 0 <= i < |parts| => Lower(Trim(parts[i])))
  }

  /**
   * `isEmailAllowed`, with the configuration string as a parameter (an unset variable is `""`).
   * The entries are trimmed and lower-cased; the candidate is only lower-cased.
   */
  function IsEmailAllowed(allowedEmails: string, email: string): bool {
    Lower(email) in AllowList(allowedEmails)
  }

  /** Part `i` of the configuration, trimmed and lower-cased, is the lower-cased candidate. */
  predicate EntryMatches(allowedEmails: string, i: int, email: string) {
    0 <= i < |Split(allowedEmails, ',')| && Lower(Trim(Split(allowedEmails, ',')[i])) == Lower(email)
  }

  /** Allowed exactly when some part of the configuration, trimmed and lower-cased, is the lower-cased candidate. */
  lemma AllowedIffSomeEntryMatches(allowedEmails: string, email: string)
    ensures IsEmailAllowed(allowedEmails, email) <==> exists i :: EntryMatches(allowedEmails, i, email)
  {
    var parts := Split(allowedEmails, ',');
    var list := AllowList(allowedEmails);
    var target := Lower(email);
    assert IsEmailAllowed(allowedEmails, email) == (target in list);
    if target in list {
      var i :| 0 <= i < |list| && list[i] == target;
      assert list[i] == Lower(Trim(parts[i]));
      assert EntryMatches(allowedEmails, i, email);
    }
    if exists i :: EntryMatches(allowedEmails, i, email) {
      var i :| EntryMatches(allowedEmails, i, email);
      assert list[i] == Lower(Trim(parts[i]));
      assert list[i] == target;
    }
  }

  /** Letter case of the candidate does not matter. */
  lemma CandidateCaseIgnored(allowedEmails: string, email: string)
    ensures IsEmailAllowed(allowedEmails, Lower(email)) == IsEmailAllowed(allowedEmails, email)
  {
    LowerIdempotent(email);
  }

  /** Letter case of the configuration does not matter either. */
  lemma ConfigurationCaseIgnored(allowedEmails: string, email: string)
    ensures IsEmailAllowed(Lower(allowedEmails), email) == IsEmailAllowed(allowedEmails, email)
  {
    var parts := Split(allowedEmails, ',');
    SplitLower(allowedEmails, ',');
    assert Split(Lower(allowedEmails), ',') == LowerAll(parts);
    forall i | 0 <= i < |parts|
      ensures Lower(Trim(Lower(parts[i]))) == Lower(Trim(parts[i]))
    {
      TrimLower(parts[i]);
      LowerIdempotent(Trim(parts[i]));
    }
    assert AllowList(Lower(allowedEmails)) == AllowList(allowedEmails);
  }

  /** A candidate with leading or trailing whitespace is never allowed: only the entries are trimmed. */
  lemma UntrimmedCandidateRejected(allowedEmails: string, email: string)
    requires email != [] && (IsSpace(email[0]) || IsSpace(email[|email| - 1]))
    ensures !IsEmailAllowed(allowedEmails, email)
  {
    AllowedIffSomeEntryMatches(allowedEmails, email);
    var parts := Split(allowedEmails, ',');
    forall i | 0 <= i < |parts|
      ensures !EntryMatches(allowedEmails, i, email)
    {
      TrimmedDiffersFromPadded(Trim(parts[i]), email);
    }
  }

  /** A string without surrounding whitespace differs from a padded one, even after lower-casing both. */
  lemma TrimmedDiffersFromPadded(t: string, email: string)
    requires t != [] ==> !IsSpace(t[0]) && !IsSpace(t[|t| - 1])
    requires email != [] && (IsSpace(email[0]) || IsSpace(email[|email| - 1]))
    ensures Lower(t) != Lower(email)
  {
    var lt, le := Lower(t), Lower(email);
    if |t| != |email| {
      assert |lt| != |le|;
    } else if IsSpace(email[0]) {
      LowerCharSpace(t[0]);
      LowerCharSpace(email[0]);
      assert IsSpace(le[0]) && !IsSpace(lt[0]);
    } else {
      LowerCharSpace(t[|t| - 1]);
      LowerCharSpace(email[|email| - 1]);
      assert IsSpace(le[|le| - 1]) && !IsSpace(lt[|lt| - 1]);
    }
  }

  /** An unset or empty configuration is the list `[""]`: it admits the empty string and nothing else. */
  lemma EmptyConfigurationAdmitsOnlyEmpty(email: string)
    ensures IsEmailAllowed("", email) <==> email == ""
  {
    AllowedIffSomeEntryMatches("", email);
    EmptyConfigurationEntries(email);
    if email == "" {
      assert EntryMatches("", 0, email);
    }
  }

  /** The empty configuration has the single entry `""`. */
  lemma EmptyConfigurationEntries(email: string)
    ensures forall i :: EntryMatches("", i, email) <==> i == 0 && email == ""
  {
    assert Split("", ',') == [""];
    assert Lower(Trim("")) == "";
    LowerEmpty(email);
  }

  /** On a configuration written as comma-separated entries, the result is membership among the normalised entries. */
  lemma AllowedIffListed(entries: seq<string>, email: string)
    requires |entries| >= 1
    requires forall i :: 0 <= i < |entries| ==> ',' !in entries[i]
    ensures IsEmailAllowed(Join(entries, ','), email) <==> exists i :: 0 <= i < |entries| && Lower(Trim(entries[i])) == Lower(email)
  {
    AllowedIffSomeEntryMatches(Join(entries, ','), email);
    SplitJoin(entries, ',');
    assert forall i :: EntryMatches(Join(entries, ','), i, email) <==> 0 <= i < |entries| && Lower(Trim(entries[i])) == Lower(email);
  }

  /** Order and repetition of the entries do not matter: two configurations listing the same entries agree. */
  lemma EntryOrderIrrelevant(entries1: seq<string>, entries2: seq<string>, email: string)
    requires |entries1| >= 1 && |entries2| >= 1
    requires forall i :: 0 <= i < |entries1| ==> ',' !in entries1[i]
    requires forall i :: 0 <= i < |entries2| ==> ',' !in entries2[i]
    requires forall e :: e in entries1 <==> e in entries2
    ensures IsEmailAllowed(Join(entries1, ','), email) == IsEmailAllowed(Join(entries2, ','), email)
  {
    AllowedIffListed(entries1, email);
    AllowedIffListed(entries2, email);
    if exists i :: 0 <= i < |entries1| && Lower(Trim(entries1[i])) == Lower(email) {
      var i :| 0 <= i < |entries1| && Lower(Trim(entries1[i])) == Lower(email);
      assert entries1[i] in entries2;
    }
    if exists i :: 0 <= i < |entries2| && Lower(Trim(entries2[i])) == Lower(email) {
      var i :| 0 <= i < |entries2| && Lower(Trim(entries2[i])) == Lower(email);
      assert entries2[i] in entries1;
    }
  }

  // ---------------------------------------------------------------------------
  // decodeJwt
  // ---------------------------------------------------------------------------

  /** `.replace(/-/g, '+').replace(/_/g, '/')`: base64url back to the standard base64 alphabet. */
  function Base64UrlToBase64(s: string): (r: string)
    ensures |r| == |s|
    ensures '-' !in r && '_' !in r
    ensures forall i :: 0 <= i < |s| ==> r[i] == (if s[i] == '-' then '+' else if s[i] == '_' then '/' else s[i])
  {
    ReplaceChar(ReplaceChar(s, '-', '+'), '_', '/')
  }

  /** The translation changes nothing in a string that is already standard base64. */
  lemma Base64UrlToBase64Idempotent(s: string)
    ensures Base64UrlToBase64(Base64UrlToBase64(s)) == Base64UrlToBase64(s)
  {
  }

  /**
   * `decodeJwt`: decode the segment after the first `.`; with no `.` that segment does not
   * exist and the call fails (the source throws a TypeError on `undefined.replace`).
   */
  function DecodeJwt(token: string, decodePayload: string -> Option<DecodedToken>): (r: Option<DecodedToken>)
    ensures '.' !in token ==> r.None?
  {
    var parts := Split(token, '.');
    if |parts| < 2 then None else decodePayload(Base64UrlToBase64(parts[1]))
  }

  /** Only the payload segment is read: the header and everything after the payload are ignored. */
  lemma DecodeJwtReadsOnlyPayload(header: string, payload: string, rest: string, decodePayload: string -> Option<DecodedToken>)
    requires '.' !in header && '.' !in payload
    ensures DecodeJwt(header + "." + payload + "." + rest, decodePayload) == decodePayload(Base64UrlToBase64(payload))
    ensures DecodeJwt(header + "." + payload, decodePayload) == decodePayload(Base64UrlToBase64(payload))
  {
    SplitAfterFirst(header, payload + "." + rest, '.');
    SplitAfterFirst(payload, rest, '.');
    assert header + "." + payload + "." + rest == header + ['.'] + (payload + ['.'] + rest);
    SplitAfterFirst(header, payload, '.');
    SplitNoSeparator(payload, '.');
    assert header + "." + payload == header + ['.'] + payload;
  }
}
