/**
 * The session state of src/contexts/AuthContext.tsx: `checkSession` at mount, `login`,
 * `logout` and `clearError`, over one abstract storage slot (the `localStorage` entry under
 * `clinica_scanner_session`). `Date.now()` is the parameter `now`, the allow-list is the
 * configuration string, and the payload decoding of `decodeJwt` is the opaque `decodePayload`.
 */
module Auth {
  import opened Wrappers
  import opened Strings
  import opened GoogleAuth

  /** 24 hours, in milliseconds. */
  const SessionTtlMs: int := 24 * 60 * 60 * 1000

  const LoginRetryError: string := "Erreur lors de la connexion. Réessayez."

  function AccessDenied(email: string): string {
    "Accès refusé pour " + email + ". Contactez l'administrateur."
  }

  datatype User = User(email: string, name: string, picture: string)

  datatype StoredSession = StoredSession(user: User, expiry: int)

  /** The storage entry: a session as `login` wrote it, or text that does not parse as one. */
  datatype Stored = Saved(session: StoredSession) | Unreadable(raw: string)

  /**
   * `checkSession` as a decision: the user it restores and what the slot holds afterwards.
   * An unexpired session is restored and kept; an expired or unparseable one is removed; an
   * empty entry is falsy and left as it is.
   */
  function Startup(stored: Option<Stored>, now: int): (r: (Option<User>, Option<Stored>))
    ensures r.0.Some? <==> stored.Some? && stored.value.Saved? && stored.value.session.expiry > now
    ensures r.0.Some? ==> r.0.value == stored.value.session.user && r.1 == stored
    ensures r.0.None? ==> r.1 == (if stored == Some(Unreadable("")) then stored else None)
  {
    match stored
    case None => (None, None)
    case Some(Unreadable(raw)) => if raw == "" then (None, stored) else (None, None)
    case Some(Saved(session)) => if session.expiry > now then (Some(session.user), stored) else (None, None)
  }

  /** The session `login` stores at time `now`. */
  function NewSession(user: User, now: int): (s: StoredSession)
    ensures s.user == user && s.expiry - now == SessionTtlMs
  {
    StoredSession(user, now + SessionTtlMs)
  }

  /** A session stored at login is restored at any later startup within 24 hours, and at none after. */
  lemma SessionLastsOneDay(user: User, loginTime: int, now: int)
    ensures Startup(Some(Saved(NewSession(user, loginTime))), now).0 == (if now < loginTime + SessionTtlMs then Some(user) else None)
    ensures now >= loginTime + SessionTtlMs ==> Startup(Some(Saved(NewSession(user, loginTime))), now).1.None?
  {
  }

  /** Startup never leaves an expired or unparseable session behind. */
  lemma StartupLeavesNoStaleSession(stored: Option<Stored>, now: int)
    ensures var rest := Startup(stored, now).1;
      rest.Some? ==> rest == Some(Unreadable("")) || (rest.value.Saved? && rest.value.session.expiry > now)
  {
  }

  /**
   * `login` as a decision: the user to sign in, or the error to show. A token that does not
   * decode gives the retry message; a decoded address outside the allow-list is refused by name.
   */
  function LoginAttempt(credential: string, allowedEmails: string, decodePayload: string -> Option<DecodedToken>): (r: Result<User>)
    ensures var decoded := DecodeJwt(credential, decodePayload);
      r.Ok? <==> decoded.Some? && IsEmailAllowed(allowedEmails, decoded.value.email)
    ensures var decoded := DecodeJwt(credential, decodePayload);
      r.Ok? ==> r.value == User(decoded.value.email, decoded.value.name, decoded.value.picture)
    ensures var decoded := DecodeJwt(credential, decodePayload);
      r.Err? ==> r.error == (if decoded.None? then LoginRetryError else AccessDenied(decoded.value.email))
  {
    match DecodeJwt(credential, decodePayload)
    case None => Err(LoginRetryError)
    case Some(decoded) =>
      if !IsEmailAllowed(allowedEmails, decoded.email) then Err(AccessDenied(decoded.email))
      else Ok(User(decoded.email, decoded.name, decoded.picture))
  }

  /** Only an address that some configured entry matches, ignoring case and the entry's padding, signs in. */
  lemma SignedInUserIsListed(credential: string, allowedEmails: string, decodePayload: string -> Option<DecodedToken>)
    requires LoginAttempt(credential, allowedEmails, decodePayload).Ok?
    ensures exists i :: EntryMatches(allowedEmails, i, LoginAttempt(credential, allowedEmails, decodePayload).value.email)
  {
    AllowedIffSomeEntryMatches(allowedEmails, LoginAttempt(credential, allowedEmails, decodePayload).value.email);
  }

  /** A token whose address carries surrounding whitespace is refused, whatever the configuration. */
  lemma PaddedAddressRefused(credential: string, allowedEmails: string, decodePayload: string -> Option<DecodedToken>)
    requires DecodeJwt(credential, decodePayload).Some?
    requires var email := DecodeJwt(credential, decodePayload).value.email;
      email != [] && (IsSpace(email[0]) || IsSpace(email[|email| - 1]))
    ensures LoginAttempt(credential, allowedEmails, decodePayload).Err?
  {
    UntrimmedCandidateRejected(allowedEmails, DecodeJwt(credential, decodePayload).value.email);
  }

  class AuthProvider {
    var user: Option<User>
    var isLoading: bool
    var error: Option<string>
    /** The storage slot. */
    var storage: Option<Stored>

    /** A signed-in user is the one the stored session names. */
    predicate Consistent()
      reads this
    {
      user.Some? ==> storage.Some? && storage.value.Saved? && storage.value.session.user == user.value
    }

    /** The provider as mounted, over whatever the slot already holds. */
    constructor (stored: Option<Stored>)
      ensures user.None? && isLoading && error.None? && storage == stored
      ensures Consistent()
    {
      user := None;
      isLoading := true;
      error := None;
      storage := stored;
    }

    /** `checkSession`, run once on mount; loading ends on every path. */
    method CheckSession(now: int)
      modifies this
      ensures (if Startup(old(storage), now).0.Some? then user == Startup(old(storage), now).0 else user == old(user))
      ensures storage == Startup(old(storage), now).1
      ensures !isLoading && error == old(error)
      ensures old(user).None? ==> Consistent()
    {
      match storage {
        case None =>
        case Some(Unreadable(raw)) =>
          if raw != "" {
            storage := None;
          }
        case Some(Saved(session)) =>
          if session.expiry > now {
            user := Some(session.user);
          } else {
            storage := None;
          }
      }
      isLoading := false;
    }

    /** `login`: signs in and stores a 24-hour session, or shows why not and changes nothing else. */
    method Login(credential: string, allowedEmails: string, decodePayload: string -> Option<DecodedToken>, now: int) returns (ok: bool)
      requires Consistent()
      modifies this
      ensures Consistent()
      ensures var attempt := LoginAttempt(credential, allowedEmails, decodePayload);
        && (ok <==> attempt.Ok?)
        && (attempt.Ok? ==> user == Some(attempt.value) && storage == Some(Saved(NewSession(attempt.value, now))) && error.None?)
        && (attempt.Err? ==> user == old(user) && storage == old(storage) && error == Some(attempt.error))
      ensures isLoading == old(isLoading)
    {
      var decoded := DecodeJwt(credential, decodePayload);
      if decoded.None? {
        assert LoginAttempt(credential, allowedEmails, decodePayload) == Err(LoginRetryError);
        error := Some(LoginRetryError);
        ok := false;
      } else if !IsEmailAllowed(allowedEmails, decoded.value.email) {
        assert LoginAttempt(credential, allowedEmails, decodePayload) == Err(AccessDenied(decoded.value.email));
        error := Some(AccessDenied(decoded.value.email));
        ok := false;
      } else {
        var token := decoded.value;
        var newUser := User(token.email, token.name, token.picture);
        assert LoginAttempt(credential, allowedEmails, decodePayload) == Ok(newUser);
        storage := Some(Saved(NewSession(newUser, now)));
        user := Some(newUser);
        error := None;
        ok := true;
      }
    }

    /** `logout`: nothing is stored, nobody is signed in, no error shows. */
    method Logout()
      modifies this
      ensures storage.None? && user.None? && error.None?
      ensures isLoading == old(isLoading)
      ensures Consistent()
    {
      storage := None;
      user := None;
      error := None;
    }

    /** `clearError`. */
    method ClearError()
      modifies this
      ensures error.None?
      ensures user == old(user) && storage == old(storage) && isLoading == old(isLoading)
    {
      error := None;
    }
  }
}
