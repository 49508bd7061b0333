/** The session and security helpers of includes/functions.php: CSRF token
    issue and check, session expiry, login and role gates, logout, and the
    per-type flash messages kept in `$_SESSION['flash']`. */
module Security {
  import opened Common

  // ---------------------------------------------------------------------
  // CSRF tokens: `$_SESSION['csrf_token']` and `$_SESSION['csrf_token_time']`
  // ---------------------------------------------------------------------

  /** The two session entries behind the CSRF guard; `None` is an unset key. */
  datatype CsrfSlot = CsrfSlot(token: Option<string>, time: Option<int>)

  /** PHP `empty()` on a possibly unset string entry. */
  predicate EmptyText(o: Option<string>) {
    o.None? || Empty(o.value)
  }

  /** PHP `empty()` on a possibly unset integer entry. */
  predicate EmptyInt(o: Option<int>) {
    o.None? || o.value == 0
  }

  /** Both entries are present and non-empty. */
  predicate HasToken(slot: CsrfSlot) {
    !EmptyText(slot.token) && !EmptyInt(slot.time)
  }

  /** `validateCSRFToken($token)` at time `now`; `hash_equals` is plain
      equality here. The age bound is strict. */
  predicate ValidateCSRFToken(slot: CsrfSlot, token: string, now: int)
    ensures ValidateCSRFToken(slot, token, now) ==> slot.token == Some(token) && !Empty(token) && slot.time.Some?
  {
    HasToken(slot) && token == slot.token.value && now - slot.time.value < 3600
  }

  /** The session entries after `generateCSRFToken()` at time `now`, where
      `newToken` stands for `bin2hex(random_bytes(CSRF_TOKEN_LENGTH))`. A new
      token is made only when one of the entries is empty: a stored token
      is kept however old it is. */
  function GenerateToken(slot: CsrfSlot, now: int, newToken: string): CsrfSlot {
    if HasToken(slot) then slot else CsrfSlot(Some(newToken), Some(now))
  }

  /** The corrected issuance: a new token also when the stored one is an
      hour old or older, so the token handed out is always inside the
      one-hour window of `validateCSRFToken`. */
  function GenerateTokenRefreshing(slot: CsrfSlot, now: int, newToken: string): CsrfSlot {
    if HasToken(slot) && now - slot.time.value < 3600 then slot
    else CsrfSlot(Some(newToken), Some(now))
  }

  /** Without a stored token and time no submission is accepted, and a
      token other than the stored one is never accepted. */
  lemma ValidateNeedsStoredToken(slot: CsrfSlot, token: string, now: int)
    ensures !HasToken(slot) ==> !ValidateCSRFToken(slot, token, now)
    ensures slot.token.Some? && token != slot.token.value ==> !ValidateCSRFToken(slot, token, now)
  {
  }

  /** A token stored at `t0` is accepted up to 3599 seconds later (so at
      59 minutes) and refused from 3600 seconds on (so at 61 minutes). */
  lemma TokenLifetime(token: string, t0: int, now: int)
    requires !Empty(token) && t0 != 0
    ensures ValidateCSRFToken(CsrfSlot(Some(token), Some(t0)), token, now) <==> now < t0 + 3600
    ensures ValidateCSRFToken(CsrfSlot(Some(token), Some(t0)), token, t0 + 59 * 60)
    ensures !ValidateCSRFToken(CsrfSlot(Some(token), Some(t0)), token, t0 + 61 * 60)
  {
  }

  /** The token generated on a session without one is the new token, and
      it is accepted during the hour that follows. */
  lemma GeneratedTokenAccepted(slot: CsrfSlot, now: int, newToken: string, later: int)
    requires !HasToken(slot) && !Empty(newToken) && now != 0
    requires now <= later < now + 3600
    ensures GenerateToken(slot, now, newToken).token == Some(newToken)
    ensures ValidateCSRFToken(GenerateToken(slot, now, newToken), newToken, later)
  {
  }

  /** As written, a session whose token is an hour old keeps getting that
      same token in its forms, and every submission of it is refused. */
  lemma StaleTokenNeverRefreshed()
    ensures GenerateToken(CsrfSlot(Some("a1b2"), Some(1000)), 4600, "c3d4")
              == CsrfSlot(Some("a1b2"), Some(1000))
    ensures !ValidateCSRFToken(CsrfSlot(Some("a1b2"), Some(1000)), "a1b2", 4600)
  {
  }

  /** With refreshing issuance, the token a form carries is accepted when
      submitted in the same second, whatever the session held before. */
  lemma RefreshedTokenAccepted(slot: CsrfSlot, now: int, newToken: string)
    requires !Empty(newToken) && now != 0
    ensures GenerateTokenRefreshing(slot, now, newToken).token.Some?
    ensures ValidateCSRFToken(GenerateTokenRefreshing(slot, now, newToken),
                              GenerateTokenRefreshing(slot, now, newToken).token.value, now)
  {
  }

  // ---------------------------------------------------------------------
  // Session expiry and roles
  // ---------------------------------------------------------------------

  /** `isSessionExpired()`: false without a login time, otherwise more than
      `SESSION_LIFETIME` seconds have passed. */
  predicate IsSessionExpired(loginTime: Option<int>, now: int)
    ensures IsSessionExpired(loginTime, now) ==> loginTime.Some? && now > loginTime.value
  {
    loginTime.Some? && now - loginTime.value > SESSION_LIFETIME
  }

  /** The boundary is exclusive: exactly one hour after login the session
      is still alive, one second later it has expired. */
  lemma ExpiryBoundary(t0: int)
    ensures !IsSessionExpired(None, t0 + 100000)
    ensures !IsSessionExpired(Some(t0), t0 + 3600)
    ensures IsSessionExpired(Some(t0), t0 + 3601)
  {
  }

  /** `hasRole($role)`: the role entry is set and identical to `role`. */
  predicate HasRole(userRole: Option<string>, role: string)
    ensures HasRole(userRole, role) <==> userRole.Some? && userRole.value == role
  {
    userRole == Some(role)
  }

  /** A seller's session never passes the admin gate's role test, and a
      session without a role passes none. */
  lemma RolesExclusive(userRole: Option<string>)
    ensures HasRole(userRole, ROLE_SELLER) ==> !HasRole(userRole, ROLE_ADMIN)
    ensures userRole.None? ==> !HasRole(userRole, ROLE_SELLER) && !HasRole(userRole, ROLE_ADMIN)
  {
  }

  // ---------------------------------------------------------------------
  // Flash messages: `$_SESSION['flash']`, an ordered PHP array type => text
  // ---------------------------------------------------------------------

  datatype Flash = Flash(kind: string, message: string)

  /** No type occurs twice, as in a PHP array keyed by type. */
  predicate FlashKindsUnique(f: seq<Flash>) {
    forall i, j | 0 <= i < j < |f| :: f[i].kind != f[j].kind
  }

  /** Position of the entry for `kind`, or -1 when there is none. */
  function FlashIndex(f: seq<Flash>, kind: string): (i: int)
    ensures -1 <= i < |f|
    ensures i >= 0 ==> f[i].kind == kind
    ensures i < 0 <==> forall j | 0 <= j < |f| :: f[j].kind != kind
    ensures forall j | 0 <= j < i :: f[j].kind != kind
    decreases |f|
  {
    if f == [] then -1
    else if f[|f| - 1].kind == kind && FlashIndex(f[..|f| - 1], kind) < 0 then |f| - 1
    else FlashIndex(f[..|f| - 1], kind)
  }

  /** `$_SESSION['flash'][$type]` when set. */
  function FlashLookup(f: seq<Flash>, kind: string): Option<string> {
    var i := FlashIndex(f, kind);
    if i < 0 then None else Some(f[i].message)
  }

  /** `$_SESSION['flash'][$type] = $message`: an existing entry is
      overwritten where it stands, a new one goes to the end. */
  function FlashSet(f: seq<Flash>, kind: string, message: string): seq<Flash> {
    var i := FlashIndex(f, kind);
    if i < 0 then f + [Flash(kind, message)] else f[i := Flash(kind, message)]
  }

  /** `unset($_SESSION['flash'][$type])`. */
  function FlashRemove(f: seq<Flash>, kind: string): seq<Flash> {
    var i := FlashIndex(f, kind);
    if i < 0 then f else f[..i] + f[i + 1..]
  }

  /** With unique types, the entry holding `kind` is the one found. */
  lemma FlashIndexUnique(f: seq<Flash>, kind: string, j: int)
    requires FlashKindsUnique(f) && 0 <= j < |f| && f[j].kind == kind
    ensures FlashIndex(f, kind) == j
  {
  }

  /** After a set, that type reads back the new message, and types stay
      unique. */
  lemma FlashSetThenLookup(f: seq<Flash>, kind: string, message: string)
    requires FlashKindsUnique(f)
    ensures FlashKindsUnique(FlashSet(f, kind, message))
    ensures FlashLookup(FlashSet(f, kind, message), kind) == Some(message)
    ensures |FlashSet(f, kind, message)| == |f| + (if FlashLookup(f, kind).None? then 1 else 0)
  {
    var g := FlashSet(f, kind, message);
    var i := FlashIndex(f, kind);
    if i >= 0 {
      assert forall j | 0 <= j < |g| :: g[j].kind == f[j].kind;
      FlashIndexUnique(g, kind, i);
    } else {
      assert forall j | 0 <= j < |f| :: g[j] == f[j];
      FlashIndexUnique(g, kind, |f|);
    }
  }

  /** A set leaves what every other type reads unchanged. */
  lemma FlashSetKeepsOthers(f: seq<Flash>, kind: string, message: string, other: string)
    requires FlashKindsUnique(f) && other != kind
    ensures FlashLookup(FlashSet(f, kind, message), other) == FlashLookup(f, other)
  {
    var g := FlashSet(f, kind, message);
    FlashSetThenLookup(f, kind, message);
    var io := FlashIndex(f, other);
    if io >= 0 {
      assert g[io] == f[io];
      FlashIndexUnique(g, other, io);
    } else {
      assert forall j | 0 <= j < |g| :: g[j].kind != other by {
        forall j | 0 <= j < |g| ensures g[j].kind != other {
          if j < |f| { assert g[j].kind == kind || g[j] == f[j]; }
        }
      }
    }
  }

  /** After a removal the type reads as unset and types stay unique. */
  lemma FlashRemoveThenLookup(f: seq<Flash>, kind: string)
    requires FlashKindsUnique(f)
    ensures FlashKindsUnique(FlashRemove(f, kind))
    ensures FlashLookup(FlashRemove(f, kind), kind).None?
    ensures |FlashRemove(f, kind)| == |f| - (if FlashLookup(f, kind).None? then 0 else 1)
  {
    var i := FlashIndex(f, kind);
    if i >= 0 {
      var g := FlashRemove(f, kind);
      assert forall j | 0 <= j < |g| :: g[j] == (if j < i then f[j] else f[j + 1]);
      assert forall j | 0 <= j < |g| :: g[j].kind != kind;
    }
  }

  /** A removal leaves what every other type reads unchanged. */
  lemma FlashRemoveKeepsOthers(f: seq<Flash>, kind: string, other: string)
    requires FlashKindsUnique(f) && other != kind
    ensures FlashLookup(FlashRemove(f, kind), other) == FlashLookup(f, other)
  {
    var i := FlashIndex(f, kind);
    if i >= 0 {
      var g := FlashRemove(f, kind);
      FlashRemoveThenLookup(f, kind);
      assert forall j | 0 <= j < |g| :: g[j] == (if j < i then f[j] else f[j + 1]);
      var io := FlashIndex(f, other);
      if io >= 0 {
        var k := if io < i then io else io - 1;
        assert g[k] == f[io];
        FlashIndexUnique(g, other, k);
      }
    }
  }

  /** Setting every message of `messages` in turn under one type. */
  function FlashSetEach(f: seq<Flash>, kind: string, messages: seq<string>): seq<Flash>
    decreases |messages|
  {
    if messages == [] then f
    else FlashSet(FlashSetEach(f, kind, messages[..|messages| - 1]), kind, messages[|messages| - 1])
  }

  /** Of several messages set under one type only the last survives. */
  lemma {:induction false} FlashLastWins(f: seq<Flash>, kind: string, messages: seq<string>)
    requires FlashKindsUnique(f)
    ensures FlashKindsUnique(FlashSetEach(f, kind, messages))
    ensures messages != [] ==> FlashLookup(FlashSetEach(f, kind, messages), kind) == Some(messages[|messages| - 1])
  {
    if messages != [] {
      var front := messages[..|messages| - 1];
      FlashLastWins(f, kind, front);
      FlashSetThenLookup(FlashSetEach(f, kind, front), kind, messages[|messages| - 1]);
    }
  }

  /** One rendered notice of `displayFlashMessages`; the HTML markup and
      `htmlspecialchars` escaping are not modelled. */
  datatype Alert = Alert(cssClass: string, message: string)

  function AlertFor(entry: Flash): Alert {
    Alert(if entry.kind == "error" then "alert-danger" else "alert-success", entry.message)
  }

  /** How `requireLogin`/`requireRole` end: the request goes on, or the
      visitor is redirected and the script exits. */
  datatype Gate = Admitted | Denied(url: string)

  const EXPIRED_MESSAGE: string := "Your session has expired. Please login again."
  const LOGIN_REQUIRED_MESSAGE: string := "Please login to access this page."
  const ACCESS_DENIED_MESSAGE: string := "Access denied. Insufficient permissions."

  /** The six user entries `logoutUser` unsets. */
  datatype UserEntries = UserEntries(
    id: Option<int>,
    name: Option<string>,
    phone: Option<string>,
    location: Option<string>,
    role: Option<string>,
    loginTime: Option<int>)

  const NO_USER: UserEntries := UserEntries(None, None, None, None, None, None)

  /** Everything one session holds, as a value. */
  datatype SessionState = SessionState(csrf: CsrfSlot, user: UserEntries, flash: seq<Flash>, generation: nat)

  /** A user id is stored and is not PHP-empty. */
  predicate HasUser(u: UserEntries) {
    u.id.Some? && u.id.value != 0
  }

  /** The session after `isLoggedIn()` at time `now`: a stored user whose
      login has expired is logged out, with a new session id and the
      expiry error; every other session is left as it was. */
  function AfterLoginCheck(s: SessionState, now: int): (r: SessionState)
    requires FlashKindsUnique(s.flash)
    ensures FlashKindsUnique(r.flash) && r.csrf == s.csrf
    ensures HasUser(s.user) && IsSessionExpired(s.user.loginTime, now) ==>
              r.user == NO_USER && r.generation == s.generation + 1
              && FlashLookup(r.flash, "error") == Some(EXPIRED_MESSAGE)
    ensures !(HasUser(s.user) && IsSessionExpired(s.user.loginTime, now)) ==> r == s
    ensures !HasUser(r.user) || !IsSessionExpired(r.user.loginTime, now)
  {
    if HasUser(s.user) && IsSessionExpired(s.user.loginTime, now) then
      FlashSetThenLookup(s.flash, "error", EXPIRED_MESSAGE);
      SessionState(s.csrf, NO_USER, FlashSet(s.flash, "error", EXPIRED_MESSAGE), s.generation + 1)
    else s
  }

  /** The same session with one more flash message set. */
  function WithFlash(s: SessionState, kind: string, message: string): SessionState {
    s.(flash := FlashSet(s.flash, kind, message))
  }

  /** A session whose user is logged in at time `now`. */
  predicate LoggedInAt(s: SessionState, now: int) {
    HasUser(s.user) && !IsSessionExpired(s.user.loginTime, now)
  }

  /** The session `requireRole` leaves behind when it refuses a request:
      a visitor who is not logged in gets the login-required error (after
      the expiry check), a logged-in user with another role keeps
      everything and gets the access-denied error. */
  function Refused(s: SessionState, now: int): (r: SessionState)
    requires FlashKindsUnique(s.flash)
    ensures FlashKindsUnique(r.flash) && r.csrf == s.csrf && LoggedInAt(r, now) == LoggedInAt(s, now)
    ensures LoggedInAt(s, now) ==>
              r.user == s.user && r.generation == s.generation
              && FlashLookup(r.flash, "error") == Some(ACCESS_DENIED_MESSAGE)
    ensures !LoggedInAt(s, now) ==> FlashLookup(r.flash, "error") == Some(LOGIN_REQUIRED_MESSAGE)
  {
    if LoggedInAt(s, now) then
      FlashSetThenLookup(s.flash, "error", ACCESS_DENIED_MESSAGE);
      WithFlash(s, "error", ACCESS_DENIED_MESSAGE)
    else
      var c := AfterLoginCheck(s, now);
      FlashSetThenLookup(c.flash, "error", LOGIN_REQUIRED_MESSAGE);
      WithFlash(c, "error", LOGIN_REQUIRED_MESSAGE)
  }

  /** Where `requireRole` sends a request it refuses. */
  function RefusedUrl(s: SessionState, now: int): (url: string)
    ensures url == BASE_URL + "/index.php" <==> LoggedInAt(s, now)
  {
    if LoggedInAt(s, now) then BASE_URL + "/index.php"
    else
      assert (BASE_URL + "/login.php")[|BASE_URL| + 1] != (BASE_URL + "/index.php")[|BASE_URL| + 1];
      BASE_URL + "/login.php"
  }

  /** The PHP session of one visitor, `$_SESSION`. */
  class Session {
    var csrf: CsrfSlot
    var userId: Option<int>
    var userName: Option<string>
    var userPhone: Option<string>
    var userLocation: Option<string>
    var userRole: Option<string>
    var loginTime: Option<int>
    var flash: seq<Flash>
    /** How often the session identifier has been regenerated. */
    var generation: nat

    ghost predicate Valid()
      reads this
    {
      FlashKindsUnique(flash)
    }

    /** The user entries `logoutUser` unsets are all unset. */
    ghost predicate NoUser()
      reads this
    {
      userId.None? && userName.None? && userPhone.None? && userLocation.None?
      && userRole.None? && loginTime.None?
    }

    /** The session's contents as a value. */
    function State(): SessionState
      reads this
    {
      SessionState(csrf, UserEntries(userId, userName, userPhone, userLocation, userRole, loginTime), flash, generation)
    }

    /** What `isLoggedIn()` answers at time `now`. */
    predicate LoggedIn(now: int)
      reads this
    {
      userId.Some? && userId.value != 0 && !IsSessionExpired(loginTime, now)
    }

    /** What `requireRole($role)` lets through at time `now`. */
    predicate Admits(role: string, now: int)
      reads this
    {
      LoggedIn(now) && HasRole(userRole, role)
    }

    /** A session as `session_start()` creates it: nothing stored. */
    constructor ()
      ensures Valid() && NoUser()
      ensures csrf == CsrfSlot(None, None) && flash == [] && generation == 0
    {
      csrf := CsrfSlot(None, None);
      userId, userName, userPhone, userLocation := None, None, None, None;
      userRole, loginTime := None, None;
      flash := [];
      generation := 0;
    }

    /** `generateCSRFToken()`: returns the stored token, storing `newToken`
        and `now` first when either entry is empty. */
    method GenerateCSRFToken(now: int, newToken: string) returns (token: string)
      modifies this`csrf
      ensures csrf == GenerateToken(old(csrf), now, newToken)
      ensures csrf.token == Some(token)
      ensures old(HasToken(csrf)) ==> token == old(csrf.token.value)
    {
      if !HasToken(csrf) {
        csrf := CsrfSlot(Some(newToken), Some(now));
      }
      token := csrf.token.value;
    }

    /** The corrected issuance: a token an hour old or older is replaced
        too, so the token a form carries is inside the one-hour window of
        `validateCSRFToken`. */
    method GenerateCSRFTokenRefreshing(now: int, newToken: string) returns (token: string)
      modifies this`csrf
      ensures csrf == GenerateTokenRefreshing(old(csrf), now, newToken)
      ensures csrf.token == Some(token)
    {
      if !(HasToken(csrf) && now - csrf.time.value < 3600) {
        csrf := CsrfSlot(Some(newToken), Some(now));
      }
      token := csrf.token.value;
    }

    /** `regenerateSession()`: a new session identifier, same contents. */
    method RegenerateSession()
      modifies this`generation
      ensures generation == old(generation) + 1
    {
      generation := generation + 1;
    }

    /** `logoutUser()`: unsets exactly the six user entries and regenerates
        the session identifier; the CSRF entries and flash messages stay. */
    method LogoutUser()
      modifies this
      ensures NoUser()
      ensures csrf == old(csrf) && flash == old(flash)
      ensures generation == old(generation) + 1
    {
      userId, userName, userPhone, userLocation := None, None, None, None;
      userRole, loginTime := None, None;
      RegenerateSession();
    }

    /** `setFlashMessage($type, $message)`. */
    method SetFlashMessage(kind: string, message: string)
      requires Valid()
      modifies this`flash
      ensures Valid()
      ensures flash == FlashSet(old(flash), kind, message)
      ensures FlashLookup(flash, kind) == Some(message)
    {
      FlashSetThenLookup(flash, kind, message);
      flash := FlashSet(flash, kind, message);
    }

    /** `getFlashMessage($type)`: the message, removed from the session. */
    method GetFlashMessage(kind: string) returns (message: Option<string>)
      requires Valid()
      modifies this`flash
      ensures Valid()
      ensures message == FlashLookup(old(flash), kind)
      ensures flash == FlashRemove(old(flash), kind)
      ensures FlashLookup(flash, kind).None?
    {
      FlashRemoveThenLookup(flash, kind);
      message := FlashLookup(flash, kind);
      flash := FlashRemove(flash, kind);
    }

    /** `displayFlashMessages()`: one notice per stored message, in the
        order stored, errors styled as danger; then all are removed. */
    method DisplayFlashMessages() returns (output: seq<Alert>)
      requires Valid()
      modifies this`flash
      ensures Valid()
      ensures |output| == |old(flash)|
      ensures forall i | 0 <= i < |output| :: output[i] == AlertFor(old(flash)[i])
      ensures flash == []
    {
      output := [];
      for i := 0 to |flash|
        invariant |output| == i
        invariant forall j | 0 <= j < i :: output[j] == AlertFor(flash[j])
      {
        output := output + [AlertFor(flash[i])];
      }
      flash := [];
    }

    /** `isLoggedIn()`: a non-empty user id and an unexpired login. An
        expired session is logged out and told so with an error flash. */
    method IsLoggedIn(now: int) returns (ok: bool)
      requires Valid()
      modifies this
      ensures Valid()
      ensures ok == old(LoggedIn(now))
      ensures ok ==> unchanged(this)
      ensures State() == AfterLoginCheck(old(State()), now)
    {
      if userId.None? || userId.value == 0 {
        return false;
      }
      if IsSessionExpired(loginTime, now) {
        LogoutUser();
        SetFlashMessage("error", EXPIRED_MESSAGE);
        return false;
      }
      return true;
    }

    /** `requireLogin()`: a visitor who is not logged in is sent to the
        login page with an error flash, after whatever `isLoggedIn()`
        did to an expired session. */
    method RequireLogin(now: int) returns (gate: Gate)
      requires Valid()
      modifies this
      ensures Valid()
      ensures gate == Admitted <==> old(LoggedIn(now))
      ensures gate == Admitted ==> unchanged(this)
      ensures gate.Denied? ==>
                gate.url == BASE_URL + "/login.php"
                && State() == WithFlash(AfterLoginCheck(old(State()), now), "error", LOGIN_REQUIRED_MESSAGE)
                && FlashLookup(flash, "error") == Some(LOGIN_REQUIRED_MESSAGE)
    {
      var ok := IsLoggedIn(now);
      if !ok {
        SetFlashMessage("error", LOGIN_REQUIRED_MESSAGE);
        gate := Denied(BASE_URL + "/login.php");
      } else {
        gate := Admitted;
      }
    }

    /** `requireRole($role)`: admits only a logged-in session whose role is
        `role`; a logged-in session with another role keeps everything but
        gets an error flash, and is sent to the index page. */
    method RequireRole(role: string, now: int) returns (gate: Gate)
      requires Valid()
      modifies this
      ensures Valid()
      ensures gate == Admitted <==> old(Admits(role, now))
      ensures gate == Admitted ==> unchanged(this)
      ensures gate.Denied? && !old(LoggedIn(now)) ==>
                gate.url == BASE_URL + "/login.php"
                && State() == WithFlash(AfterLoginCheck(old(State()), now), "error", LOGIN_REQUIRED_MESSAGE)
                && FlashLookup(flash, "error") == Some(LOGIN_REQUIRED_MESSAGE)
      ensures gate.Denied? && old(LoggedIn(now)) ==>
                gate.url == BASE_URL + "/index.php"
                && State() == WithFlash(old(State()), "error", ACCESS_DENIED_MESSAGE)
                && FlashLookup(flash, "error") == Some(ACCESS_DENIED_MESSAGE)
      ensures gate.Denied? ==> gate.url == RefusedUrl(old(State()), now) && State() == Refused(old(State()), now)
    {
      gate := RequireLogin(now);
      if gate.Denied? {
        return;
      }
      if !HasRole(userRole, role) {
        SetFlashMessage("error", ACCESS_DENIED_MESSAGE);
        gate := Denied(BASE_URL + "/index.php");
      }
    }
  }
}
