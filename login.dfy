/** Sign-in, login.php: a phone number and a password are checked against
    the `users` table; success rotates the session id, stores the user in
    the session and sends them to their role's home. */
module Login {
  import opened Common
  import opened Security
  import opened Ledger
  import Validation

  const PHONE_REQUIRED: string := "Phone number is required."
  const PHONE_INVALID: string := "Please enter a valid phone number."
  const PASSWORD_REQUIRED: string := "Password is required."
  /** The one message for an unknown phone and for a wrong password. */
  const BAD_CREDENTIALS: string := "Invalid phone number or password."

  /** Lines 30-39: phone and password checks, at most one error each. */
  function LoginErrors(phone: string, password: string): (errors: seq<string>)
    ensures errors == [] <==> Validation.ValidatePhone(phone) && !Empty(password)
    ensures PHONE_REQUIRED in errors <==> Empty(phone)
    ensures PASSWORD_REQUIRED in errors <==> Empty(password)
    ensures |errors| <= 2
  {
    (if Empty(phone) then [PHONE_REQUIRED] else if !Validation.ValidatePhone(phone) then [PHONE_INVALID] else [])
    + (if Empty(password) then [PASSWORD_REQUIRED] else [])
  }

  /** A user with this phone exists and the password verifies against its
      stored hash; `verify` stands for `password_verify`. */
  predicate Authenticates(users: Users, phone: string, password: string, verify: (string, string) -> bool)
    ensures Authenticates(users, phone, password, verify) ==> PhoneTaken(users, phone)
  {
    exists id | id in users :: users[id].phone == phone && verify(password, users[id].passwordHash)
  }

  /** Where an already logged-in visitor is sent (lines 8-16). */
  function HomeOf(userRole: Option<string>): (url: string)
    ensures HasRole(userRole, ROLE_ADMIN) ==> url == RoleHome(ROLE_ADMIN)
    ensures HasRole(userRole, ROLE_SELLER) ==> url == RoleHome(ROLE_SELLER)
    ensures userRole.None? ==> url == RoleHome("")
  {
    if userRole.Some? then RoleHome(userRole.value) else RoleHome("")
  }

  /** The welcome notice. */
  function WelcomeMessage(name: string): string {
    "Welcome back, " + name + "!"
  }

  /** The session `after` is `before` with the user of that phone signed
      in at `now`: the password verifies against that user's hash, the six
      entries hold that user, the session id is new, the token is kept and
      the welcome message is set. */
  ghost predicate SignedIn(after: SessionState, before: SessionState, users: Users, phone: string,
                           password: string, verify: (string, string) -> bool, now: int)
  {
    after.user.id.Some? && after.user.id.value in users
    && var u := users[after.user.id.value];
    u.phone == phone && verify(password, u.passwordHash)
    && after == SessionState(before.csrf,
                             UserEntries(after.user.id, Some(u.name), Some(u.phone), Some(u.location), Some(u.role), Some(now)),
                             FlashSet(before.flash, "success", WelcomeMessage(u.name)),
                             before.generation + 1)
  }

  /** Lines 41-73: the lookup by phone and the password check. On success
      the session id is rotated and the six user entries are set, with the
      login time `now`; on failure the session is not touched. */
  method Authenticate(session: Session, db: Database, phone: string, password: string,
                      verify: (string, string) -> bool, now: int)
    returns (outcome: Outcome)
    requires session.Valid() && db.Valid()
    modifies session
    ensures session.Valid()
    ensures outcome.Redirect? <==> Authenticates(db.users, phone, password, verify)
    ensures !Authenticates(db.users, phone, password, verify) ==>
              outcome == Page([BAD_CREDENTIALS]) && unchanged(session)
    ensures Authenticates(db.users, phone, password, verify) ==>
              SignedIn(session.State(), old(session.State()), db.users, phone, password, verify, now)
              && outcome == Redirect(RoleHome(db.users[session.userId.value].role))
  {
    if !exists id | id in db.users :: db.users[id].phone == phone {
      return Page([BAD_CREDENTIALS]);
    }
    var id :| id in db.users && db.users[id].phone == phone;
    var user := db.users[id];
    PhoneFindsOneUser(db.users, id, phone, password, verify);
    if !verify(password, user.passwordHash) {
      return Page([BAD_CREDENTIALS]);
    }
    SignIn(session, id, user, now);
    return Redirect(RoleHome(user.role));
  }

  /** With unique phones, the credentials are accepted exactly when the
      password verifies against the hash of the one user with that phone. */
  lemma PhoneFindsOneUser(users: Users, id: int, phone: string, password: string,
                          verify: (string, string) -> bool)
    requires PhonesUnique(users) && id in users && users[id].phone == phone
    ensures Authenticates(users, phone, password, verify) <==> verify(password, users[id].passwordHash)
  {
    if Authenticates(users, phone, password, verify) {
      var j :| j in users && users[j].phone == phone && verify(password, users[j].passwordHash);
      assert j == id;
    }
  }

  /** Lines 50-61: the session id is regenerated, the user's six entries
      are stored with login time `now`, and the welcome message is set. */
  method SignIn(session: Session, id: int, user: User, now: int)
    requires session.Valid()
    modifies session
    ensures session.Valid()
    ensures session.State()
            == SessionState(old(session.csrf),
                            UserEntries(Some(id), Some(user.name), Some(user.phone), Some(user.location), Some(user.role), Some(now)),
                            FlashSet(old(session.flash), "success", WelcomeMessage(user.name)),
                            old(session.generation) + 1)
  {
    session.RegenerateSession();
    session.userId, session.userName, session.userPhone := Some(id), Some(user.name), Some(user.phone);
    session.userLocation, session.userRole, session.loginTime := Some(user.location), Some(user.role), Some(now);
    session.SetFlashMessage("success", WelcomeMessage(user.name));
  }

  /** A POST to login.php (lines 8-81). A visitor already logged in is
      sent to their home; a bad token gives the one invalid-request error
      with no lookup; then the form errors; then the credentials. Only a
      successful check logs the visitor in. */
  method Login(session: Session, db: Database, csrfToken: string, phone: string, password: string,
               verify: (string, string) -> bool, now: int)
    returns (outcome: Outcome)
    requires session.Valid() && db.Valid()
    modifies session
    ensures session.Valid()
    ensures old(session.LoggedIn(now)) ==>
              outcome == Redirect(HomeOf(old(session.userRole))) && unchanged(session)
    ensures !old(session.LoggedIn(now)) && !ValidateCSRFToken(old(session.csrf), csrfToken, now) ==>
              outcome == Page([INVALID_REQUEST])
    ensures !old(session.LoggedIn(now)) && ValidateCSRFToken(old(session.csrf), csrfToken, now) ==>
              if LoginErrors(phone, password) != [] then outcome == Page(LoginErrors(phone, password))
              else if Authenticates(db.users, phone, password, verify) then
                SignedIn(session.State(), AfterLoginCheck(old(session.State()), now), db.users, phone, password, verify, now)
                && outcome == Redirect(RoleHome(db.users[session.userId.value].role))
                && session.LoggedIn(now)
              else outcome == Page([BAD_CREDENTIALS])
    ensures outcome.Page? ==> session.State() == AfterLoginCheck(old(session.State()), now) && !session.LoggedIn(now)
  {
    var loggedIn := session.IsLoggedIn(now);
    if loggedIn {
      return Redirect(HomeOf(session.userRole));
    }
    if !ValidateCSRFToken(session.csrf, csrfToken, now) {
      return Page([INVALID_REQUEST]);
    }
    var errors: seq<string> := [];
    if Empty(phone) {
      errors := errors + [PHONE_REQUIRED];
    } else if !Validation.ValidatePhone(phone) {
      errors := errors + [PHONE_INVALID];
    }
    if Empty(password) {
      errors := errors + [PASSWORD_REQUIRED];
    }
    assert errors == LoginErrors(phone, password);
    if errors != [] {
      return Page(errors);
    }
    outcome := Authenticate(session, db, phone, password, verify, now);
  }
}
