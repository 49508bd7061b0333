/** Seller self-registration, seller/register.php: every field is checked
    and all errors are listed together; a phone number already in use is
    refused; a new account is always a seller and stores only the hash of
    its password. */
module Register {
  import opened Common
  import opened Security
  import opened Ledger
  import Validation

  const NAME_REQUIRED: string := "Full name is required."
  const NAME_TOO_SHORT: string := "Name must be at least 3 characters long."
  const PHONE_REQUIRED: string := "Phone number is required."
  const PHONE_INVALID: string := "Please enter a valid phone number (10-15 digits)."
  const LOCATION_REQUIRED: string := "Location is required."
  const LOCATION_TOO_SHORT: string := "Location must be at least 3 characters long."
  const PASSWORD_REQUIRED: string := "Password is required."
  const PASSWORD_TOO_SHORT: string := "Password must be at least 6 characters long."
  const PASSWORD_MISMATCH: string := "Passwords do not match."
  const PHONE_TAKEN: string := "A user with this phone number already exists."
  const REGISTERED: string := "Registration successful! You can now login."

  /** What a complete registration form is: name and location of at least
      3 bytes, a 10-15 digit phone, a password of at least 6 bytes, and a
      matching confirmation. */
  predicate ValidRegistration(name: string, phone: string, location: string, password: string, confirm: string) {
    |name| >= 3 && Validation.ValidatePhone(phone) && |location| >= 3
    && |password| >= 6 && password == confirm
  }

  /** Lines 28-54: one check per field, each giving at most one error, and
      the confirmation checked on its own. */
  function RegistrationErrors(name: string, phone: string, location: string, password: string, confirm: string): (errors: seq<string>)
    ensures |errors| <= 5
    ensures password != confirm ==> errors != [] && errors[|errors| - 1] == PASSWORD_MISMATCH
    ensures password == confirm ==> PASSWORD_MISMATCH !in errors
  {
    NameErrors(name) + PhoneErrors(phone) + LocationErrors(location) + PasswordErrors(password)
    + (if password != confirm then [PASSWORD_MISMATCH] else [])
  }

  function NameErrors(name: string): seq<string> {
    if Empty(name) then [NAME_REQUIRED] else if |name| < 3 then [NAME_TOO_SHORT] else []
  }

  function PhoneErrors(phone: string): seq<string> {
    if Empty(phone) then [PHONE_REQUIRED] else if !Validation.ValidatePhone(phone) then [PHONE_INVALID] else []
  }

  function LocationErrors(location: string): seq<string> {
    if Empty(location) then [LOCATION_REQUIRED] else if |location| < 3 then [LOCATION_TOO_SHORT] else []
  }

  function PasswordErrors(password: string): seq<string> {
    if Empty(password) then [PASSWORD_REQUIRED] else if |password| < 6 then [PASSWORD_TOO_SHORT] else []
  }

  lemma EmptyIsShort(s: string, n: nat)
    requires Empty(s) && n >= 2
    ensures |s| < n
  {
  }

  lemma EmptyPhoneInvalid(phone: string)
    requires Empty(phone)
    ensures !Validation.ValidatePhone(phone)
  {
    assert !Validation.DigitRun(phone);
    if |phone| > 0 {
      assert phone == "0";
      assert !Validation.DigitRun(phone[..|phone| - 1]);
    }
  }

  /** The form is accepted exactly when it is complete, and a mismatched
      confirmation is reported whatever else is wrong. */
  lemma RegistrationErrorsSpec(name: string, phone: string, location: string, password: string, confirm: string)
    ensures RegistrationErrors(name, phone, location, password, confirm) == []
            <==> ValidRegistration(name, phone, location, password, confirm)
    ensures PASSWORD_MISMATCH in RegistrationErrors(name, phone, location, password, confirm) <==> password != confirm
    ensures |RegistrationErrors(name, phone, location, password, confirm)| <= 5
  {
    if Empty(name) { EmptyIsShort(name, 3); }
    if Empty(location) { EmptyIsShort(location, 3); }
    if Empty(password) { EmptyIsShort(password, 6); }
    if Empty(phone) { EmptyPhoneInvalid(phone); }
  }

  /** Lines 27-54: the checks run one after another, each appending its
      error to the list. */
  method FormErrors(name: string, phone: string, location: string, password: string, confirm: string)
    returns (errors: seq<string>)
    ensures errors == RegistrationErrors(name, phone, location, password, confirm)
  {
    errors := [];
    if Empty(name) {
      errors := errors + [NAME_REQUIRED];
    } else if |name| < 3 {
      errors := errors + [NAME_TOO_SHORT];
    }
    assert errors == NameErrors(name);
    if Empty(phone) {
      errors := errors + [PHONE_REQUIRED];
    } else if !Validation.ValidatePhone(phone) {
      errors := errors + [PHONE_INVALID];
    }
    assert errors == NameErrors(name) + PhoneErrors(phone);
    if Empty(location) {
      errors := errors + [LOCATION_REQUIRED];
    } else if |location| < 3 {
      errors := errors + [LOCATION_TOO_SHORT];
    }
    assert errors == NameErrors(name) + PhoneErrors(phone) + LocationErrors(location);
    if Empty(password) {
      errors := errors + [PASSWORD_REQUIRED];
    } else if |password| < 6 {
      errors := errors + [PASSWORD_TOO_SHORT];
    }
    assert errors == NameErrors(name) + PhoneErrors(phone) + LocationErrors(location) + PasswordErrors(password);
    if password != confirm {
      errors := errors + [PASSWORD_MISMATCH];
    }
  }

  /** A POST to seller/register.php (lines 8-81). A logged-in visitor is
      sent to the index page first; a bad token gives the one
      invalid-request error; then the form errors; then the phone must be
      new. Only then is one user inserted, with role seller and the hash
      of the password. */
  method Register(session: Session, db: Database, csrfToken: string, name: string, phone: string,
                  location: string, password: string, confirm: string, hash: string -> string, now: int)
    returns (outcome: Outcome)
    requires session.Valid() && db.Valid()
    modifies session, db`users, db`nextUserId
    ensures session.Valid() && db.Valid()
    ensures old(session.LoggedIn(now)) ==>
              outcome == Redirect(BASE_URL + "/index.php") && db.users == old(db.users) && unchanged(session)
    ensures !old(session.LoggedIn(now)) && !ValidateCSRFToken(old(session.csrf), csrfToken, now) ==>
              outcome == Page([INVALID_REQUEST]) && db.users == old(db.users)
              && session.State() == AfterLoginCheck(old(session.State()), now)
    ensures !old(session.LoggedIn(now)) && ValidateCSRFToken(old(session.csrf), csrfToken, now) ==>
              var errors := RegistrationErrors(name, phone, location, password, confirm);
              if errors != [] then
                outcome == Page(errors) && db.users == old(db.users)
                && session.State() == AfterLoginCheck(old(session.State()), now)
              else if PhoneTaken(old(db.users), phone) then
                outcome == Page([PHONE_TAKEN]) && db.users == old(db.users)
                && session.State() == AfterLoginCheck(old(session.State()), now)
              else
                db.users == InsertUser(old(db.users), old(db.nextUserId),
                                       User(name, phone, location, hash(password), ROLE_SELLER, now))
                && outcome == Redirect(BASE_URL + "/login.php")
                && session.State() == WithFlash(AfterLoginCheck(old(session.State()), now), "success", REGISTERED)
                && FlashLookup(session.flash, "success") == Some(REGISTERED)
  {
    var loggedIn := session.IsLoggedIn(now);
    if loggedIn {
      return Redirect(BASE_URL + "/index.php");
    }
    if !ValidateCSRFToken(session.csrf, csrfToken, now) {
      return Page([INVALID_REQUEST]);
    }
    var errors := FormErrors(name, phone, location, password, confirm);
    if errors != [] {
      return Page(errors);
    }
    if PhoneTaken(db.users, phone) {
      return Page([PHONE_TAKEN]);
    }
    var user := User(name, phone, location, hash(password), ROLE_SELLER, now);
    InsertUserKeepsPhonesUnique(db.users, db.nextUserId, user);
    db.users := InsertUser(db.users, db.nextUserId, user);
    db.nextUserId := db.nextUserId + 1;
    session.SetFlashMessage("success", REGISTERED);
    return Redirect(BASE_URL + "/login.php");
  }
}
