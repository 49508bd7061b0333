/** Values shared by every request handler: configuration constants, PHP's
    notion of an "empty" form value, and what a handler ends with. */
module Common {

  datatype Option<+T> = None | Some(value: T)

  /** config/config.php: session lifetime in seconds. */
  const SESSION_LIFETIME: int := 3600
  /** config/config.php: bytes of randomness behind a CSRF token. */
  const CSRF_TOKEN_LENGTH: nat := 32
  /** The two account roles of config/config.php. */
  const ROLE_ADMIN: string := "admin"
  const ROLE_SELLER: string := "seller"
  const BASE_URL: string := "/coffee-management-system"
  /** Upper sanity bound on a kilos value submitted by a seller. */
  const MAX_KILOS: real := 999999.0

  /** What every form handler reports for a request whose CSRF token fails. */
  const INVALID_REQUEST: string := "Invalid request. Please try again."
  /** The seller's stock page, where the stock handlers end. */
  const SELLER_STOCKS_URL: string := BASE_URL + "/seller/stocks.php"

  /** PHP's `empty()` on a string: the empty string and "0" are empty. */
  predicate Empty(s: string) {
    s == "" || s == "0"
  }

  /** How a request handler finishes: a `Location:` redirect followed by
      `exit()`, or the page rendered with the accumulated form errors. */
  datatype Outcome = Redirect(url: string) | Page(errors: seq<string>)

  /** Where `redirect()` sends a user of the given role (login.php). */
  function RoleHome(role: string): string {
    if role == ROLE_ADMIN then BASE_URL + "/admin/"
    else if role == ROLE_SELLER then BASE_URL + "/seller/"
    else BASE_URL + "/index.php"
  }
}
