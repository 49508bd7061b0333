# Coffee Management System — a verified model of its request logic

The Coffee Management System is a PHP and SQLite web application. Coffee
sellers register, log in and keep a stock of kilos per coffee type. An
administrator maintains the list of coffee types and browses sellers and
stock. Visitors browse a public catalogue of the stock that is available.

This project models the logic behind those pages in Dafny and proves
properties about it:

- **Security** (`security.dfy`): the session (`$_SESSION`) is a class. It holds
  the CSRF token and its time, the logged-in user's entries, the login time,
  the ordered flash messages, and a counter that stands for the session id.
  It has the helpers of `includes/functions.php`: issuing and checking CSRF
  tokens, the expiry test, the login and role gates, logout, and the flash
  messages.
- **Validation** and **Pagination** (`validation.dfy`, `pagination.dfy`): the
  phone pattern, the required-fields check, `getPagination` and the page
  clamping every listing does.
- **Ledger** (`ledger.dfy`): the three tables `users`, `coffee_types` and
  `stocks` are maps from id to record, held by a `Database` class. Each
  UPDATE, INSERT or DELETE statement the pages run is a function on those
  maps. Lemmas prove that each statement keeps the table invariants:
  - one row per (seller, coffee type);
  - unique type names and phone numbers;
  - non-negative kilos;
  - every stock row refers to an existing type and seller.
- **Sql** (`sql.dfy`): how the listing pages build a WHERE clause from the
  filters present. The text is a function of which filters are set, never of
  their values; there is exactly one bound parameter per `?`. A semantic
  `Selects` says which rows the clause keeps.
- **Page handlers**. Each is a method on the session and the database, and
  its contract gives the outcome and the new state for every path:
  - `add_stock.dfy`, `update_stock.dfy` and `seller_stocks.dfy`: the seller's
    stock pages;
  - `coffee_types.dfy`, `admin_stocks.dfy` and `admin_sellers.dfy`: the
    administrator's pages;
  - `catalog.dfy`: the public catalogue;
  - `register.dfy` and `login.dfy`: registration and sign-in.

A page either redirects or renders itself with a list of error messages.
This is the `Outcome` datatype (`Redirect(url)` or `Page(errors)`). An
`exit` after `redirect()` is a `return`.

External effects are parameters:

- the time `now` (PHP `time()`);
- the random token (`bin2hex(random_bytes(...))`);
- `password_hash` as `hash`, `password_verify` as `verify`, `urlencode`;
- the text PHP prints for a float kilos value (`kilosText`).

## Model

| member | source | states |
|---|---|---|
| Security.ValidateNeedsStoredToken | includes/functions.php:15-27 | no submission is accepted without a stored token and time, and a token other than the stored one is never accepted |
| Security.TokenLifetime | includes/functions.php:15-27 | a stored token is accepted exactly while fewer than 3600 seconds have passed since it was issued (accepted at 59 minutes, refused at 61) |
| Security.GeneratedTokenAccepted | includes/functions.php:7-13 | a session without a token gets the new random token, and that token is accepted for the following hour |
| Security.StaleTokenNeverRefreshed | includes/functions.php:7-13 | as written, an hour-old token is handed out again unchanged and is then refused |
| Security.RefreshedTokenAccepted | includes/functions.php:7-13 | with refreshing issuance, the token a form carries is always accepted when submitted at once |
| Security.Session.GenerateCSRFToken | includes/functions.php:7-13 | stores a token and a time only when either is empty; otherwise returns the stored token |
| Security.Session.GenerateCSRFTokenRefreshing | includes/functions.php:7-13 | the corrected issuance, which also replaces a token an hour old or older |
| Security.ExpiryBoundary | includes/functions.php:87-92 | without a login time a session never expires; at exactly `SESSION_LIFETIME` seconds it is alive, one second later expired |
| Security.RolesExclusive | includes/functions.php:107-109 | a seller never passes the admin role test; a session without a role passes neither |
| Security.Session.RegenerateSession | includes/functions.php:55-59 | the session id changes (the generation counter goes up by one) and nothing else |
| Security.Session.LogoutUser | includes/functions.php:75-85 | every user entry is removed, the token and the flash messages are kept, and the session id changes |
| Security.ValidateCSRFToken | includes/functions.php:15-27 | a token is accepted only if it is the stored token, is non-empty, and a time is stored with it |
| Security.IsSessionExpired | includes/functions.php:87-92 | a session can expire only with a login time stored, and only once more time than that has passed |
| Security.HasRole | includes/functions.php:107-109 | a role passes exactly when a role entry is stored and equals it (see `Security.RolesExclusive`) |
| Security.AfterLoginCheck | includes/functions.php:95-105 | the session after `isLoggedIn()`: a stored non-empty user id whose login has expired is logged out, with a new session id and the expiry error flash; every other session is left exactly as it was; the token is always kept |
| Security.Session.IsLoggedIn | includes/functions.php:95-105 | true exactly when a non-empty user id is stored and the login has not expired, that is no login time is stored or at most `SESSION_LIFETIME` seconds have passed; the whole new session is `AfterLoginCheck` of the old one |
| Security.Session.RequireLogin | includes/functions.php:111-117 | admits exactly a logged-in session, untouched; otherwise redirects to the login page, and the whole new session is what `isLoggedIn()` left plus the login-required error flash |
| Security.Session.RequireRole | includes/functions.php:119-126 | admits exactly a logged-in session with that role, untouched; a visitor not logged in is denied as by `requireLogin`; a logged-in session with another role goes to the index page with every entry kept and only the access-denied error flash set; in both cases the new session is `Refused` of the old one and the target is `RefusedUrl` |
| Security.Refused | includes/functions.php:111-126 | the session a refused request leaves: whether the visitor is logged in does not change and the token is kept; a logged-in user keeps user entries and session id and gets the access-denied error, anyone else gets the login-required error |
| Security.RefusedUrl | includes/functions.php:111-126 | a refused request goes to the index page exactly when the visitor is logged in (otherwise to the login page) |
| Security.Session.SetFlashMessage | includes/functions.php:129-131 | the message of that type is replaced or appended, and it is what a lookup of that type then gives |
| Security.Session.GetFlashMessage | includes/functions.php:133-140 | returns the stored message of that type, if any, and removes it |
| Security.Session.DisplayFlashMessages | includes/functions.php:142-157 | one alert per stored message, in order and with its type, after which no message is left |
| Security.FlashSetThenLookup | includes/functions.php:129-131 | setting a type keeps types unique, makes the lookup give the new message, and adds a slot only for a new type |
| Security.FlashSetKeepsOthers | includes/functions.php:129-131 | setting one type leaves every other type's message as it was |
| Security.FlashRemoveThenLookup | includes/functions.php:133-140 | after reading a type its message is gone and exactly one slot fewer remains when one was there |
| Security.FlashRemoveKeepsOthers | includes/functions.php:133-140 | reading one type leaves every other type's message as it was |
| Security.FlashLastWins | includes/functions.php:129-131 | setting one type to a list of messages in turn leaves only the last one |
| Validation.ValidatePhone | includes/functions.php:40-43 | a valid phone has 10 to 16 characters (the 16th only a final newline) and is never PHP-empty |
| Validation.ValidatePhoneOnTrimmed | includes/functions.php:40-43 | on input without a trailing newline, a phone is valid exactly when it has 10 to 15 characters that are all digits, and a valid phone is never empty |
| Validation.ValidatePhoneAcceptsFinalNewline | includes/functions.php:40-43 | the pattern accepts ten digits followed by a newline, and refuses nine digits and a non-digit |
| Validation.ValidateRequired | includes/functions.php:45-52 | true exactly when no field is empty in PHP's sense ("" or "0") |
| Pagination.CeilDiv | includes/functions.php:166-179 | the number of pages is the least count of pages of `limit` rows that hold all rows, and is 0 only for no rows |
| Pagination.GetPagination | includes/functions.php:166-179 | total pages cover the rows and no page is wasted; the offset is that of the requested page; a previous page exists past page 1, a next page exactly when rows remain after this one |
| Pagination.ClampPage | public/coffee.php:10-12 | the page is at least 1 and is the requested page whenever that is at least 1 |
| Pagination.PagesCoverRows | includes/functions.php:166-179 | every page from the first to the last starts inside the result, and the last reaches its end |
| Pagination.PaginationExamples | includes/functions.php:166-179 | 25 rows at 10 per page give 3 pages with offsets 0 and 20; no rows give no pages |
| Sql.WherePlaceholders | public/coffee.php:21-39 | the WHERE text built from a list of filters has as many `?` as the filters take parameters |
| Sql.WhereAppend | public/coffee.php:21-39 | adding a filter appends `AND` and its condition and adds its parameters |
| Sql.LikePatternMatches | public/coffee.php:24-27 | a column matches `'%' + s + '%'` exactly when it contains `s` |
| Sql.SelectsAppend | public/coffee.php:21-39 | a row passes a clause with one more filter exactly when it passes the rest and that filter |
| Sql.ListingPlaceholders | public/coffee.php:79-93 | the listing statement has one `?` per filter parameter plus LIMIT and OFFSET, bound in that order |
| PublicCatalog.FilterMeaning | public/coffee.php:21-39 | a listing is selected exactly when it has kilos above 0 and matches each filter given: the search in type, seller or location, the type id, and the location |
| PublicCatalog.BuildFilter | public/coffee.php:21-39 | the WHERE text depends only on which filters are set, and the parameters match its `?` one for one |
| PublicCatalog.OrderBy | public/coffee.php:42-62 | an unknown sort key gives the default order, every result is one of the fixed clauses and none holds a `?` |
| PublicCatalog.OrderByOneToOne | public/coffee.php:42-62 | distinct sort keys give distinct orders |
| PublicCatalog.CatalogQuery | public/coffee.php:65-93 | the count and listing statements of the page with 12 rows per page, the offset of the clamped page and one parameter per placeholder |
| PublicCatalog.BuildQueryString | public/coffee.php:366-373 | the query string is empty exactly when every filter is at its default, and otherwise starts with `&` |
| PublicCatalog.QueryStringRoundTrip | public/coffee.php:366-373 | splitting the query string at `&` gives back one `key=value` piece per filter that is set, in order |
| PublicCatalog.SplitJoin | public/coffee.php:366-373 | pieces without `&` joined with `&` split back into the same pieces |
| AdminStocks.FilterMeaning | admin/stocks.php:23-40 | a stock row is selected exactly when it matches each filter given: seller, type, and the search in seller, type or location |
| AdminStocks.BuildFilter | admin/stocks.php:23-40 | the WHERE text depends only on which filters are set, and the parameters match its `?` one for one |
| AdminStocks.StocksQuery | admin/stocks.php:43-71 | the count and listing statements with 10 rows per page and the offset of the clamped page |
| AdminSellers.FilterMeaning | admin/sellers.php:18-26 | a user is listed exactly when the role is seller and, with a search, the name, phone or location contains it |
| AdminSellers.ClauseIsConjunction | admin/sellers.php:18-26 | the role test followed by the optional search is the conjunction of the two conditions |
| AdminSellers.BuildFilter | admin/sellers.php:18-26 | the extra clause is empty exactly without a search; the first parameter is the seller role; one parameter per `?` |
| AdminSellers.SellersQuery | admin/sellers.php:29-47 | the count and listing statements with 10 rows per page and the offset of the clamped page |
| SellerStocks.FilterMeaning | seller/stocks.php:19-27 | a row is listed exactly when it is the seller's own and, with a search, its type name contains it |
| SellerStocks.ZeroKiloRowsListed | seller/stocks.php:19-27 | a row with 0 kilos still appears on the seller's page, while the public catalogue never shows it |
| SellerStocks.BuildFilter | seller/stocks.php:19-27 | the seller id is always the first parameter, the WHERE text depends only on whether there is a search, and one parameter per `?` |
| SellerStocks.StocksQuery | seller/stocks.php:30-55 | the count and listing statements with 10 rows per page and the offset of the clamped page |
| SellerStocks.TotalKilosSpec | seller/stocks.php:58-64 | the total of positive kilos is never negative, and equals the total of all the seller's kilos when none is negative |
| SellerStocks.ZeroKiloRowStatistics | seller/stocks.php:58-64 | a 0-kilo row counts as a record but adds nothing to the total |
| SellerStocks.DeleteStock | seller/stocks.php:67-92 | a refused request gets `Refused`'s session and `RefusedUrl`'s redirect; a bad token only sets the error flash; an id of 0 or less does nothing; the seller's own row is deleted with the success flash and a redirect; another seller's row or a missing one is reported not found; on every path the session differs from the old one at most by that one flash |
| Ledger.DeleteOwned | seller/stocks.php:79-80 | the delete keeps every remaining row as it was, and the seller's own row is gone |
| Ledger.DeleteOwnedSpec | seller/stocks.php:79-80 | the row is removed exactly when it is the seller's own, and every other row is kept |
| Ledger.DeleteOwnedKeepsInvariants | seller/stocks.php:79-80 | deleting a stock row keeps every table invariant |
| Ledger.UpsertStock | seller/add-stock.php:50-58 | after the upsert a row for (seller, type) exists, and no row is deleted |
| Ledger.UpsertOneRow | seller/add-stock.php:50-58 | after the upsert, exactly one row holds (seller, type); its kilos are the old ones plus the new ones (or the new ones for a new row), stamped now |
| Ledger.UpsertFrame | seller/add-stock.php:50-58 | rows of other (seller, type) pairs are untouched, and no row is removed |
| Ledger.UpsertTwice | seller/add-stock.php:50-58 | two additions for the same pair give one row holding their sum |
| Ledger.AccumulatedTotalExceedsBound | seller/add-stock.php:50-58 | a row already at 999999 kilos plus 1 kilo holds 1000000: the bound is on each addition, not on the stored total |
| Ledger.UpsertKeepsInvariants | seller/add-stock.php:50-58 | the upsert keeps one row per pair, the id bound, non-negative kilos and both references |
| Ledger.SetKilos | seller/update-stock.php:50-55 | the update keeps the set of rows, and no row changes its seller or coffee type |
| Ledger.SetKilosSpec | seller/update-stock.php:50-55 | the seller's own row gets the new kilos (replaced, not added) and time; any other row, or a row not owned, is unchanged |
| Ledger.SetKilosKeepsInvariants | seller/update-stock.php:50-55 | setting non-negative kilos keeps every table invariant |
| Ledger.InsertType | admin/coffee-types.php:32-42 | after the insert the name is in use, and every other type is kept |
| Ledger.InsertTypeKeepsNamesUnique | admin/coffee-types.php:32-42 | adding a name not in use keeps type names unique and adds exactly that one type |
| Ledger.RenameType | admin/coffee-types.php:43-55 | the rename keeps the set of types; an existing type takes the new name and keeps its creation time |
| Ledger.RenameTypeKeepsNamesUnique | admin/coffee-types.php:43-55 | renaming to a name no other type has keeps type names unique |
| Ledger.RenameToOwnName | admin/coffee-types.php:43-55 | renaming a type to its own name is allowed and changes nothing |
| Ledger.DeleteType | admin/coffee-types.php:72-93 | the type with that id is gone and every other type is kept |
| Ledger.DeleteUnusedType | admin/coffee-types.php:72-93 | deleting a type no stock row uses keeps every stock row's type reference and every other type |
| Ledger.EmptiedStockBlocksDelete | admin/coffee-types.php:72-93 | a stock row with 0 kilos still counts as a use of its type |
| Ledger.InsertUser | seller/register.php:67-73 | after the insert the phone is in use, and every other user is kept |
| Ledger.InsertUserKeepsPhonesUnique | seller/register.php:67-73 | inserting a user with a new phone keeps phones unique and adds exactly that user |
| AddStock.AddStockErrors | seller/add-stock.php:29-37 | each error appears exactly when its condition holds; the form passes exactly with a type chosen and 0 < kilos <= 999999 |
| AddStock.AddStock | seller/add-stock.php:8-66 | a refused request gets `Refused`'s session and `RefusedUrl`'s redirect; a bad token, form errors, an unknown type or a seller missing from users each leave stock and session unchanged with their error; otherwise the upsert for (session seller, type), a session changed only by the success flash, and a redirect |
| UpdateStock.UpdateStockErrors | seller/update-stock.php:24-32 | each error appears exactly when its condition holds; 0 kilos is accepted |
| UpdateStock.OnlyLastErrorSurvives | seller/update-stock.php:70-74 | with a zero id and negative kilos only the second error is shown, as both go under the `error` flash |
| UpdateStock.FlashErrors | seller/update-stock.php:70-74 | the errors are set in turn as the `error` flash |
| UpdateStock.UpdateStock | seller/update-stock.php:8-76 | a refused request gets `Refused`'s session and `RefusedUrl`'s redirect; every admitted request ends on the stock page with a session changed only by its error or success flashes; only a valid form for a row the seller owns, whose type exists, changes its kilos |
| CoffeeTypes.NameErrors | admin/coffee-types.php:24-28 | a name passes exactly when it is non-empty in PHP's sense and at least 2 bytes long |
| CoffeeTypes.SaveType | admin/coffee-types.php:18-69 | a refused request gets `Refused`'s session and `RefusedUrl`'s redirect; a bad token, name errors, a duplicate or another action leave types and session unchanged; add inserts a new type, edit renames (a name clash only with another type), each changing the session only by its success flash, with a redirect |
| CoffeeTypes.DeleteCoffeeType | admin/coffee-types.php:72-93 | a refused request gets `Refused`'s session and `RefusedUrl`'s redirect; a type used by any stock row is kept with the in-use error; otherwise it is deleted, with a session changed only by the success flash, and a redirect; an empty id or a bad token changes nothing |
| Register.RegistrationErrors | seller/register.php:28-54 | at most five errors, one per field check, with the mismatch error last and present exactly when the confirmation differs |
| Register.RegistrationErrorsSpec | seller/register.php:28-54 | the form passes exactly when name and location have at least 3 bytes, the phone is valid, the password has at least 6 and matches; a mismatch is always reported; at most five errors |
| Register.FormErrors | seller/register.php:28-54 | the errors of all fields are gathered in the page's order |
| Register.Register | seller/register.php:8-82 | a logged-in visitor is sent away with nothing changed; for anyone else the session is `AfterLoginCheck` of the old one on the token, form and phone error pages; only after those checks is one seller inserted with the hash of the password, the session being that one plus the success flash, with a redirect to login |
| Login.LoginErrors | login.php:30-39 | the form passes exactly when the phone is valid and a password is given |
| Login.HomeOf | login.php:8-16 | an admin is sent to the admin home, a seller to the seller home |
| Login.Authenticates | login.php:44-49 | credentials can only be accepted for a phone some user has |
| Login.PhoneFindsOneUser | login.php:44-49 | with unique phones, the credentials are accepted exactly when the password verifies against the hash of the one user with that phone |
| Login.SignIn | login.php:50-61 | the whole new session: a new session id, the six entries of that user with login time now, the token kept, and the welcome flash set |
| Login.Authenticate | login.php:41-73 | succeeds exactly when a user with that phone has a password that verifies; then the whole new session is that user signed in: the six entries hold that user with login time now, the session id is new, the token is kept, the welcome flash is set, and the redirect goes to the role's home; otherwise one message for both failures and the session is untouched |
| Login.Login | login.php:8-81 | a logged-in visitor goes home untouched; then the token, the form and the credentials in that order; on success the whole new session is the phone's user signed in after `isLoggedIn()`, with the redirect to the role's home; every error page leaves the session exactly as `isLoggedIn()` left it, so never logged in |

## Left out

- `sanitizeInput` (includes/functions.php:29-34): the model receives each input after `trim`, `stripslashes` and `strip_tags`; those PHP string functions are not modelled.
- The HTML of every page, the GET display of the forms, and `redirect()`'s header output. A redirect is an `Outcome` value.
- The dashboards `index.php`, `admin/index.php`, `seller/index.php`, `admin/reports.php` and `admin/seller-details.php`. They are read-only reports and are not part of this model.
- `includes/database.php`: the PDO connection, directory creation and the schema bootstrap are I/O. The tables are maps in memory. The schema script is not part of this model. The UNIQUE and foreign-key constraints it would declare are table invariants kept by `Ledger.Database.Valid`.
- Storage failures (`PDOException`) are left out. The one exception is the add-stock foreign key on the seller, whose failure gives the generic error.
- Atomicity and concurrent requests are left out: each request runs alone.
- SQL LIKE is a case-sensitive substring test in the model. SQLite folds ASCII case, and `%` or `_` inside a search term act as wildcards; neither is modelled.
- The ORDER BY clauses are fixed strings. The row order they produce is not modelled.
- Kilos are real numbers. Floating-point rounding and PHP's float-to-text conversion are left out; that text is the `kilosText` parameter.
- `session_regenerate_id` is a counter that goes up by one; the cookie is not modelled. `random_bytes`, `time`, `password_hash`, `password_verify` and `urlencode` are parameters.
- `hash_equals` is plain string equality; its constant-time behaviour is not modelled.
- PHP's string-to-integer conversion (`intval`) of form fields is left out. Ids arrive as integers, and an id that is not numeric in the coffee-type edit and delete forms is not modelled.
- A Dafny `string` stands for a PHP byte string, one character per byte. The length checks of `strlen` (names, locations, passwords) therefore count bytes only for single-byte text; multibyte UTF-8 input, where `strlen` counts each byte, is not modelled.
- SellerStocks.TotalKilosSpec: the statistics are computed over a sequence of the seller's rows rather than over the stocks map.

## Findings

| source | as written | input that shows it | evidently intended | confidence | as-written member | corrected member |
|---|---|---|---|---|---|---|
| includes/functions.php:7-13 | `generateCSRFToken` issues a new token only when the token or its time is empty, so a token older than the hour `validateCSRFToken` allows is handed out again in every form | a session holding token "a1b2" stored at time 1000, a form generated at 4600 and submitted at once: the form carries "a1b2", which is refused | a stored token an hour old or older is replaced by a new one, so a freshly rendered form always carries a token that is accepted | not executed | Security.StaleTokenNeverRefreshed | Security.RefreshedTokenAccepted |
