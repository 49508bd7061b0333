/** The add-stock form of seller/add-stock.php: a seller adds kilos of one
    coffee type to their stock, accumulating onto the row they already
    have for that type. */
module AddStock {
  import opened Common
  import opened Security
  import opened Ledger

  const SELECT_TYPE: string := "Please select a coffee type."
  const KILOS_NOT_POSITIVE: string := "Kilos must be greater than 0."
  const KILOS_TOO_LARGE: string := "Kilos value is too large."
  const INVALID_TYPE: string := "Invalid coffee type selected."
  const ADD_FAILED: string := "Failed to add stock. Please try again."

  /** Lines 29-37: the form errors, in the order the page lists them. A
      missing coffee type and a bad amount are independent; of the two
      amount errors at most one applies. */
  function AddStockErrors(coffeeTypeId: int, kilos: real): (errors: seq<string>)
    ensures SELECT_TYPE in errors <==> coffeeTypeId == 0
    ensures KILOS_NOT_POSITIVE in errors <==> kilos <= 0.0
    ensures KILOS_TOO_LARGE in errors <==> kilos > MAX_KILOS
    ensures errors == [] <==> coffeeTypeId != 0 && 0.0 < kilos <= MAX_KILOS
    ensures |errors| <= 2
  {
    (if coffeeTypeId == 0 then [SELECT_TYPE] else [])
    + (if kilos <= 0.0 then [KILOS_NOT_POSITIVE] else if kilos > MAX_KILOS then [KILOS_TOO_LARGE] else [])
  }

  /** The success notice; `kilosText` is how PHP prints the float. */
  function AddedMessage(kilosText: string, typeName: string): string {
    "Successfully added " + kilosText + " kg of " + typeName + " to your stock!"
  }

  /** A POST to seller/add-stock.php (lines 8-66). The seller id comes
      from the session, never from the form. Any error leaves the stocks
      table as it was; otherwise the one statement upserts the row for
      (seller, coffee type). The foreign key on the seller is checked by
      the engine; its failure is the page's generic error. */
  method AddStock(session: Session, db: Database, csrfToken: string, coffeeTypeId: int, kilos: real,
                  kilosText: string, now: int)
    returns (outcome: Outcome)
    requires session.Valid() && db.Valid()
    modifies session, db`stocks, db`nextStockId
    ensures session.Valid() && db.Valid()
    ensures !old(session.Admits(ROLE_SELLER, now)) ==>
              outcome == Redirect(RefusedUrl(old(session.State()), now))
              && session.State() == Refused(old(session.State()), now) && db.stocks == old(db.stocks)
    ensures old(session.Admits(ROLE_SELLER, now)) && !ValidateCSRFToken(old(session.csrf), csrfToken, now) ==>
              outcome == Page([INVALID_REQUEST]) && db.stocks == old(db.stocks) && unchanged(session)
    ensures old(session.Admits(ROLE_SELLER, now)) && ValidateCSRFToken(old(session.csrf), csrfToken, now) ==>
              var errors := AddStockErrors(coffeeTypeId, kilos);
              var sellerId := old(session.userId.value);
              if errors != [] then
                outcome == Page(errors) && db.stocks == old(db.stocks) && unchanged(session)
              else if coffeeTypeId !in old(db.types) then
                outcome == Page([INVALID_TYPE]) && db.stocks == old(db.stocks) && unchanged(session)
              else if sellerId !in old(db.users) then
                outcome == Page([ADD_FAILED]) && db.stocks == old(db.stocks) && unchanged(session)
              else
                db.stocks == UpsertStock(old(db.stocks), old(db.nextStockId), sellerId, coffeeTypeId, kilos, now)
                && outcome == Redirect(SELLER_STOCKS_URL)
                && session.State() == WithFlash(old(session.State()), "success",
                                                AddedMessage(kilosText, old(db.types)[coffeeTypeId].name))
  {
    var gate := session.RequireRole(ROLE_SELLER, now);
    if gate.Denied? {
      return Redirect(gate.url);
    }
    var sellerId := session.userId.value;
    if !ValidateCSRFToken(session.csrf, csrfToken, now) {
      return Page([INVALID_REQUEST]);
    }
    var errors: seq<string> := [];
    if coffeeTypeId == 0 {
      errors := errors + [SELECT_TYPE];
    }
    if kilos <= 0.0 {
      errors := errors + [KILOS_NOT_POSITIVE];
    } else if kilos > MAX_KILOS {
      errors := errors + [KILOS_TOO_LARGE];
    }
    assert errors == AddStockErrors(coffeeTypeId, kilos);
    if errors != [] {
      return Page(errors);
    }
    if coffeeTypeId !in db.types {
      return Page([INVALID_TYPE]);
    }
    if sellerId !in db.users {
      return Page([ADD_FAILED]);
    }
    var typeName := db.types[coffeeTypeId].name;
    UpsertKeepsInvariants(db.stocks, db.types, db.users, db.nextStockId, sellerId, coffeeTypeId, kilos, now);
    UpsertOneRow(db.stocks, db.nextStockId, sellerId, coffeeTypeId, kilos, now);
    db.stocks := UpsertStock(db.stocks, db.nextStockId, sellerId, coffeeTypeId, kilos, now);
    db.nextStockId := db.nextStockId + 1;
    session.SetFlashMessage("success", AddedMessage(kilosText, typeName));
    return Redirect(SELLER_STOCKS_URL);
  }
}
