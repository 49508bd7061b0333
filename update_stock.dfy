/** The update handler of seller/update-stock.php: a seller sets the kilos
    of one of their own stock rows. Every request ends on the seller's
    stock page, with any errors passed along as flash messages. */
module UpdateStock {
  import opened Common
  import opened Security
  import opened Ledger

  const INVALID_RECORD: string := "Invalid stock record."
  const KILOS_NEGATIVE: string := "Kilos cannot be negative."
  const KILOS_TOO_LARGE: string := "Kilos value is too large."
  const NOT_YOURS: string := "Stock record not found or does not belong to you."

  /** Lines 24-32: stock id 0, a negative amount and an amount above the
      bound are errors; 0 kilos is accepted. */
  function UpdateStockErrors(stockId: int, kilos: real): (errors: seq<string>)
    ensures INVALID_RECORD in errors <==> stockId == 0
    ensures KILOS_NEGATIVE in errors <==> kilos < 0.0
    ensures KILOS_TOO_LARGE in errors <==> kilos > MAX_KILOS
    ensures errors == [] <==> stockId != 0 && 0.0 <= kilos <= MAX_KILOS
    ensures |errors| <= 2
  {
    (if stockId == 0 then [INVALID_RECORD] else [])
    + (if kilos < 0.0 then [KILOS_NEGATIVE] else if kilos > MAX_KILOS then [KILOS_TOO_LARGE] else [])
  }

  /** The row is the seller's own and its coffee type exists: the
      `SELECT ... JOIN coffee_types ... WHERE s.id = ? AND s.seller_id = ?`
      of lines 37-44 finds it. */
  predicate Found(stocks: Stocks, types: Types, stockId: int, sellerId: int) {
    Owns(stocks, stockId, sellerId) && stocks[stockId].coffeeTypeId in types
  }

  function UpdatedMessage(kilosText: string, typeName: string): string {
    "Stock updated successfully! " + kilosText + " kg of " + typeName + " is now available."
  }

  /** All errors go under the one `error` flash type, so a request with a
      zero stock id and a negative amount leaves only the second. */
  lemma OnlyLastErrorSurvives(f: seq<Flash>)
    requires FlashKindsUnique(f)
    ensures UpdateStockErrors(0, -1.0) == [INVALID_RECORD, KILOS_NEGATIVE]
    ensures FlashLookup(FlashSetEach(f, "error", UpdateStockErrors(0, -1.0)), "error") == Some(KILOS_NEGATIVE)
  {
    FlashLastWins(f, "error", UpdateStockErrors(0, -1.0));
  }

  /** Lines 70-74: each error in turn becomes the `error` flash. */
  method FlashErrors(session: Session, errors: seq<string>)
    requires session.Valid()
    modifies session`flash
    ensures session.Valid()
    ensures session.flash == FlashSetEach(old(session.flash), "error", errors)
  {
    for i := 0 to |errors|
      invariant session.Valid()
      invariant session.flash == FlashSetEach(old(session.flash), "error", errors[..i])
    {
      assert errors[..i + 1][..i] == errors[..i];
      session.SetFlashMessage("error", errors[i]);
    }
    assert errors[..|errors|] == errors;
  }

  /** A POST to seller/update-stock.php (lines 8-76). On success the
      seller's row gets the submitted kilos (not added to the old ones);
      on any error the table is unchanged and each error is set in turn
      as the `error` flash. Every request ends on the stock page. */
  method UpdateStock(session: Session, db: Database, csrfToken: string, stockId: int, kilos: real,
                     kilosText: string, now: int)
    returns (outcome: Outcome)
    requires session.Valid() && db.Valid()
    modifies session, db`stocks
    ensures session.Valid() && db.Valid()
    ensures !old(session.Admits(ROLE_SELLER, now)) ==>
              outcome == Redirect(RefusedUrl(old(session.State()), now))
              && session.State() == Refused(old(session.State()), now) && db.stocks == old(db.stocks)
    ensures old(session.Admits(ROLE_SELLER, now)) ==> outcome == Redirect(SELLER_STOCKS_URL)
    ensures old(session.Admits(ROLE_SELLER, now)) && !ValidateCSRFToken(old(session.csrf), csrfToken, now) ==>
              db.stocks == old(db.stocks) && session.State() == WithFlash(old(session.State()), "error", INVALID_REQUEST)
    ensures old(session.Admits(ROLE_SELLER, now)) && ValidateCSRFToken(old(session.csrf), csrfToken, now) ==>
              var errors := UpdateStockErrors(stockId, kilos);
              var sellerId := old(session.userId.value);
              if errors != [] then
                db.stocks == old(db.stocks)
                && session.State() == old(session.State()).(flash := FlashSetEach(old(session.flash), "error", errors))
              else if !Found(old(db.stocks), old(db.types), stockId, sellerId) then
                db.stocks == old(db.stocks) && session.State() == WithFlash(old(session.State()), "error", NOT_YOURS)
              else
                db.stocks == SetKilos(old(db.stocks), stockId, sellerId, kilos, now)
                && session.State() == WithFlash(old(session.State()), "success",
                     UpdatedMessage(kilosText, old(db.types)[old(db.stocks)[stockId].coffeeTypeId].name))
  {
    var gate := session.RequireRole(ROLE_SELLER, now);
    if gate.Denied? {
      return Redirect(gate.url);
    }
    var sellerId := session.userId.value;
    var errors: seq<string> := [];
    if !ValidateCSRFToken(session.csrf, csrfToken, now) {
      errors := errors + [INVALID_REQUEST];
    } else {
      if stockId == 0 {
        errors := errors + [INVALID_RECORD];
      }
      if kilos < 0.0 {
        errors := errors + [KILOS_NEGATIVE];
      } else if kilos > MAX_KILOS {
        errors := errors + [KILOS_TOO_LARGE];
      }
      assert errors == UpdateStockErrors(stockId, kilos);
      if errors == [] {
        if Found(db.stocks, db.types, stockId, sellerId) {
          var typeName := db.types[db.stocks[stockId].coffeeTypeId].name;
          SetKilosKeepsInvariants(db.stocks, db.types, db.users, db.nextStockId, stockId, sellerId, kilos, now);
          db.stocks := SetKilos(db.stocks, stockId, sellerId, kilos, now);
          session.SetFlashMessage("success", UpdatedMessage(kilosText, typeName));
          return Redirect(SELLER_STOCKS_URL);
        }
        errors := errors + [NOT_YOURS];
      }
    }
    FlashErrors(session, errors);
    return Redirect(SELLER_STOCKS_URL);
  }
}
