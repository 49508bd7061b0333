/** The seller's own stock page, seller/stocks.php: a listing scoped to the
    logged-in seller, its two statistics, and the ownership-checked delete. */
module SellerStocks {
  import opened Common
  import opened Sql
  import opened Security
  import opened Ledger
  import Pagination
  import PublicCatalog

  const PAGE_SIZE: int := 10
  const ORDER: string := "ORDER BY s.updated_at DESC"
  const DELETED_MESSAGE: string := "Stock record deleted successfully!"
  const NOT_FOUND_MESSAGE: string := "Stock record not found."

  /** `s.seller_id = ?`, always first. */
  const OwnedBy: Cond := Eq(StockSellerId)
  /** `ct.name LIKE ?` */
  const Search: Cond := Like(TypeName)

  function Conds(bySearch: bool): seq<Cond> {
    [OwnedBy] + (if bySearch then [Search] else [])
  }

  function FilterParams(sellerId: int, search: string): seq<Value> {
    [IntV(sellerId)] + (if !Empty(search) then [TextV(LikePattern(search))] else [])
  }

  /** The seller's own rows whose coffee name matches the search; there is
      no condition on kilos. */
  predicate Wanted(l: Listing, sellerId: int, search: string) {
    l.sellerId == sellerId && (Empty(search) || Contains(l.typeName, search))
  }

  lemma FilterMeaning(sellerId: int, search: string, l: Listing)
    ensures Selects(Conds(!Empty(search)), FilterParams(sellerId, search), ListingRow(l))
            <==> Wanted(l, sellerId, search)
  {
    var row := ListingRow(l);
    SelectsOne(OwnedBy, [IntV(sellerId)], row);
    SelectsMaybe([OwnedBy], [IntV(sellerId)], !Empty(search), Search, [TextV(LikePattern(search))], row);
    LikePatternMatches(l.typeName, search);
  }

  /** A row whose kilos were set to 0 still shows on the seller's own
      list, while the public catalog never shows it. */
  lemma ZeroKiloRowsListed(l: Listing, search: string, coffeeTypeId: int, location: string)
    requires l.kilos == 0.0
    ensures Selects(Conds(false), FilterParams(l.sellerId, ""), ListingRow(l))
    ensures !Selects(PublicCatalog.Conds(!Empty(search), coffeeTypeId > 0, !Empty(location)),
                     PublicCatalog.FilterParams(search, coffeeTypeId, location), ListingRow(l))
  {
    FilterMeaning(l.sellerId, "", l);
    PublicCatalog.FilterMeaning(search, coffeeTypeId, location, l);
  }

  /** Lines 19-27: scoped to the seller first, then the optional search;
      one `?` per parameter. */
  method BuildFilter(sellerId: int, search: string) returns (where: string, params: seq<Value>)
    ensures where == WhereText(Conds(!Empty(search)))
    ensures params == FilterParams(sellerId, search)
    ensures params[0] == IntV(sellerId)
    ensures Placeholders(where) == |params|
  {
    ghost var conds := [OwnedBy];
    where := "WHERE " + CondText(OwnedBy);
    params := [IntV(sellerId)];
    assert TotalArity(conds) == 1 by {
      assert conds[..0] == [];
    }
    if !Empty(search) {
      WhereAppend(conds, Search);
      where := where + " AND " + CondText(Search);
      conds := conds + [Search];
      params := params + [TextV(LikePattern(search))];
    }
    assert conds == Conds(!Empty(search));
    WherePlaceholders(conds);
  }

  /** Lines 14-16 and 29-55: count and listing share the clause; the page
      is clamped to at least 1 and its window is bound last. */
  method StocksQuery(requestedPage: int, sellerId: int, search: string)
    returns (where: string, params: seq<Value>, sql: string, listParams: seq<Value>)
    ensures where == WhereText(Conds(!Empty(search)))
    ensures params == FilterParams(sellerId, search)
    ensures sql == ListingSql(where, ORDER)
    ensures Placeholders(sql) == |listParams|
    ensures listParams == params + [IntV(PAGE_SIZE), IntV((Pagination.ClampPage(requestedPage) - 1) * PAGE_SIZE)]
  {
    var page := Pagination.ClampPage(requestedPage);
    var offset := (page - 1) * PAGE_SIZE;
    where, params := BuildFilter(sellerId, search);
    sql := ListingSql(where, ORDER);
    listParams := ListingParams(params, PAGE_SIZE, offset);
    ListingPlaceholders(where, ORDER, params, PAGE_SIZE, offset);
  }

  // ---------------------------------------------------------------------
  // Statistics, over the rows of the stocks table in any order
  // ---------------------------------------------------------------------

  /** `SELECT COUNT(*) FROM stocks WHERE seller_id = ?` */
  function RecordCount(rows: seq<Stock>, sellerId: int): nat
    decreases |rows|
  {
    if rows == [] then 0
    else RecordCount(rows[..|rows| - 1], sellerId) + (if rows[|rows| - 1].sellerId == sellerId then 1 else 0)
  }

  /** `SELECT SUM(kilos) FROM stocks WHERE seller_id = ? AND kilos > 0`,
      with `?? 0` for a seller without rows. */
  function TotalKilos(rows: seq<Stock>, sellerId: int): real
    decreases |rows|
  {
    if rows == [] then 0.0
    else
      var last := rows[|rows| - 1];
      TotalKilos(rows[..|rows| - 1], sellerId) + (if last.sellerId == sellerId && last.kilos > 0.0 then last.kilos else 0.0)
  }

  /** The same sum without the `kilos > 0` condition. */
  function AllKilos(rows: seq<Stock>, sellerId: int): real
    decreases |rows|
  {
    if rows == [] then 0.0
    else
      var last := rows[|rows| - 1];
      AllKilos(rows[..|rows| - 1], sellerId) + (if last.sellerId == sellerId then last.kilos else 0.0)
  }

  /** The kilos statistic is never negative, and on a table whose kilos are
      all non-negative the `kilos > 0` condition does not change it. */
  lemma {:induction false} TotalKilosSpec(rows: seq<Stock>, sellerId: int)
    ensures TotalKilos(rows, sellerId) >= 0.0
    ensures (forall i | 0 <= i < |rows| :: rows[i].kilos >= 0.0) ==> TotalKilos(rows, sellerId) == AllKilos(rows, sellerId)
    decreases |rows|
  {
    if rows != [] {
      TotalKilosSpec(rows[..|rows| - 1], sellerId);
    }
  }

  /** A zero-kilo row counts as a record but adds nothing to the total. */
  lemma ZeroKiloRowStatistics(rows: seq<Stock>, r: Stock)
    requires r.kilos == 0.0
    ensures RecordCount(rows + [r], r.sellerId) == RecordCount(rows, r.sellerId) + 1
    ensures TotalKilos(rows + [r], r.sellerId) == TotalKilos(rows, r.sellerId)
  {
    assert (rows + [r])[..|rows|] == rows;
  }

  // ---------------------------------------------------------------------
  // The delete action
  // ---------------------------------------------------------------------

  /** Lines 8-10 and 67-92: a POST with `action=delete`. Only a seller gets
      past the gate; a bad token is told so; a stock id of 0 or less is
      ignored; the row is deleted only when it is the seller's own. */
  method DeleteStock(session: Session, db: Database, csrfToken: string, stockId: int, now: int)
    returns (outcome: Outcome)
    requires session.Valid() && db.Valid()
    modifies session, db`stocks
    ensures session.Valid() && db.Valid()
    ensures !old(session.Admits(ROLE_SELLER, now)) ==>
              outcome == Redirect(RefusedUrl(old(session.State()), now))
              && session.State() == Refused(old(session.State()), now) && db.stocks == old(db.stocks)
    ensures old(session.Admits(ROLE_SELLER, now)) && !ValidateCSRFToken(old(session.csrf), csrfToken, now) ==>
              outcome == Page([]) && db.stocks == old(db.stocks)
              && session.State() == WithFlash(old(session.State()), "error", INVALID_REQUEST)
    ensures old(session.Admits(ROLE_SELLER, now)) && ValidateCSRFToken(old(session.csrf), csrfToken, now) && stockId <= 0 ==>
              outcome == Page([]) && db.stocks == old(db.stocks) && unchanged(session)
    ensures old(session.Admits(ROLE_SELLER, now)) && ValidateCSRFToken(old(session.csrf), csrfToken, now) && stockId > 0 ==>
              db.stocks == DeleteOwned(old(db.stocks), stockId, old(session.userId.value))
              && (if Owns(old(db.stocks), stockId, old(session.userId.value))
                  then outcome == Redirect(SELLER_STOCKS_URL)
                       && session.State() == WithFlash(old(session.State()), "success", DELETED_MESSAGE)
                  else outcome == Page([])
                       && session.State() == WithFlash(old(session.State()), "error", NOT_FOUND_MESSAGE))
  {
    var gate := session.RequireRole(ROLE_SELLER, now);
    if gate.Denied? {
      return Redirect(gate.url);
    }
    var sellerId := session.userId.value;
    if !ValidateCSRFToken(session.csrf, csrfToken, now) {
      session.SetFlashMessage("error", INVALID_REQUEST);
      return Page([]);
    }
    if stockId <= 0 {
      return Page([]);
    }
    if Owns(db.stocks, stockId, sellerId) {
      DeleteOwnedKeepsInvariants(db.stocks, db.types, db.users, db.nextStockId, stockId, sellerId);
      db.stocks := DeleteOwned(db.stocks, stockId, sellerId);
      session.SetFlashMessage("success", DELETED_MESSAGE);
      return Redirect(SELLER_STOCKS_URL);
    }
    session.SetFlashMessage("error", NOT_FOUND_MESSAGE);
    return Page([]);
  }
}
