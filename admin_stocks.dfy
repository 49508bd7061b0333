/** The admin stock list of admin/stocks.php: available stock of every
    seller, filtered by seller, coffee type and a free-text search. */
module AdminStocks {
  import opened Common
  import opened Sql
  import Pagination

  /** Stock rows per admin page. */
  const PAGE_SIZE: int := 10
  /** The order is fixed: most recently updated first. */
  const ORDER: string := "ORDER BY s.updated_at DESC"

  /** `s.seller_id = ?` */
  const BySeller: Cond := Eq(StockSellerId)
  /** `s.coffee_type_id = ?` */
  const OfType: Cond := Eq(StockCoffeeTypeId)
  /** `(u.name LIKE ? OR ct.name LIKE ? OR u.location LIKE ?)` */
  const Search: Cond := AnyLike([SellerName, TypeName, SellerLocation])

  function Conds(bySeller: bool, byType: bool, bySearch: bool): seq<Cond> {
    [Available]
    + (if bySeller then [BySeller] else [])
    + (if byType then [OfType] else [])
    + (if bySearch then [Search] else [])
  }

  /** Parameter order: seller, type, then the search pattern three times. */
  function FilterParams(sellerId: int, coffeeTypeId: int, search: string): seq<Value> {
    (if sellerId > 0 then [IntV(sellerId)] else [])
    + (if coffeeTypeId > 0 then [IntV(coffeeTypeId)] else [])
    + (if !Empty(search) then [TextV(LikePattern(search)), TextV(LikePattern(search)), TextV(LikePattern(search))] else [])
  }

  /** What the admin's filters ask for. */
  predicate Wanted(l: Listing, sellerId: int, coffeeTypeId: int, search: string) {
    l.kilos > 0.0
    && (sellerId <= 0 || l.sellerId == sellerId)
    && (coffeeTypeId <= 0 || l.coffeeTypeId == coffeeTypeId)
    && (Empty(search) || Contains(l.sellerName, search) || Contains(l.typeName, search) || Contains(l.location, search))
  }

  lemma SearchMeaning(search: string, l: Listing)
    ensures Holds(Search, [TextV(LikePattern(search)), TextV(LikePattern(search)), TextV(LikePattern(search))], ListingRow(l))
            <==> Contains(l.sellerName, search) || Contains(l.typeName, search) || Contains(l.location, search)
  {
    AnyLikeThree(SellerName, TypeName, SellerLocation, search, ListingRow(l));
  }

  /** The clause with its parameters selects exactly the wanted rows. */
  lemma FilterMeaning(sellerId: int, coffeeTypeId: int, search: string, l: Listing)
    ensures Selects(Conds(sellerId > 0, coffeeTypeId > 0, !Empty(search)),
                    FilterParams(sellerId, coffeeTypeId, search), ListingRow(l))
            <==> Wanted(l, sellerId, coffeeTypeId, search)
  {
    var row := ListingRow(l);
    var bs, bt, bq := sellerId > 0, coffeeTypeId > 0, !Empty(search);
    var sp := [IntV(sellerId)];
    var tp := [IntV(coffeeTypeId)];
    var qp := [TextV(LikePattern(search)), TextV(LikePattern(search)), TextV(LikePattern(search))];
    var c2 := [Available] + (if bs then [BySeller] else []);
    var c3 := c2 + (if bt then [OfType] else []);
    var p2 := [] + (if bs then sp else []);
    var p3 := p2 + (if bt then tp else []);
    assert p2 == (if bs then sp else []);
    var a, hs, ht := l.kilos > 0.0, l.sellerId == sellerId, l.coffeeTypeId == coffeeTypeId;
    var hq := Contains(l.sellerName, search) || Contains(l.typeName, search) || Contains(l.location, search);
    assert Selects([Available], [], row) <==> a by {
      SelectsOne(Available, [], row);
    }
    assert Selects(c2, p2, row) <==> a && (bs ==> hs) by {
      SelectsMaybe([Available], [], bs, BySeller, sp, row);
    }
    assert Selects(c3, p3, row) <==> a && (bs ==> hs) && (bt ==> ht) by {
      SelectsMaybe(c2, p2, bt, OfType, tp, row);
    }
    assert Selects(c3 + (if bq then [Search] else []), p3 + (if bq then qp else []), row)
           <==> a && (bs ==> hs) && (bt ==> ht) && (bq ==> hq) by {
      SelectsMaybe(c3, p3, bq, Search, qp, row);
      SearchMeaning(search, l);
    }
    assert c3 + (if bq then [Search] else []) == Conds(bs, bt, bq);
    assert p3 + (if bq then qp else []) == FilterParams(sellerId, coffeeTypeId, search);
  }

  /** Lines 23-40: the clause grows one present filter at a time; its text
      depends only on which filters are present and holds one `?` per
      parameter. */
  method BuildFilter(sellerId: int, coffeeTypeId: int, search: string)
    returns (where: string, params: seq<Value>)
    ensures where == WhereText(Conds(sellerId > 0, coffeeTypeId > 0, !Empty(search)))
    ensures params == FilterParams(sellerId, coffeeTypeId, search)
    ensures Placeholders(where) == |params|
  {
    ghost var conds := [Available];
    where := "WHERE " + CondText(Available);
    params := [];
    assert where == WhereText(conds) && TotalArity(conds) == |params| by {
      assert TotalArity([Available]) == 0;
    }
    if sellerId > 0 {
      WhereAppend(conds, BySeller);
      where := where + " AND " + CondText(BySeller);
      conds := conds + [BySeller];
      params := params + [IntV(sellerId)];
    }
    assert where == WhereText(conds) && TotalArity(conds) == |params|;
    if coffeeTypeId > 0 {
      WhereAppend(conds, OfType);
      where := where + " AND " + CondText(OfType);
      conds := conds + [OfType];
      params := params + [IntV(coffeeTypeId)];
    }
    assert where == WhereText(conds) && TotalArity(conds) == |params|;
    if !Empty(search) {
      var searchParam := TextV(LikePattern(search));
      WhereAppend(conds, Search);
      where := where + " AND " + CondText(Search);
      conds := conds + [Search];
      params := params + [searchParam, searchParam, searchParam];
    }
    assert conds == Conds(sellerId > 0, coffeeTypeId > 0, !Empty(search));
    WherePlaceholders(conds);
  }

  /** Lines 13-15 and 43-71: the count and listing statements of one admin
      page, with the page clamped to at least 1 and the window bound last. */
  method StocksQuery(requestedPage: int, sellerId: int, coffeeTypeId: int, search: string)
    returns (where: string, params: seq<Value>, sql: string, listParams: seq<Value>)
    ensures where == WhereText(Conds(sellerId > 0, coffeeTypeId > 0, !Empty(search)))
    ensures params == FilterParams(sellerId, coffeeTypeId, search)
    ensures sql == ListingSql(where, ORDER)
    ensures Placeholders(sql) == |listParams|
    ensures listParams == params + [IntV(PAGE_SIZE), IntV((Pagination.ClampPage(requestedPage) - 1) * PAGE_SIZE)]
  {
    var page := Pagination.ClampPage(requestedPage);
    var offset := (page - 1) * PAGE_SIZE;
    where, params := BuildFilter(sellerId, coffeeTypeId, search);
    sql := ListingSql(where, ORDER);
    listParams := ListingParams(params, PAGE_SIZE, offset);
    ListingPlaceholders(where, ORDER, params, PAGE_SIZE, offset);
  }
}
