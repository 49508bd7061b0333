/** The public catalog of public/coffee.php: its filter builder, its sort
    allow-list, its paging, and `buildQueryString` for the paging links. */
module PublicCatalog {
  import opened Common
  import opened Sql
  import Pagination

  /** Offers per catalog page. */
  const PAGE_SIZE: int := 12
  const DEFAULT_SORT: string := "updated_desc"
  const DEFAULT_ORDER: string := "ORDER BY s.updated_at DESC"

  /** `(ct.name LIKE ? OR u.name LIKE ? OR u.location LIKE ?)` */
  const Search: Cond := AnyLike([TypeName, SellerName, SellerLocation])
  /** `s.coffee_type_id = ?` */
  const OfType: Cond := Eq(StockCoffeeTypeId)
  /** `u.location LIKE ?` */
  const InLocation: Cond := Like(SellerLocation)

  /** The conditions of the clause, given which filters are present. */
  function Conds(bySearch: bool, byType: bool, byLocation: bool): seq<Cond> {
    [Available]
    + (if bySearch then [Search] else [])
    + (if byType then [OfType] else [])
    + (if byLocation then [InLocation] else [])
  }

  /** The bound parameters in order: the search pattern three times, the
      coffee type id, the location pattern, each only when its filter is
      present. */
  function FilterParams(search: string, coffeeTypeId: int, location: string): seq<Value> {
    (if !Empty(search) then [TextV(LikePattern(search)), TextV(LikePattern(search)), TextV(LikePattern(search))] else [])
    + (if coffeeTypeId > 0 then [IntV(coffeeTypeId)] else [])
    + (if !Empty(location) then [TextV(LikePattern(location))] else [])
  }

  /** What a visitor's filters ask for: available stock, matching the
      search in the coffee name, seller name or location, of the chosen
      type, in the chosen location; an absent filter asks for nothing. */
  predicate Wanted(o: Listing, search: string, coffeeTypeId: int, location: string) {
    o.kilos > 0.0
    && (Empty(search) || Contains(o.typeName, search) || Contains(o.sellerName, search) || Contains(o.location, search))
    && (coffeeTypeId <= 0 || o.coffeeTypeId == coffeeTypeId)
    && (Empty(location) || Contains(o.location, location))
  }

  lemma SearchMeaning(search: string, o: Listing)
    ensures Holds(Search, [TextV(LikePattern(search)), TextV(LikePattern(search)), TextV(LikePattern(search))], ListingRow(o))
            <==> Contains(o.typeName, search) || Contains(o.sellerName, search) || Contains(o.location, search)
  {
    AnyLikeThree(TypeName, SellerName, SellerLocation, search, ListingRow(o));
  }

  lemma LocationMeaning(location: string, o: Listing)
    ensures Holds(InLocation, [TextV(LikePattern(location))], ListingRow(o)) <==> Contains(o.location, location)
  {
    LikePatternMatches(o.location, location);
  }

  /** The clause with its parameters selects exactly the wanted offers:
      the filters are ANDed and each parameter reaches its own condition. */
  lemma FilterMeaning(search: string, coffeeTypeId: int, location: string, o: Listing)
    ensures Selects(Conds(!Empty(search), coffeeTypeId > 0, !Empty(location)),
                    FilterParams(search, coffeeTypeId, location), ListingRow(o))
            <==> Wanted(o, search, coffeeTypeId, location)
  {
    var row := ListingRow(o);
    var bs, bt, bl := !Empty(search), coffeeTypeId > 0, !Empty(location);
    var sp := [TextV(LikePattern(search)), TextV(LikePattern(search)), TextV(LikePattern(search))];
    var tp := [IntV(coffeeTypeId)];
    var lp := [TextV(LikePattern(location))];
    var c2 := [Available] + (if bs then [Search] else []);
    var c3 := c2 + (if bt then [OfType] else []);
    var p2 := [] + (if bs then sp else []);
    var p3 := p2 + (if bt then tp else []);
    assert p2 == (if bs then sp else []);
    var a, hs := o.kilos > 0.0, Contains(o.typeName, search) || Contains(o.sellerName, search) || Contains(o.location, search);
    var ht, hl := o.coffeeTypeId == coffeeTypeId, Contains(o.location, location);
    assert Selects([Available], [], row) <==> a by {
      SelectsOne(Available, [], row);
    }
    assert Selects(c2, p2, row) <==> a && (bs ==> hs) by {
      SelectsMaybe([Available], [], bs, Search, sp, row);
      SearchMeaning(search, o);
    }
    assert Selects(c3, p3, row) <==> a && (bs ==> hs) && (bt ==> ht) by {
      SelectsMaybe(c2, p2, bt, OfType, tp, row);
    }
    assert Selects(c3 + (if bl then [InLocation] else []), p3 + (if bl then lp else []), row)
           <==> a && (bs ==> hs) && (bt ==> ht) && (bl ==> hl) by {
      SelectsMaybe(c3, p3, bl, InLocation, lp, row);
      LocationMeaning(location, o);
    }
    assert c3 + (if bl then [InLocation] else []) == Conds(bs, bt, bl);
    assert p3 + (if bl then lp else []) == FilterParams(search, coffeeTypeId, location);
  }

  /** Lines 20-39: grows the clause and the parameter list one present
      filter at a time. The text depends only on which filters are
      present, never on their values; it holds one `?` per parameter. */
  method BuildFilter(search: string, coffeeTypeId: int, location: string)
    returns (where: string, params: seq<Value>)
    ensures where == WhereText(Conds(!Empty(search), coffeeTypeId > 0, !Empty(location)))
    ensures params == FilterParams(search, coffeeTypeId, location)
    ensures Placeholders(where) == |params|
  {
    ghost var conds := [Available];
    where := "WHERE " + CondText(Available);
    params := [];
    assert where == WhereText(conds) && TotalArity(conds) == |params| by {
      assert TotalArity([Available]) == 0;
    }
    if !Empty(search) {
      var searchParam := TextV(LikePattern(search));
      WhereAppend(conds, Search);
      where := where + " AND " + CondText(Search);
      conds := conds + [Search];
      params := params + [searchParam, searchParam, searchParam];
    }
    assert where == WhereText(conds) && TotalArity(conds) == |params|;
    if coffeeTypeId > 0 {
      WhereAppend(conds, OfType);
      where := where + " AND " + CondText(OfType);
      conds := conds + [OfType];
      params := params + [IntV(coffeeTypeId)];
    }
    assert where == WhereText(conds) && TotalArity(conds) == |params|;
    if !Empty(location) {
      var locationParam := TextV(LikePattern(location));
      WhereAppend(conds, InLocation);
      where := where + " AND " + CondText(InLocation);
      conds := conds + [InLocation];
      params := params + [locationParam];
    }
    assert conds == Conds(!Empty(search), coffeeTypeId > 0, !Empty(location));
    WherePlaceholders(conds);
  }

  /** Sort keys with an ORDER BY of their own. */
  const SortKeys: set<string> := {"kilos_desc", "kilos_asc", "name_asc", "name_desc", "location_asc", "updated_asc"}

  /** Every ORDER BY clause the page can produce. */
  const OrderClauses: set<string> := {
    DEFAULT_ORDER, "ORDER BY s.kilos DESC", "ORDER BY s.kilos ASC", "ORDER BY ct.name ASC",
    "ORDER BY ct.name DESC", "ORDER BY u.location ASC", "ORDER BY s.updated_at ASC"}

  /** Lines 42-62: the `switch ($sortBy)` over the allow-list. */
  function OrderBy(sortBy: string): (clause: string)
    ensures clause in OrderClauses
    ensures clause == DEFAULT_ORDER <==> sortBy !in SortKeys
    ensures '?' !in clause
  {
    if sortBy == "kilos_desc" then "ORDER BY s.kilos DESC"
    else if sortBy == "kilos_asc" then "ORDER BY s.kilos ASC"
    else if sortBy == "name_asc" then "ORDER BY ct.name ASC"
    else if sortBy == "name_desc" then "ORDER BY ct.name DESC"
    else if sortBy == "location_asc" then "ORDER BY u.location ASC"
    else if sortBy == "updated_asc" then "ORDER BY s.updated_at ASC"
    else DEFAULT_ORDER
  }

  /** Different known keys give different orders: the allow-list maps keys
      to clauses one to one. */
  lemma OrderByOneToOne(a: string, b: string)
    requires a in SortKeys && b in SortKeys && a != b
    ensures OrderBy(a) != OrderBy(b)
  {
  }

  /** Lines 10-12 and 64-93: the count statement and the listing statement
      of one catalog page, with the page clamped to at least 1, twelve
      offers per page, and the page window bound after the filters. */
  method CatalogQuery(requestedPage: int, search: string, coffeeTypeId: int, location: string, sortBy: string)
    returns (where: string, params: seq<Value>, sql: string, listParams: seq<Value>)
    ensures where == WhereText(Conds(!Empty(search), coffeeTypeId > 0, !Empty(location)))
    ensures params == FilterParams(search, coffeeTypeId, location)
    ensures Placeholders(where) == |params|
    ensures sql == ListingSql(where, OrderBy(sortBy))
    ensures Placeholders(sql) == |listParams|
    ensures listParams == params + [IntV(PAGE_SIZE), IntV((Pagination.ClampPage(requestedPage) - 1) * PAGE_SIZE)]
    ensures listParams[|listParams| - 1].i >= 0
  {
    var page := Pagination.ClampPage(requestedPage);
    var offset := (page - 1) * PAGE_SIZE;
    where, params := BuildFilter(search, coffeeTypeId, location);
    var orderBy := OrderBy(sortBy);
    sql := ListingSql(where, orderBy);
    listParams := ListingParams(params, PAGE_SIZE, offset);
    ListingPlaceholders(where, orderBy, params, PAGE_SIZE, offset);
  }

  // ---------------------------------------------------------------------
  // buildQueryString
  // ---------------------------------------------------------------------

  /** Decimal digits of a positive id, as PHP prints an int. */
  function NatText(n: nat): string
    decreases n
  {
    if n < 10 then ["0123456789"[n]] else NatText(n / 10) + ["0123456789"[n % 10]]
  }

  lemma {:induction false} NatTextPlain(n: nat)
    ensures '&' !in NatText(n) && NatText(n) != []
    decreases n
  {
    if n >= 10 {
      NatTextPlain(n / 10);
    }
  }

  /** `implode('&', $pieces)`. */
  function Join(pieces: seq<string>): string
    decreases |pieces|
  {
    if pieces == [] then ""
    else if |pieces| == 1 then pieces[0]
    else pieces[0] + "&" + Join(pieces[1..])
  }

  /** Splitting a query string at every `&`. */
  function Split(s: string): (parts: seq<string>)
    ensures |parts| >= 1
    decreases |s|
  {
    if s == [] then [[]]
    else
      var rest := Split(s[1..]);
      if s[0] == '&' then [[]] + rest else [[s[0]] + rest[0]] + rest[1..]
  }

  lemma {:induction false} SplitPlain(p: string, r: string)
    requires '&' !in p
    ensures Split(p + r) == [p + Split(r)[0]] + Split(r)[1..]
    decreases |p|
  {
    if p != [] {
      assert (p + r)[1..] == p[1..] + r;
      assert (p + r)[0] == p[0] && p[0] in p;
      SplitPlain(p[1..], r);
      assert [p[0]] + (p[1..] + Split(r)[0]) == p + Split(r)[0];
    } else {
      assert p + r == r;
      assert [] + Split(r)[0] == Split(r)[0];
      assert Split(r) == [Split(r)[0]] + Split(r)[1..];
    }
  }

  /** Splitting undoes joining when no piece contains `&`. */
  lemma {:induction false} SplitJoin(pieces: seq<string>)
    requires pieces != []
    requires forall i | 0 <= i < |pieces| :: '&' !in pieces[i]
    ensures Split(Join(pieces)) == pieces
    decreases |pieces|
  {
    if |pieces| == 1 {
      SplitPlain(pieces[0], []);
      assert pieces[0] + [] == pieces[0];
    } else {
      var p, rest := pieces[0], pieces[1..];
      SplitJoin(rest);
      SplitPlain(p, "&" + Join(rest));
      assert Split("&" + Join(rest)) == [[]] + Split(Join(rest)) by {
        assert ("&" + Join(rest))[1..] == Join(rest);
      }
      assert p + "&" + Join(rest) == p + ("&" + Join(rest));
      assert p + [] == p;
    }
  }

  /** The pieces kept: each filter that differs from its default. */
  function QueryPieces(search: string, coffeeTypeId: int, location: string, sortBy: string,
                       urlencode: string -> string): seq<string>
  {
    (if !Empty(search) then ["search=" + urlencode(search)] else [])
    + (if coffeeTypeId > 0 then ["coffee_type_id=" + NatText(coffeeTypeId)] else [])
    + (if !Empty(location) then ["location=" + urlencode(location)] else [])
    + (if sortBy != DEFAULT_SORT then ["sort=" + urlencode(sortBy)] else [])
  }

  /** `buildQueryString($search, $coffeeTypeId, $location, $sortBy)`;
      `urlencode` is a parameter. Empty exactly when every filter is at
      its default; otherwise `&` and the kept pieces in fixed order. */
  function BuildQueryString(search: string, coffeeTypeId: int, location: string, sortBy: string,
                            urlencode: string -> string): (q: string)
    ensures q == "" <==> Empty(search) && coffeeTypeId <= 0 && Empty(location) && sortBy == DEFAULT_SORT
    ensures q != "" ==> q[0] == '&'
  {
    var pieces := QueryPieces(search, coffeeTypeId, location, sortBy, urlencode);
    if pieces == [] then "" else "&" + Join(pieces)
  }

  /** Since `urlencode` escapes `&`, the link's query string splits back
      into exactly the kept pieces, in order. */
  lemma QueryStringRoundTrip(search: string, coffeeTypeId: int, location: string, sortBy: string,
                             urlencode: string -> string)
    requires forall s :: '&' !in urlencode(s)
    ensures var q := BuildQueryString(search, coffeeTypeId, location, sortBy, urlencode);
            q != "" ==> Split(q[1..]) == QueryPieces(search, coffeeTypeId, location, sortBy, urlencode)
  {
    var pieces := QueryPieces(search, coffeeTypeId, location, sortBy, urlencode);
    if pieces != [] {
      forall i | 0 <= i < |pieces| ensures '&' !in pieces[i] {
        if coffeeTypeId > 0 {
          NatTextPlain(coffeeTypeId);
        }
        assert forall x: string, y: string | '&' !in x && '&' !in y :: '&' !in x + y;
      }
      SplitJoin(pieces);
      assert ("&" + Join(pieces))[1..] == Join(pieces);
    }
  }
}
