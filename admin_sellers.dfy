/** The admin seller list of admin/sellers.php: the `users` rows whose role
    is seller, optionally narrowed by a search over name, phone and
    location. */
module AdminSellers {
  import opened Common
  import opened Sql
  import Ledger
  import Pagination

  const PAGE_SIZE: int := 10
  const ORDER: string := "ORDER BY created_at DESC"

  /** `role = ?`, always bound to the seller role. */
  const IsSeller: Cond := Eq(UserRole)
  /** `(name LIKE ? OR phone LIKE ? OR location LIKE ?)` */
  const Search: Cond := AnyLike([UserName, UserPhone, UserLocation])

  function Conds(bySearch: bool): seq<Cond> {
    [IsSeller] + (if bySearch then [Search] else [])
  }

  function FilterParams(search: string): seq<Value> {
    [TextV(ROLE_SELLER)]
    + (if !Empty(search) then [TextV(LikePattern(search)), TextV(LikePattern(search)), TextV(LikePattern(search))] else [])
  }

  /** `WHERE role = ? $whereClause` as both statements write it. */
  function SellersWhere(extra: string): string {
    "WHERE " + CondText(IsSeller) + " " + extra
  }

  function UserRow(u: Ledger.User): Row {
    map[UserName := TextV(u.name), UserPhone := TextV(u.phone),
        UserLocation := TextV(u.location), UserRole := TextV(u.role)]
  }

  /** Sellers only, matching the search in name, phone or location. */
  predicate Wanted(u: Ledger.User, search: string) {
    u.role == ROLE_SELLER
    && (Empty(search) || Contains(u.name, search) || Contains(u.phone, search) || Contains(u.location, search))
  }

  /** The clause with its parameters selects exactly the wanted users. */
  lemma FilterMeaning(search: string, u: Ledger.User)
    ensures Selects(Conds(!Empty(search)), FilterParams(search), UserRow(u)) <==> Wanted(u, search)
  {
    var row := UserRow(u);
    var bq := !Empty(search);
    var qp := [TextV(LikePattern(search)), TextV(LikePattern(search)), TextV(LikePattern(search))];
    SelectsOne(IsSeller, [TextV(ROLE_SELLER)], row);
    SelectsMaybe([IsSeller], [TextV(ROLE_SELLER)], bq, Search, qp, row);
    AnyLikeThree(UserName, UserPhone, UserLocation, search, row);
  }

  /** The clause the page appends after `role = ?`. */
  function Extra(bySearch: bool): string {
    if bySearch then "AND " + CondText(Search) else ""
  }

  /** With the role condition in front, the page's clause is the
      conjunction of its conditions, up to a trailing space. */
  lemma ClauseIsConjunction(bySearch: bool)
    ensures SellersWhere(Extra(bySearch)) == WhereText(Conds(bySearch)) + (if bySearch then "" else " ")
  {
    var head := "WHERE " + CondText(IsSeller);
    assert WhereText([IsSeller]) == head;
    if bySearch {
      var cond := CondText(Search);
      calc {
        SellersWhere(Extra(true));
        head + " " + ("AND " + cond);
        { SpaceThenAnd(head, cond); }
        head + " AND " + cond;
        { WhereAppend([IsSeller], Search); }
        WhereText([IsSeller] + [Search]);
        { assert [IsSeller] + [Search] == Conds(true); }
        WhereText(Conds(true));
        WhereText(Conds(true)) + "";
      }
    } else {
      calc {
        SellersWhere(Extra(false));
        head + " " + [];
        head + " ";
        { assert Conds(false) == [IsSeller]; }
        WhereText(Conds(false)) + " ";
      }
    }
  }

  lemma SpaceThenAnd(head: string, cond: string)
    ensures head + " " + ("AND " + cond) == head + " AND " + cond
  {
    assert " " + "AND " == " AND ";
    calc {
      head + " " + ("AND " + cond);
      head + (" " + "AND ") + cond;
      head + " AND " + cond;
    }
  }

  lemma ClausePlaceholders(bySearch: bool)
    ensures Placeholders(SellersWhere(Extra(bySearch))) == 1 + (if bySearch then 3 else 0)
  {
    ClauseIsConjunction(bySearch);
    WherePlaceholders(Conds(bySearch));
    assert TotalArity([IsSeller]) == 1 by {
      assert [IsSeller][..0] == [];
    }
    if bySearch {
      WhereAppend([IsSeller], Search);
      assert WhereText(Conds(true)) + "" == WhereText(Conds(true));
    } else {
      NoPlaceholders(" ");
      PlaceholdersAppend(WhereText(Conds(false)), " ");
    }
  }

  /** Lines 18-26: the role is always the first parameter; a search adds
      one OR group and three patterns. */
  method BuildFilter(search: string) returns (extra: string, params: seq<Value>)
    ensures extra == "" <==> Empty(search)
    ensures extra == Extra(!Empty(search))
    ensures params == FilterParams(search)
    ensures params[0] == TextV(ROLE_SELLER)
    ensures Placeholders(SellersWhere(extra)) == |params|
  {
    extra := "";
    params := [TextV(ROLE_SELLER)];
    if !Empty(search) {
      var searchParam := TextV(LikePattern(search));
      extra := "AND " + CondText(Search);
      params := params + [searchParam, searchParam, searchParam];
    }
    ClausePlaceholders(!Empty(search));
  }

  /** Lines 13-15 and 29-46: the count and the listing run on the same
      clause and parameters; the listing appends the page window. */
  method SellersQuery(requestedPage: int, search: string)
    returns (where: string, params: seq<Value>, sql: string, listParams: seq<Value>)
    ensures where == SellersWhere(Extra(!Empty(search)))
    ensures params == FilterParams(search)
    ensures Placeholders(where) == |params|
    ensures sql == ListingSql(where, ORDER)
    ensures Placeholders(sql) == |listParams|
    ensures listParams == params + [IntV(PAGE_SIZE), IntV((Pagination.ClampPage(requestedPage) - 1) * PAGE_SIZE)]
  {
    var page := Pagination.ClampPage(requestedPage);
    var offset := (page - 1) * PAGE_SIZE;
    var extra;
    extra, params := BuildFilter(search);
    where := SellersWhere(extra);
    sql := ListingSql(where, ORDER);
    listParams := ListingParams(params, PAGE_SIZE, offset);
    ListingPlaceholders(where, ORDER, params, PAGE_SIZE, offset);
  }
}
