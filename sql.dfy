/** The pieces every listing page assembles into a prepared statement: the
    WHERE conditions it may add, the text each renders to, the `?`
    placeholders in that text, and what a condition means for one joined
    result row once its parameters are bound. */
module Sql {
  import opened Common

  /** A value bound to a placeholder, or stored in a result column. */
  datatype Value = IntV(i: int) | RealV(r: real) | TextV(s: string)

  /** The columns the listing pages filter on: stock `s`, coffee type `ct`
      and seller `u` of the joined stock listings, and the bare columns of
      the `users` table. */
  datatype Column =
    | StockKilos | StockSellerId | StockCoffeeTypeId
    | TypeName | SellerName | SellerLocation
    | UserName | UserPhone | UserLocation | UserRole

  function ColumnText(c: Column): string {
    match c
    case StockKilos => "s.kilos"
    case StockSellerId => "s.seller_id"
    case StockCoffeeTypeId => "s.coffee_type_id"
    case TypeName => "ct.name"
    case SellerName => "u.name"
    case SellerLocation => "u.location"
    case UserName => "name"
    case UserPhone => "phone"
    case UserLocation => "location"
    case UserRole => "role"
  }

  /** The placeholder a bound parameter stands for. */
  const Q: string := "?"

  /** Number of `?` in an SQL text. */
  function Placeholders(s: string): nat
    decreases |s|
  {
    if s == [] then 0 else Placeholders(s[..|s| - 1]) + (if s[|s| - 1] == '?' then 1 else 0)
  }

  lemma {:induction false} PlaceholdersAppend(a: string, b: string)
    ensures Placeholders(a + b) == Placeholders(a) + Placeholders(b)
    decreases |b|
  {
    if b == [] {
      assert a + b == a;
    } else {
      assert (a + b)[..|a + b| - 1] == a + b[..|b| - 1];
      PlaceholdersAppend(a, b[..|b| - 1]);
    }
  }

  lemma {:induction false} NoPlaceholders(s: string)
    requires '?' !in s
    ensures Placeholders(s) == 0
    decreases |s|
  {
    if s != [] {
      assert s[|s| - 1] in s;
      assert forall c | c in s[..|s| - 1] :: c in s;
      NoPlaceholders(s[..|s| - 1]);
    }
  }

  lemma ColumnTextPlain(c: Column)
    ensures Placeholders(ColumnText(c)) == 0
  {
    NoPlaceholders(ColumnText(c));
  }

  lemma QuestionMark()
    ensures Placeholders(Q) == 1
  {
    assert Q[..0] == [];
  }

  // ---------------------------------------------------------------------
  // Conditions and their text
  // ---------------------------------------------------------------------

  /** One condition of a WHERE clause. */
  datatype Cond =
    | Positive(col: Column)              // `col > 0`
    | Eq(col: Column)                    // `col = ?`
    | Like(col: Column)                  // `col LIKE ?`
    | AnyLike(cols: seq<Column>)         // `(c1 LIKE ? OR c2 LIKE ? ...)`

  /** `s.kilos > 0`: only stock that is available. */
  const Available: Cond := Positive(StockKilos)

  /** `c1 LIKE ? OR c2 LIKE ? OR ...` */
  function LikeList(cols: seq<Column>): string
    decreases |cols|
  {
    if cols == [] then ""
    else if |cols| == 1 then ColumnText(cols[0]) + " LIKE " + Q
    else LikeList(cols[..|cols| - 1]) + " OR " + ColumnText(cols[|cols| - 1]) + " LIKE " + Q
  }

  function CondText(c: Cond): string {
    match c
    case Positive(col) => ColumnText(col) + " > 0"
    case Eq(col) => ColumnText(col) + " = " + Q
    case Like(col) => ColumnText(col) + " LIKE " + Q
    case AnyLike(cols) => "(" + LikeList(cols) + ")"
  }

  /** Parameters a condition binds. */
  function Arity(c: Cond): nat {
    match c
    case Positive(_) => 0
    case Eq(_) => 1
    case Like(_) => 1
    case AnyLike(cols) => |cols|
  }

  function TotalArity(cs: seq<Cond>): nat
    decreases |cs|
  {
    if cs == [] then 0 else TotalArity(cs[..|cs| - 1]) + Arity(cs[|cs| - 1])
  }

  /** The conditions joined with AND, in the order they were added. */
  function Conjunction(cs: seq<Cond>): string
    decreases |cs|
  {
    if cs == [] then ""
    else if |cs| == 1 then CondText(cs[0])
    else Conjunction(cs[..|cs| - 1]) + " AND " + CondText(cs[|cs| - 1])
  }

  function WhereText(cs: seq<Cond>): string {
    "WHERE " + Conjunction(cs)
  }

  lemma {:induction false} LikeListPlaceholders(cols: seq<Column>)
    ensures Placeholders(LikeList(cols)) == |cols|
    decreases |cols|
  {
    QuestionMark();
    NoPlaceholders(" LIKE ");
    NoPlaceholders(" OR ");
    if |cols| == 1 {
      ColumnTextPlain(cols[0]);
      PlaceholdersAppend(ColumnText(cols[0]), " LIKE ");
      PlaceholdersAppend(ColumnText(cols[0]) + " LIKE ", Q);
    } else if |cols| > 1 {
      var front, last := cols[..|cols| - 1], cols[|cols| - 1];
      LikeListPlaceholders(front);
      ColumnTextPlain(last);
      PlaceholdersAppend(LikeList(front), " OR ");
      PlaceholdersAppend(LikeList(front) + " OR ", ColumnText(last));
      PlaceholdersAppend(LikeList(front) + " OR " + ColumnText(last), " LIKE ");
      PlaceholdersAppend(LikeList(front) + " OR " + ColumnText(last) + " LIKE ", Q);
    }
  }

  /** A condition's text holds one `?` per parameter it binds. */
  lemma CondPlaceholders(c: Cond)
    ensures Placeholders(CondText(c)) == Arity(c)
  {
    QuestionMark();
    match c
    case Positive(col) =>
      ColumnTextPlain(col);
      NoPlaceholders(" > 0");
      PlaceholdersAppend(ColumnText(col), " > 0");
    case Eq(col) =>
      ColumnTextPlain(col);
      NoPlaceholders(" = ");
      PlaceholdersAppend(ColumnText(col), " = ");
      PlaceholdersAppend(ColumnText(col) + " = ", Q);
    case Like(col) =>
      ColumnTextPlain(col);
      NoPlaceholders(" LIKE ");
      PlaceholdersAppend(ColumnText(col), " LIKE ");
      PlaceholdersAppend(ColumnText(col) + " LIKE ", Q);
    case AnyLike(cols) =>
      LikeListPlaceholders(cols);
      NoPlaceholders("(");
      NoPlaceholders(")");
      PlaceholdersAppend("(", LikeList(cols));
      PlaceholdersAppend("(" + LikeList(cols), ")");
  }

  /** A WHERE clause holds exactly as many `?` as its conditions bind
      parameters. */
  lemma {:induction false} WherePlaceholders(cs: seq<Cond>)
    ensures Placeholders(WhereText(cs)) == TotalArity(cs)
    decreases |cs|
  {
    NoPlaceholders("WHERE ");
    ConjunctionPlaceholders(cs);
    PlaceholdersAppend("WHERE ", Conjunction(cs));
  }

  lemma {:induction false} ConjunctionPlaceholders(cs: seq<Cond>)
    ensures Placeholders(Conjunction(cs)) == TotalArity(cs)
    decreases |cs|
  {
    if |cs| == 1 {
      CondPlaceholders(cs[0]);
      assert cs[..0] == [];
    } else if |cs| > 1 {
      var front, last := cs[..|cs| - 1], cs[|cs| - 1];
      ConjunctionPlaceholders(front);
      CondPlaceholders(last);
      NoPlaceholders(" AND ");
      PlaceholdersAppend(Conjunction(front), " AND ");
      PlaceholdersAppend(Conjunction(front) + " AND ", CondText(last));
    }
  }

  /** Adding a condition appends ` AND <text>` to a non-empty clause. */
  lemma WhereAppend(cs: seq<Cond>, c: Cond)
    requires cs != []
    ensures WhereText(cs + [c]) == WhereText(cs) + " AND " + CondText(c)
    ensures TotalArity(cs + [c]) == TotalArity(cs) + Arity(c)
  {
    assert (cs + [c])[..|cs|] == cs;
  }

  // ---------------------------------------------------------------------
  // What a condition selects
  // ---------------------------------------------------------------------

  /** One result row: the value of each column it has. */
  type Row = map<Column, Value>

  /** One row of the stock listing join `stocks s JOIN users u JOIN
      coffee_types ct` that the stock pages read. */
  datatype Listing = Listing(kilos: real, sellerId: int, coffeeTypeId: int,
                             typeName: string, sellerName: string, location: string)

  function ListingRow(l: Listing): Row {
    map[StockKilos := RealV(l.kilos), StockSellerId := IntV(l.sellerId),
        StockCoffeeTypeId := IntV(l.coffeeTypeId), TypeName := TextV(l.typeName),
        SellerName := TextV(l.sellerName), SellerLocation := TextV(l.location)]
  }

  /** `"%$search%"`: the pattern bound for a substring search. */
  function LikePattern(s: string): string {
    "%" + s + "%"
  }

  /** `part` occurs in `text`. */
  predicate Contains(text: string, part: string) {
    exists i | 0 <= i <= |text| :: part <= text[i..]
  }

  /** `text LIKE pattern`, for a pattern of the form `%x%` a substring test
      and otherwise equality. SQLite's ASCII case folding and wildcards
      inside `x` are not modelled. */
  predicate LikeMatches(text: string, pattern: string) {
    if |pattern| >= 2 && pattern[0] == '%' && pattern[|pattern| - 1] == '%'
    then Contains(text, pattern[1..|pattern| - 1])
    else text == pattern
  }

  lemma LikePatternMatches(text: string, s: string)
    ensures LikeMatches(text, LikePattern(s)) <==> Contains(text, s)
  {
    var p := LikePattern(s);
    assert p[1..|p| - 1] == s;
  }

  predicate IsPositive(v: Value) {
    match v
    case IntV(i) => i > 0
    case RealV(r) => r > 0.0
    case TextV(_) => false
  }

  /** The column holds text that the bound pattern matches. */
  predicate ColumnLike(row: Row, col: Column, arg: Value) {
    col in row && row[col].TextV? && arg.TextV? && LikeMatches(row[col].s, arg.s)
  }

  predicate Holds(c: Cond, args: seq<Value>, row: Row)
    requires |args| == Arity(c)
  {
    match c
    case Positive(col) => col in row && IsPositive(row[col])
    case Eq(col) => col in row && row[col] == args[0]
    case Like(col) => ColumnLike(row, col, args[0])
    case AnyLike(cols) => exists k | 0 <= k < |cols| :: ColumnLike(row, cols[k], args[k])
  }

  /** The row satisfies every condition, each with its own parameters
      taken in order from `params`; a count mismatch selects nothing. */
  predicate Selects(cs: seq<Cond>, params: seq<Value>, row: Row)
    decreases |cs|
  {
    if cs == [] then params == []
    else
      var last := cs[|cs| - 1];
      |params| >= Arity(last)
      && Selects(cs[..|cs| - 1], params[..|params| - Arity(last)], row)
      && Holds(last, params[|params| - Arity(last)..], row)
  }

  /** Adding a condition with its parameters narrows the selection to the
      rows that also satisfy it. */
  lemma SelectsAppend(cs: seq<Cond>, params: seq<Value>, c: Cond, args: seq<Value>, row: Row)
    requires |args| == Arity(c)
    ensures Selects(cs + [c], params + args, row) <==> Selects(cs, params, row) && Holds(c, args, row)
  {
    var all := params + args;
    assert (cs + [c])[..|cs|] == cs;
    assert all[..|all| - |args|] == params;
    assert all[|all| - |args|..] == args;
  }

  /** A condition added only when its filter is present. */
  lemma SelectsMaybe(cs: seq<Cond>, params: seq<Value>, present: bool, c: Cond, args: seq<Value>, row: Row)
    requires |args| == Arity(c)
    ensures Selects(cs + (if present then [c] else []), params + (if present then args else []), row)
            <==> Selects(cs, params, row) && (present ==> Holds(c, args, row))
  {
    if present {
      SelectsAppend(cs, params, c, args, row);
    } else {
      assert cs + [] == cs;
      assert params + [] == params;
    }
  }

  lemma SelectsOne(c: Cond, args: seq<Value>, row: Row)
    requires |args| == Arity(c)
    ensures Selects([c], args, row) <==> Holds(c, args, row)
  {
    SelectsAppend([], [], c, args, row);
    assert [] + [c] == [c];
    assert [] + args == args;
  }

  /** Three columns searched for the same pattern: some column matches. */
  lemma AnyLikeThree(a: Column, b: Column, c: Column, s: string, row: Row)
    ensures Holds(AnyLike([a, b, c]), [TextV(LikePattern(s)), TextV(LikePattern(s)), TextV(LikePattern(s))], row)
            <==> (a in row && row[a].TextV? && Contains(row[a].s, s))
                 || (b in row && row[b].TextV? && Contains(row[b].s, s))
                 || (c in row && row[c].TextV? && Contains(row[c].s, s))
  {
    var p := TextV(LikePattern(s));
    var args := [p, p, p];
    var cols := [a, b, c];
    forall col: Column | col in row && row[col].TextV? ensures ColumnLike(row, col, p) <==> Contains(row[col].s, s) {
      LikePatternMatches(row[col].s, s);
    }
    if ColumnLike(row, a, p) { assert ColumnLike(row, cols[0], args[0]); }
    if ColumnLike(row, b, p) { assert ColumnLike(row, cols[1], args[1]); }
    if ColumnLike(row, c, p) { assert ColumnLike(row, cols[2], args[2]); }
  }

  /** The statement a listing page runs: its WHERE clause, its ORDER BY
      clause and a page window whose size and offset are bound last. */
  function ListingSql(where: string, orderBy: string): string {
    where + " " + orderBy + " LIMIT " + Q + " OFFSET " + Q
  }

  /** `array_merge($params, [$limit, $offset])`. */
  function ListingParams(params: seq<Value>, limit: int, offset: int): seq<Value> {
    params + [IntV(limit), IntV(offset)]
  }

  /** With an ORDER BY free of placeholders, the listing statement binds
      exactly the filter parameters followed by the page window. */
  lemma ListingPlaceholders(where: string, orderBy: string, params: seq<Value>, limit: int, offset: int)
    requires Placeholders(where) == |params|
    requires '?' !in orderBy
    ensures Placeholders(ListingSql(where, orderBy)) == |ListingParams(params, limit, offset)|
    ensures ListingParams(params, limit, offset)[..|params|] == params
    ensures ListingParams(params, limit, offset)[|params|..] == [IntV(limit), IntV(offset)]
  {
    QuestionMark();
    NoPlaceholders(orderBy);
    NoPlaceholders(" ");
    NoPlaceholders(" LIMIT ");
    NoPlaceholders(" OFFSET ");
    PlaceholdersAppend(where, " ");
    PlaceholdersAppend(where + " ", orderBy);
    PlaceholdersAppend(where + " " + orderBy, " LIMIT ");
    PlaceholdersAppend(where + " " + orderBy + " LIMIT ", Q);
    PlaceholdersAppend(where + " " + orderBy + " LIMIT " + Q, " OFFSET ");
    PlaceholdersAppend(where + " " + orderBy + " LIMIT " + Q + " OFFSET ", Q);
  }
}
