/** The three tables the handlers read and write (`users`, `coffee_types`,
    `stocks`), each a map from row id to record, with the statements the
    handlers run on them as functions from the old table to the new one. */
module Ledger {
  import opened Common

  datatype User = User(name: string, phone: string, location: string,
                       passwordHash: string, role: string, createdAt: int)
  datatype CoffeeType = CoffeeType(name: string, createdAt: int)
  /** One stock row: how many kilos of one coffee type one seller holds. */
  datatype Stock = Stock(sellerId: int, coffeeTypeId: int, kilos: real, updatedAt: int)

  type Users = map<int, User>
  type Types = map<int, CoffeeType>
  type Stocks = map<int, Stock>

  // ---------------------------------------------------------------------
  // Table invariants
  // ---------------------------------------------------------------------

  /** Row ids are positive and below the next id to be handed out. */
  predicate IdsBelow<T>(m: map<int, T>, next: int) {
    forall i | i in m :: 0 < i < next
  }

  /** `UNIQUE(seller_id, coffee_type_id)`: one row per seller and type. */
  predicate PairsUnique(st: Stocks) {
    forall i, j | i in st && j in st && st[i].sellerId == st[j].sellerId
                  && st[i].coffeeTypeId == st[j].coffeeTypeId :: i == j
  }

  predicate NamesUnique(ty: Types) {
    forall i, j | i in ty && j in ty && ty[i].name == ty[j].name :: i == j
  }

  predicate PhonesUnique(us: Users) {
    forall i, j | i in us && j in us && us[i].phone == us[j].phone :: i == j
  }

  predicate KilosNonNegative(st: Stocks) {
    forall i | i in st :: st[i].kilos >= 0.0
  }

  /** The foreign keys of `stocks`. */
  predicate TypesReferenced(st: Stocks, ty: Types) {
    forall i | i in st :: st[i].coffeeTypeId in ty
  }

  predicate SellersReferenced(st: Stocks, us: Users) {
    forall i | i in st :: st[i].sellerId in us
  }

  // ---------------------------------------------------------------------
  // stocks
  // ---------------------------------------------------------------------

  predicate IsPair(r: Stock, sellerId: int, coffeeTypeId: int) {
    r.sellerId == sellerId && r.coffeeTypeId == coffeeTypeId
  }

  /** A row exists for the seller and coffee type. */
  predicate HasPair(st: Stocks, sellerId: int, coffeeTypeId: int) {
    exists i | i in st :: IsPair(st[i], sellerId, coffeeTypeId)
  }

  function PairIds(st: Stocks, sellerId: int, coffeeTypeId: int): set<int> {
    set i | i in st && IsPair(st[i], sellerId, coffeeTypeId)
  }

  /** The kilos a seller holds of a coffee type: the kilos of its one row,
      or 0 when it has none. */
  ghost function PairKilos(st: Stocks, sellerId: int, coffeeTypeId: int): real
    requires PairsUnique(st)
  {
    if HasPair(st, sellerId, coffeeTypeId) then
      var i :| i in st && IsPair(st[i], sellerId, coffeeTypeId); st[i].kilos
    else 0.0
  }

  lemma PairKilosOf(st: Stocks, i: int)
    requires PairsUnique(st) && i in st
    ensures PairKilos(st, st[i].sellerId, st[i].coffeeTypeId) == st[i].kilos
  {
  }

  /** `INSERT INTO stocks ... ON CONFLICT(seller_id, coffee_type_id) DO
      UPDATE SET kilos = kilos + excluded.kilos, updated_at = now`. */
  function UpsertStock(st: Stocks, nextId: int, sellerId: int, coffeeTypeId: int, kilos: real, now: int): (r: Stocks)
    ensures HasPair(r, sellerId, coffeeTypeId)
    ensures st.Keys <= r.Keys
  {
    if HasPair(st, sellerId, coffeeTypeId) then
      var r := map i | i in st :: if IsPair(st[i], sellerId, coffeeTypeId) then st[i].(kilos := st[i].kilos + kilos, updatedAt := now) else st[i];
      assert forall i | i in st && IsPair(st[i], sellerId, coffeeTypeId) :: i in r && IsPair(r[i], sellerId, coffeeTypeId);
      r
    else
      var r := st[nextId := Stock(sellerId, coffeeTypeId, kilos, now)];
      assert IsPair(r[nextId], sellerId, coffeeTypeId);
      r
  }

  /** After the upsert the pair has exactly one row, holding the kilos it
      held before plus the added amount, stamped `now`. */
  lemma UpsertOneRow(st: Stocks, nextId: int, sellerId: int, coffeeTypeId: int, kilos: real, now: int)
    requires PairsUnique(st) && nextId !in st
    ensures var r := UpsertStock(st, nextId, sellerId, coffeeTypeId, kilos, now);
            PairsUnique(r)
            && |PairIds(r, sellerId, coffeeTypeId)| == 1
            && PairKilos(r, sellerId, coffeeTypeId) == PairKilos(st, sellerId, coffeeTypeId) + kilos
            && forall i | i in r && IsPair(r[i], sellerId, coffeeTypeId) :: r[i].updatedAt == now
  {
    var r := UpsertStock(st, nextId, sellerId, coffeeTypeId, kilos, now);
    if HasPair(st, sellerId, coffeeTypeId) {
      var i :| i in st && IsPair(st[i], sellerId, coffeeTypeId);
      forall k | k in PairIds(r, sellerId, coffeeTypeId) ensures k == i {
        assert IsPair(st[k], sellerId, coffeeTypeId);
      }
      assert i in PairIds(r, sellerId, coffeeTypeId);
      assert PairIds(r, sellerId, coffeeTypeId) == {i};
      PairKilosOf(st, i);
      PairKilosOf(r, i);
    } else {
      assert forall k | k in st :: !IsPair(st[k], sellerId, coffeeTypeId);
      assert forall k | k in r && k != nextId :: k in st && r[k] == st[k];
      assert nextId in PairIds(r, sellerId, coffeeTypeId);
      assert PairIds(r, sellerId, coffeeTypeId) == {nextId};
      PairKilosOf(r, nextId);
    }
  }

  /** The upsert changes no row of any other seller or coffee type, and
      deletes none. */
  lemma UpsertFrame(st: Stocks, nextId: int, sellerId: int, coffeeTypeId: int, kilos: real, now: int)
    requires nextId !in st
    ensures var r := UpsertStock(st, nextId, sellerId, coffeeTypeId, kilos, now);
            r.Keys == st.Keys + (if HasPair(st, sellerId, coffeeTypeId) then {} else {nextId})
            && forall i | i in st && !IsPair(st[i], sellerId, coffeeTypeId) :: r[i] == st[i]
  {
  }

  /** Two additions of the same coffee type accumulate. */
  lemma UpsertTwice(st: Stocks, nextId: int, sellerId: int, coffeeTypeId: int, k1: real, k2: real, t1: int, t2: int)
    requires PairsUnique(st) && IdsBelow(st, nextId)
    ensures var r := UpsertStock(UpsertStock(st, nextId, sellerId, coffeeTypeId, k1, t1),
                                 nextId + 1, sellerId, coffeeTypeId, k2, t2);
            PairsUnique(r) && |PairIds(r, sellerId, coffeeTypeId)| == 1
            && PairKilos(r, sellerId, coffeeTypeId) == PairKilos(st, sellerId, coffeeTypeId) + k1 + k2
  {
    var r1 := UpsertStock(st, nextId, sellerId, coffeeTypeId, k1, t1);
    UpsertOneRow(st, nextId, sellerId, coffeeTypeId, k1, t1);
    UpsertFrame(st, nextId, sellerId, coffeeTypeId, k1, t1);
    assert nextId + 1 !in r1;
    UpsertOneRow(r1, nextId + 1, sellerId, coffeeTypeId, k2, t2);
  }

  /** The 999999 bound applies to each addition, not to what accumulates:
      two additions that each pass it leave a row above it. */
  lemma AccumulatedTotalExceedsBound()
    ensures var st := map[1 := Stock(7, 3, MAX_KILOS, 0)];
            0.0 < 1.0 <= MAX_KILOS
            && UpsertStock(st, 2, 7, 3, 1.0, 60)[1].kilos == 1000000.0 > MAX_KILOS
  {
    var st := map[1 := Stock(7, 3, MAX_KILOS, 0)];
    assert IsPair(st[1], 7, 3);
  }

  lemma UpsertKeepsInvariants(st: Stocks, ty: Types, us: Users, nextId: int,
                              sellerId: int, coffeeTypeId: int, kilos: real, now: int)
    requires IdsBelow(st, nextId) && KilosNonNegative(st)
    requires TypesReferenced(st, ty) && SellersReferenced(st, us)
    requires coffeeTypeId in ty && sellerId in us && kilos >= 0.0 && nextId > 0
    ensures var r := UpsertStock(st, nextId, sellerId, coffeeTypeId, kilos, now);
            IdsBelow(r, nextId + 1) && KilosNonNegative(r)
            && TypesReferenced(r, ty) && SellersReferenced(r, us)
  {
  }

  /** The row is the seller's: `WHERE id = ? AND seller_id = ?` finds it. */
  predicate Owns(st: Stocks, stockId: int, sellerId: int) {
    stockId in st && st[stockId].sellerId == sellerId
  }

  /** `UPDATE stocks SET kilos = ?, updated_at = now WHERE id = ? AND
      seller_id = ?`. */
  function SetKilos(st: Stocks, stockId: int, sellerId: int, kilos: real, now: int): (r: Stocks)
    ensures r.Keys == st.Keys
    ensures forall i | i in r :: r[i].sellerId == st[i].sellerId && r[i].coffeeTypeId == st[i].coffeeTypeId
  {
    if Owns(st, stockId, sellerId) then st[stockId := st[stockId].(kilos := kilos, updatedAt := now)] else st
  }

  /** The update replaces the kilos of the seller's own row (it does not
      add), and touches nothing else; on another seller's row or a missing
      id it changes nothing. */
  lemma SetKilosSpec(st: Stocks, stockId: int, sellerId: int, kilos: real, now: int)
    ensures var r := SetKilos(st, stockId, sellerId, kilos, now);
            r.Keys == st.Keys
            && (forall i | i in st && i != stockId :: r[i] == st[i])
            && (Owns(st, stockId, sellerId) ==>
                  r[stockId] == Stock(sellerId, st[stockId].coffeeTypeId, kilos, now))
            && (!Owns(st, stockId, sellerId) ==> r == st)
  {
  }

  lemma SetKilosKeepsInvariants(st: Stocks, ty: Types, us: Users, nextId: int,
                                stockId: int, sellerId: int, kilos: real, now: int)
    requires IdsBelow(st, nextId) && PairsUnique(st) && KilosNonNegative(st)
    requires TypesReferenced(st, ty) && SellersReferenced(st, us)
    requires kilos >= 0.0
    ensures var r := SetKilos(st, stockId, sellerId, kilos, now);
            IdsBelow(r, nextId) && PairsUnique(r) && KilosNonNegative(r)
            && TypesReferenced(r, ty) && SellersReferenced(r, us)
  {
  }

  /** `DELETE FROM stocks WHERE id = ? AND seller_id = ?`. */
  function DeleteOwned(st: Stocks, stockId: int, sellerId: int): (r: Stocks)
    ensures forall i | i in r :: i in st && r[i] == st[i]
    ensures Owns(st, stockId, sellerId) ==> stockId !in r
  {
    if Owns(st, stockId, sellerId) then st - {stockId} else st
  }

  /** Deleting the seller's own row removes exactly that row; any other id
      leaves the table as it was. */
  lemma DeleteOwnedSpec(st: Stocks, stockId: int, sellerId: int)
    ensures var r := DeleteOwned(st, stockId, sellerId);
            (forall i | i in r :: i in st && r[i] == st[i])
            && (Owns(st, stockId, sellerId) ==> r.Keys == st.Keys - {stockId} && |r| == |st| - 1)
            && (!Owns(st, stockId, sellerId) ==> r == st)
  {
  }

  lemma DeleteOwnedKeepsInvariants(st: Stocks, ty: Types, us: Users, nextId: int, stockId: int, sellerId: int)
    requires IdsBelow(st, nextId) && PairsUnique(st) && KilosNonNegative(st)
    requires TypesReferenced(st, ty) && SellersReferenced(st, us)
    ensures var r := DeleteOwned(st, stockId, sellerId);
            IdsBelow(r, nextId) && PairsUnique(r) && KilosNonNegative(r)
            && TypesReferenced(r, ty) && SellersReferenced(r, us)
  {
  }

  // ---------------------------------------------------------------------
  // coffee_types
  // ---------------------------------------------------------------------

  /** `SELECT id FROM coffee_types WHERE name = ?` finds a row. */
  predicate NameTaken(ty: Types, name: string) {
    exists i | i in ty :: ty[i].name == name
  }

  /** `SELECT id FROM coffee_types WHERE name = ? AND id != ?` finds a row. */
  predicate NameTakenByOther(ty: Types, name: string, id: int) {
    exists i | i in ty && i != id :: ty[i].name == name
  }

  /** `INSERT INTO coffee_types (name) VALUES (?)`. */
  function InsertType(ty: Types, nextId: int, name: string, now: int): (r: Types)
    ensures NameTaken(r, name)
    ensures forall i | i in ty && i != nextId :: i in r && r[i] == ty[i]
  {
    var r := ty[nextId := CoffeeType(name, now)];
    assert r[nextId].name == name;
    r
  }

  /** `UPDATE coffee_types SET name = ? WHERE id = ?`: no row changes when
      the id does not exist. */
  function RenameType(ty: Types, id: int, name: string): (r: Types)
    ensures r.Keys == ty.Keys
    ensures id in ty ==> NameTaken(r, name) && r[id].createdAt == ty[id].createdAt
  {
    if id in ty then ty[id := ty[id].(name := name)] else ty
  }

  /** Adding a name no type has keeps names unique and adds one type. */
  lemma InsertTypeKeepsNamesUnique(ty: Types, nextId: int, name: string, now: int)
    requires NamesUnique(ty) && IdsBelow(ty, nextId) && nextId > 0 && !NameTaken(ty, name)
    ensures var r := InsertType(ty, nextId, name, now);
            NamesUnique(r) && IdsBelow(r, nextId + 1) && NameTaken(r, name)
            && |r| == |ty| + 1 && forall i | i in ty :: r[i] == ty[i]
  {
    var r := InsertType(ty, nextId, name, now);
    assert nextId !in ty;
    assert r[nextId].name == name;
  }

  /** Renaming to a name no other type has keeps names unique. */
  lemma RenameTypeKeepsNamesUnique(ty: Types, id: int, name: string)
    requires NamesUnique(ty) && !NameTakenByOther(ty, name, id)
    ensures var r := RenameType(ty, id, name);
            NamesUnique(r) && r.Keys == ty.Keys
            && (id in ty ==> r[id].name == name)
            && forall i | i in ty && i != id :: r[i] == ty[i]
  {
  }

  /** A type may always be renamed to its own name: only another type's
      name is refused. */
  lemma RenameToOwnName(ty: Types, id: int)
    requires NamesUnique(ty) && id in ty
    ensures !NameTakenByOther(ty, ty[id].name, id)
    ensures RenameType(ty, id, ty[id].name) == ty
  {
  }

  /** `SELECT COUNT(*) FROM stocks WHERE coffee_type_id = ?`, with no
      condition on kilos. */
  function StockCount(st: Stocks, coffeeTypeId: int): nat {
    |set i | i in st && st[i].coffeeTypeId == coffeeTypeId|
  }

  /** `DELETE FROM coffee_types WHERE id = ?`. */
  function DeleteType(ty: Types, id: int): (r: Types)
    ensures id !in r
    ensures forall i | i in ty && i != id :: i in r && r[i] == ty[i]
  {
    ty - {id}
  }

  /** A type no stock row uses can go without breaking a foreign key. */
  lemma DeleteUnusedType(st: Stocks, ty: Types, id: int)
    requires TypesReferenced(st, ty) && StockCount(st, id) == 0
    ensures TypesReferenced(st, DeleteType(ty, id))
    ensures forall i | i in ty && i != id :: i in DeleteType(ty, id) && DeleteType(ty, id)[i] == ty[i]
  {
    var using := set k | k in st && st[k].coffeeTypeId == id;
    assert using == {};
    forall i | i in st ensures st[i].coffeeTypeId != id {
      assert i in using <==> st[i].coffeeTypeId == id;
    }
  }

  /** The in-use count includes rows whose kilos have been set to 0. */
  lemma EmptiedStockBlocksDelete(st: Stocks, stockId: int)
    requires stockId in st && st[stockId].kilos == 0.0
    ensures StockCount(st, st[stockId].coffeeTypeId) > 0
  {
    var t := st[stockId].coffeeTypeId;
    var using := set k | k in st && st[k].coffeeTypeId == t;
    assert stockId in using;
    assert using != {};
  }

  // ---------------------------------------------------------------------
  // users
  // ---------------------------------------------------------------------

  /** `SELECT id FROM users WHERE phone = ?` finds a row. */
  predicate PhoneTaken(us: Users, phone: string) {
    exists i | i in us :: us[i].phone == phone
  }

  /** `INSERT INTO users (name, phone, location, password, role)`. */
  function InsertUser(us: Users, nextId: int, u: User): (r: Users)
    ensures PhoneTaken(r, u.phone)
    ensures forall i | i in us && i != nextId :: i in r && r[i] == us[i]
  {
    var r := us[nextId := u];
    assert r[nextId].phone == u.phone;
    r
  }

  /** Adding a user whose phone no one has keeps phones unique. */
  lemma InsertUserKeepsPhonesUnique(us: Users, nextId: int, u: User)
    requires PhonesUnique(us) && IdsBelow(us, nextId) && nextId > 0 && !PhoneTaken(us, u.phone)
    ensures var r := InsertUser(us, nextId, u);
            PhonesUnique(r) && IdsBelow(r, nextId + 1) && PhoneTaken(r, u.phone)
            && |r| == |us| + 1 && forall i | i in us :: r[i] == us[i]
  {
    assert nextId !in us;
    assert InsertUser(us, nextId, u)[nextId].phone == u.phone;
  }

  // ---------------------------------------------------------------------
  // The database
  // ---------------------------------------------------------------------

  /** The SQLite database: the three tables and the next id each hands out. */
  class Database {
    var users: Users
    var types: Types
    var stocks: Stocks
    var nextUserId: int
    var nextTypeId: int
    var nextStockId: int

    /** The constraints the tables keep: fresh ids, the unique columns,
        non-negative kilos and the foreign keys of `stocks`. */
    ghost predicate Valid()
      reads this
    {
      nextUserId > 0 && nextTypeId > 0 && nextStockId > 0
      && IdsBelow(users, nextUserId) && IdsBelow(types, nextTypeId) && IdsBelow(stocks, nextStockId)
      && PhonesUnique(users) && NamesUnique(types) && PairsUnique(stocks)
      && KilosNonNegative(stocks)
      && TypesReferenced(stocks, types) && SellersReferenced(stocks, users)
    }

    constructor ()
      ensures Valid()
      ensures users == map[] && types == map[] && stocks == map[]
    {
      users, types, stocks := map[], map[], map[];
      nextUserId, nextTypeId, nextStockId := 1, 1, 1;
    }
  }
}
