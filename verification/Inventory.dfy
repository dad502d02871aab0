/**
 * The stock ledger (backend/app/services/inventory.py, backend/app/services/products.py):
 * append-only movements, and the cached quantity on each product.
 */
module Inventory {
  import opened Prelude

  datatype MovementKind = Initial | Restocked | Sold | SaleReversed | Adjusted

  datatype Product = Product(tracked: bool, active: bool, quantity: int, price: nat, cost: Option<nat>)

  datatype Movement = Movement(
    product: Id, kind: MovementKind, delta: int, after: int, unitCost: Option<nat>, sale: Option<nat>)

  datatype Stock = Stock(products: map<Id, Product>, movements: seq<Movement>)

  function DeltaOf(p: Id): Movement -> int { (m: Movement) => if m.product == p then m.delta else 0 }

  /** Σ quantity_delta of a product: the truth that the cache repeats (BR-11). */
  function Ledger(movements: seq<Movement>, p: Id): int { Sum(movements, DeltaOf(p)) }

  predicate HasMovements(movements: seq<Movement>, p: Id) {
    exists i :: 0 <= i < |movements| && movements[i].product == p
  }

  // --- operations ---------------------------------------------------------------------------

  /** The one write path of the ledger. The caller holds the row lock, so p exists. */
  function ApplyMovement(
    st: Stock, p: Id, kind: MovementKind, delta: int, cost: Option<nat>, sale: Option<nat>): Result<Stock, Fault>
    requires p in st.products
  {
    var product := st.products[p];
    var after := product.quantity + delta;
    if !product.tracked then Err(Untracked)
    else if after < 0 then Err(InsufficientStock)
    else Ok(Stock(
      st.products[p := product.(quantity := after)],
      st.movements + [Movement(p, kind, delta, after, cost, sale)]))
  }

  /** The checks every manual stock operation makes on the locked row. */
  function LockActiveTracked(st: Stock, p: Id): Result<Product, Fault>
    ensures LockActiveTracked(st, p).Ok? ==> p in st.products
  {
    if p !in st.products then Err(NotFound)
    else if !st.products[p].active then Err(ProductArchived)
    else if !st.products[p].tracked then Err(Untracked)
    else Ok(st.products[p])
  }

  function Restock(st: Stock, p: Id, quantity: nat, cost: nat, updateCost: bool): Result<Stock, Fault> {
    match LockActiveTracked(st, p)
    case Err(e) => Err(e)
    case Ok(_) =>
      match ApplyMovement(st, p, Restocked, quantity, Some(cost), None)
      case Err(e) => Err(e)
      case Ok(moved) =>
        var product := moved.products[p];
        Ok(if updateCost && product.cost != Some(cost)
           then moved.(products := moved.products[p := product.(cost := Some(cost))])
           else moved)
  }

  function Adjust(st: Stock, p: Id, delta: int): Result<Stock, Fault> {
    match LockActiveTracked(st, p)
    case Err(e) => Err(e)
    case Ok(_) => ApplyMovement(st, p, Adjusted, delta, None, None)
  }

  function SetInitialStock(st: Stock, p: Id, quantity: nat, cost: nat): Result<Stock, Fault> {
    match LockActiveTracked(st, p)
    case Err(e) => Err(e)
    case Ok(_) =>
      if HasMovements(st.movements, p) then Err(AlreadyStocked)
      else ApplyMovement(st, p, Initial, quantity, Some(cost), None)
  }

  /** A new product starts at zero; opening stock arrives as an INITIAL movement with it. */
  function CreateProduct(
    st: Stock, p: Id, tracked: bool, price: nat, cost: Option<nat>, opening: Option<nat>,
    openingCost: Option<nat>): Result<Stock, Fault> {
    if p in st.products then Err(AlreadyExists)
    else
      var created := st.(products := st.products[p := Product(tracked, true, 0, price, cost)]);
      match opening
      case None => Ok(created)
      case Some(quantity) =>
        ApplyMovement(created, p, Initial, quantity, if openingCost.Some? then openingCost else cost, None)
  }

  /** PATCH of the fields that matter to the ledgers; tracking is switched off only without history. */
  function UpdateProduct(
    st: Stock, p: Id, tracked: bool, active: bool, price: nat, cost: Option<nat>): Result<Stock, Fault> {
    if p !in st.products then Err(NotFound)
    else
      var product := st.products[p];
      if !tracked && product.tracked && product.quantity != 0 then Err(HasStock)
      else if !tracked && product.tracked && HasMovements(st.movements, p) then Err(Fault.HasMovements)
      else
        var updated := product.(tracked := tracked, active := active, price := price, cost := cost);
        Ok(st.(products := st.products[p := updated]))
  }

  // --- what the ledger keeps ----------------------------------------------------------------

  predicate CacheIsLedger(st: Stock) {
    forall p :: p in st.products ==> st.products[p].quantity == Ledger(st.movements, p)
  }

  /** `quantity_after` is the running balance in posting order, and never negative. */
  predicate RunningBalances(movements: seq<Movement>) {
    forall i :: 0 <= i < |movements| ==> RunningBalanceAt(movements, i)
  }

  predicate RunningBalanceAt(movements: seq<Movement>, i: nat)
    requires i < |movements|
  {
    movements[i].after == Ledger(movements[..i + 1], movements[i].product) >= 0
  }

  predicate OnlyTrackedMove(st: Stock) {
    forall i :: 0 <= i < |st.movements| ==>
      st.movements[i].product in st.products && st.products[st.movements[i].product].tracked
  }

  predicate SalesTakeOut(movements: seq<Movement>) {
    forall i :: 0 <= i < |movements| && movements[i].kind == Sold ==> movements[i].delta < 0
  }

  ghost predicate StockInv(st: Stock) {
    CacheIsLedger(st) && RunningBalances(st.movements) && OnlyTrackedMove(st) && SalesTakeOut(st.movements)
  }

  lemma ApplyMovementKeepsInv(st: Stock, p: Id, kind: MovementKind, delta: int, cost: Option<nat>, sale: Option<nat>)
    requires StockInv(st) && p in st.products && (kind == Sold ==> delta < 0)
    requires ApplyMovement(st, p, kind, delta, cost, sale).Ok?
    ensures StockInv(ApplyMovement(st, p, kind, delta, cost, sale).value)
  {
    var st' := ApplyMovement(st, p, kind, delta, cost, sale).value;
    var m := st'.movements[|st.movements|];
    forall q | q in st'.products ensures st'.products[q].quantity == Ledger(st'.movements, q) {
      SumAppend(st.movements, m, DeltaOf(q));
    }
    forall i | 0 <= i < |st'.movements| ensures RunningBalanceAt(st'.movements, i) {
      if i < |st.movements| {
        assert RunningBalanceAt(st.movements, i);
        assert st'.movements[..i + 1] == st.movements[..i + 1];
      } else {
        assert st'.movements[..i + 1] == st'.movements;
      }
    }
  }

  /** At no point of its history was a product's stock negative. */
  lemma {:induction false} PrefixNeverNegative(movements: seq<Movement>, k: nat, p: Id)
    requires RunningBalances(movements) && k <= |movements|
    ensures Ledger(movements[..k], p) >= 0
  {
    if k > 0 {
      var m := movements[k - 1];
      assert RunningBalanceAt(movements, k - 1);
      if m.product != p {
        PrefixNeverNegative(movements, k - 1, p);
        assert movements[..k] == movements[..k - 1] + [m];
        SumAppend(movements[..k - 1], m, DeltaOf(p));
      }
    }
  }

  function LastAfter(movements: seq<Movement>, p: Id): int {
    if movements == [] then 0
    else if movements[|movements| - 1].product == p then movements[|movements| - 1].after
    else LastAfter(movements[..|movements| - 1], p)
  }

  /** The cache repeats the `quantity_after` of the product's newest movement. */
  lemma {:induction false} LastAfterIsLedger(movements: seq<Movement>, p: Id)
    requires RunningBalances(movements)
    ensures LastAfter(movements, p) == Ledger(movements, p)
  {
    if movements != [] {
      var n := |movements| - 1;
      assert movements[..n + 1] == movements;
      assert RunningBalanceAt(movements, n);
      if movements[n].product != p {
        var front := movements[..n];
        forall i | 0 <= i < n ensures RunningBalanceAt(front, i) {
          assert RunningBalanceAt(movements, i);
          assert front[..i + 1] == movements[..i + 1];
        }
        LastAfterIsLedger(front, p);
      }
    }
  }

  lemma NeverNegative(st: Stock, p: Id)
    requires StockInv(st) && p in st.products
    ensures st.products[p].quantity >= 0
  {
    PrefixNeverNegative(st.movements, |st.movements|, p);
    assert st.movements[..|st.movements|] == st.movements;
  }

  /** What a reader of the ledger is promised in every state that keeps the invariant. */
  lemma StockPromises(st: Stock, p: Id)
    requires StockInv(st) && p in st.products
    ensures st.products[p].quantity == Ledger(st.movements, p) == LastAfter(st.movements, p) >= 0
    ensures forall k :: 0 <= k <= |st.movements| ==> Ledger(st.movements[..k], p) >= 0
    ensures !st.products[p].tracked ==> st.products[p].quantity == 0 && !HasMovements(st.movements, p)
  {
    LastAfterIsLedger(st.movements, p);
    forall k | 0 <= k <= |st.movements| ensures Ledger(st.movements[..k], p) >= 0 {
      PrefixNeverNegative(st.movements, k, p);
    }
    assert st.movements[..|st.movements|] == st.movements;
    if !st.products[p].tracked {
      SumZero(st.movements, DeltaOf(p));
    }
  }

  lemma LedgerOfUnmoved(movements: seq<Movement>, p: Id)
    requires !HasMovements(movements, p)
    ensures Ledger(movements, p) == 0
  {
    SumZero(movements, DeltaOf(p));
  }

  lemma RestockKeepsInv(st: Stock, p: Id, quantity: nat, cost: nat, updateCost: bool)
    requires StockInv(st) && Restock(st, p, quantity, cost, updateCost).Ok?
    ensures StockInv(Restock(st, p, quantity, cost, updateCost).value)
  {
    ApplyMovementKeepsInv(st, p, Restocked, quantity, Some(cost), None);
  }

  lemma CreateProductKeepsInv(
    st: Stock, p: Id, tracked: bool, price: nat, cost: Option<nat>, opening: Option<nat>, openingCost: Option<nat>)
    requires StockInv(st) && CreateProduct(st, p, tracked, price, cost, opening, openingCost).Ok?
    ensures StockInv(CreateProduct(st, p, tracked, price, cost, opening, openingCost).value)
  {
    LedgerOfUnmoved(st.movements, p);
    var created := st.(products := st.products[p := Product(tracked, true, 0, price, cost)]);
    assert StockInv(created);
    if opening.Some? {
      ApplyMovementKeepsInv(created, p, Initial, opening.value, if openingCost.Some? then openingCost else cost, None);
    }
  }

  /** A product with movements can never become untracked. */
  lemma UpdateProductKeepsInv(st: Stock, p: Id, tracked: bool, active: bool, price: nat, cost: Option<nat>)
    requires StockInv(st) && UpdateProduct(st, p, tracked, active, price, cost).Ok?
    ensures StockInv(UpdateProduct(st, p, tracked, active, price, cost).value)
  {
  }

  // --- recompute ----------------------------------------------------------------------------

  datatype Discrepancy = Discrepancy(product: Id, cached: int, ledger: int, repaired: bool)

  function TrackedIds(st: Stock): set<Id> { set p | p in st.products && st.products[p].tracked }

  /** Tracked products whose cache disagrees with the ledger. */
  function Discrepant(st: Stock): set<Id> {
    set p | p in st.products && st.products[p].tracked && st.products[p].quantity != Ledger(st.movements, p)
  }

  /** Every tracked cache rewritten from the ledger; no movement is written. */
  function Repaired(st: Stock): Stock {
    st.(products := map p | p in st.products ::
      if st.products[p].tracked then st.products[p].(quantity := Ledger(st.movements, p)) else st.products[p])
  }

  predicate UntrackedAreAtLedger(st: Stock) {
    forall p :: p in st.products && !st.products[p].tracked ==> st.products[p].quantity == Ledger(st.movements, p)
  }

  /**
   * From any corrupted caches, an applied recompute makes cache and ledger agree everywhere
   * exactly when no untracked product was corrupted: the recompute skips those.
   */
  lemma RepairRestores(st: Stock)
    ensures CacheIsLedger(Repaired(st)) <==> UntrackedAreAtLedger(st)
    ensures Repaired(st).movements == st.movements && Repaired(st).products.Keys == st.products.Keys
    ensures Discrepant(Repaired(st)) == {}
    ensures Repaired(Repaired(st)) == Repaired(st)
  {
    var r := Repaired(st);
    assert forall p :: p in r.products ==> r.products[p].tracked == st.products[p].tracked;
    if CacheIsLedger(r) {
      forall p | p in st.products && !st.products[p].tracked
        ensures st.products[p].quantity == Ledger(st.movements, p) {
        assert r.products[p] == st.products[p];
      }
    }
    assert Repaired(r).products == r.products;
  }

  /** A corrupted untracked product stays corrupted. */
  lemma UntrackedCorruptionSurvives()
    ensures
      var st := Stock(map[0 := Product(false, true, 5, 100, None)], []);
      !CacheIsLedger(Repaired(st))
  {
    var st := Stock(map[0 := Product(false, true, 5, 100, None)], []);
    assert 0 in Repaired(st).products && Repaired(st).products[0].quantity == 5;
  }

  /** In a state the services can reach there is nothing to repair. */
  lemma NothingToRepair(st: Stock)
    requires StockInv(st)
    ensures Repaired(st) == st && Discrepant(st) == {}
  {
    assert Repaired(st).products == st.products;
  }

  /** The caches of the listed products rewritten from the ledger. */
  function Patched(st: Stock, ids: seq<Id>): Stock {
    st.(products := map p | p in st.products ::
      if p in ids then st.products[p].(quantity := Ledger(st.movements, p)) else st.products[p])
  }

  /** What a recompute reports about the listed products. */
  function Findings(st: Stock, ids: seq<Id>, apply: bool): seq<Discrepancy>
    requires forall p :: p in ids ==> p in st.products
  {
    if ids == [] then []
    else
      var p := ids[|ids| - 1];
      var cached, ledger := st.products[p].quantity, Ledger(st.movements, p);
      Findings(st, ids[..|ids| - 1], apply) + (if cached != ledger then [Discrepancy(p, cached, ledger, apply)] else [])
  }

  predicate Describes(d: Discrepancy, st: Stock, apply: bool) {
    && d.product in st.products && d.cached == st.products[d.product].quantity
      && d.ledger == Ledger(st.movements, d.product)
    && d.cached != d.ledger && d.repaired == apply
  }

  /** A report names exactly the listed products whose cached figure is wrong, with both figures. */
  lemma {:induction false} FindingsExact(st: Stock, ids: seq<Id>, apply: bool, d: Discrepancy)
    requires forall p :: p in ids ==> p in st.products
    ensures d in Findings(st, ids, apply) <==> d.product in ids && Describes(d, st, apply)
  {
    hide Ledger;
    if ids != [] {
      FindingsExact(st, ids[..|ids| - 1], apply, d);
      assert ids == ids[..|ids| - 1] + [ids[|ids| - 1]];
    }
  }

  /** ... in the order they were visited. */
  lemma {:induction false} FindingsInOrder(st: Stock, ids: seq<Id>, apply: bool)
    requires Ascending(ids) && forall p :: p in ids ==> p in st.products
    ensures
      var found := Findings(st, ids, apply);
      forall i, j :: 0 <= i < j < |found| ==> found[i].product < found[j].product
  {
    hide Ledger;
    if ids != [] {
      var front, p := ids[..|ids| - 1], ids[|ids| - 1];
      FindingsInOrder(st, front, apply);
      var before := Findings(st, front, apply);
      forall i | 0 <= i < |before| ensures before[i].product < p {
        FindingsExact(st, front, apply, before[i]);
        var k :| 0 <= k < |front| && front[k] == before[i].product;
        assert ids[k] < ids[|ids| - 1];
      }
    }
  }

  lemma PatchNext(st: Stock, ids: seq<Id>, p: Id)
    requires p in st.products
    ensures
      var before := Patched(st, ids);
      && p in before.products && before.movements == st.movements
      && (p !in ids ==> before.products[p] == st.products[p])
      && Patched(st, ids + [p])
        == before.(products := before.products[p := before.products[p].(quantity := Ledger(st.movements, p))])
  {
    var before := Patched(st, ids);
    assert Patched(st, ids + [p]).products
      == before.products[p := before.products[p].(quantity := Ledger(st.movements, p))];
  }

  lemma PatchAll(st: Stock, ids: seq<Id>)
    requires forall p :: p in ids <==> p in TrackedIds(st)
    ensures Patched(st, ids) == Repaired(st)
  {
    assert Patched(st, ids).products == Repaired(st).products;
  }
}
