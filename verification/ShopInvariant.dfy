/** What every run of the shop keeps: both caches equal their ledgers, and sales reconcile. */
module ShopInvariant {
  import opened Prelude
  import opened SaleRecords
  import opened Shop
  import Text
  import Money
  import Inventory
  import Credit
  import MpesaLinks

  // --- sale rows ------------------------------------------------------------------------------

  /** A recorded sale adds up: tenders, lines and allocated discount all give its total (BR-1, BR-14). */
  predicate SaleReconciles(s: Sale) {
    && s.total == s.subtotal - s.discount
    && TenderTotal(s.payments) == s.total
    && NetTotal(s.items) == s.total
    && s.items != [] && s.payments != []
    && (Charged(s.payments) > 0 ==> s.customer.Some?)
    && (forall i :: 0 <= i < |s.items| ==> s.items[i].discount <= s.items[i].lineTotal)
    && (forall i :: 0 <= i < |s.payments| ==> Text.Trim(s.payments[i].reference) == s.payments[i].reference)
  }

  predicate SalesReconcile(sales: seq<Sale>) {
    forall s :: 0 <= s < |sales| ==> SaleReconciles(sales[s])
  }

  predicate SaleKeysUnique(sales: seq<Sale>) {
    forall i, j :: 0 <= i < j < |sales| ==> sales[i].key != sales[j].key
  }

  /** The composite foreign key of sales.customer_id. */
  predicate SaleCustomersExist(sales: seq<Sale>, book: Credit.Book) {
    forall s :: 0 <= s < |sales| && sales[s].customer.Some? ==> sales[s].customer.value in book.customers
  }

  lemma {:induction false} NetIsTotalLessDiscount(items: seq<Item>, totals: seq<nat>, discounts: seq<nat>)
    requires |items| == |totals| == |discounts|
    requires forall i :: 0 <= i < |items| ==> items[i].lineTotal == totals[i] && items[i].discount == discounts[i]
    ensures NetTotal(items) == Money.Total(totals) - Money.Total(discounts)
  {
    if items != [] {
      var n := |items| - 1;
      NetIsTotalLessDiscount(items[..n], totals[..n], discounts[..n]);
    }
  }

  lemma {:induction false} ChargeNeedsCredit(payments: seq<Payment>)
    ensures Charged(payments) > 0 ==> exists i :: 0 <= i < |payments| && payments[i].tender == OnCredit
  {
    if forall i :: 0 <= i < |payments| ==> payments[i].tender != OnCredit {
      SumZero(payments, CreditAmount());
    }
  }

  lemma PricedSaleReconciles(st: State, req: SaleRequest)
    requires SchemaOk(req) && PriceSale(st, req).Ok?
    ensures SaleReconciles(PriceSale(st, req).value)
  {
    var sale := PriceSale(st, req).value;
    var totals := LineTotals(st.stock.products, req.lines);
    var discounts := Money.Allocation(req.discount, totals);
    Money.AllocationSum(req.discount, totals);
    NetIsTotalLessDiscount(sale.items, totals, discounts);
    forall i | 0 <= i < |sale.items| ensures sale.items[i].discount <= sale.items[i].lineTotal {
      Money.AllocationShare(req.discount, totals, i);
    }
    forall i | 0 <= i < |sale.payments| ensures Text.Trim(sale.payments[i].reference) == sale.payments[i].reference {
      Text.TrimKeeps(sale.payments[i].reference);
    }
    ChargeNeedsCredit(sale.payments);
  }

  // --- sales and stock ------------------------------------------------------------------------

  function SaleDelta(sale: nat, p: Id): Inventory.Movement -> int {
    (m: Inventory.Movement) => if m.sale == Some(sale) && m.product == p then m.delta else 0
  }

  /** What a sale has taken out of a product, net of reversals. */
  function NetMoved(movements: seq<Inventory.Movement>, sale: nat, p: Id): int { Sum(movements, SaleDelta(sale, p)) }

  /** Sale movements belong to a recorded sale, and are reversed only when it is void. */
  predicate MovementsNameSales(sales: seq<Sale>, movements: seq<Inventory.Movement>) {
    forall i :: 0 <= i < |movements| ==>
      && (movements[i].kind == Inventory.Sold || movements[i].kind == Inventory.SaleReversed
        <==> movements[i].sale.Some?)
      && (movements[i].sale.Some? ==> movements[i].sale.value < |sales|)
      && (movements[i].sale.Some? && sales[movements[i].sale.value].status == Completed ==>
        movements[i].kind == Inventory.Sold)
  }

  ghost predicate VoidedMoveNothing(sales: seq<Sale>, movements: seq<Inventory.Movement>) {
    forall s: nat, p: Id :: s < |sales| && sales[s].status == Voided ==> NetMoved(movements, s, p) == 0
  }

  ghost predicate SalesMatchStock(sales: seq<Sale>, movements: seq<Inventory.Movement>) {
    MovementsNameSales(sales, movements) && VoidedMoveNothing(sales, movements)
  }

  /** `added` are the movements of sale `id`, all of one kind, appended after the others. */
  predicate Appended(
    before: seq<Inventory.Movement>, after: seq<Inventory.Movement>, id: nat, kind: Inventory.MovementKind) {
    before <= after && forall i :: |before| <= i < |after| ==> after[i].sale == Some(id) && after[i].kind == kind
  }

  lemma SellOne(st: Inventory.Stock, item: Item, id: nat)
    requires Inventory.StockInv(st) && item.product in st.products && item.quantity > 0
    requires Inventory.ApplyMovement(st, item.product, Inventory.Sold, -(item.quantity as int), item.unitCost,
      Some(id)).Ok?
    ensures
      var r := Inventory.ApplyMovement(st, item.product, Inventory.Sold, -(item.quantity as int), item.unitCost,
        Some(id)).value;
      Inventory.StockInv(r) && Appended(st.movements, r.movements, id, Inventory.Sold)
  {
    Inventory.ApplyMovementKeepsInv(st, item.product, Inventory.Sold, -(item.quantity as int), item.unitCost, Some(id));
  }

  lemma AppendedTwice(
    a: seq<Inventory.Movement>, b: seq<Inventory.Movement>, c: seq<Inventory.Movement>, id: nat,
    kind: Inventory.MovementKind)
    requires Appended(a, b, id, kind) && Appended(b, c, id, kind)
    ensures Appended(a, c, id, kind)
  {
  }

  ghost predicate SoldFrom(st: Inventory.Stock, r: Inventory.Stock, id: nat) {
    Inventory.StockInv(r) && Appended(st.movements, r.movements, id, Inventory.Sold)
  }

  lemma NothingSold(st: Inventory.Stock, id: nat)
    requires Inventory.StockInv(st)
    ensures SoldFrom(st, st, id)
  {
  }

  lemma SellStep(st: Inventory.Stock, before: Inventory.Stock, item: Item, id: nat)
    requires SoldFrom(st, before, id) && item.product in before.products && item.quantity > 0
    requires Inventory.ApplyMovement(before, item.product, Inventory.Sold, -(item.quantity as int), item.unitCost,
      Some(id)).Ok?
    ensures SoldFrom(st, Inventory.ApplyMovement(before, item.product, Inventory.Sold, -(item.quantity as int),
      item.unitCost, Some(id)).value, id)
  {
    SellOne(before, item, id);
    var r := Inventory.ApplyMovement(before, item.product, Inventory.Sold, -(item.quantity as int), item.unitCost,
      Some(id)).value;
    AppendedTwice(st.movements, before.movements, r.movements, id, Inventory.Sold);
  }

  lemma {:induction false} SellItemsSound(st: Inventory.Stock, items: seq<Item>, n: nat, id: nat)
    requires n <= |items| && ItemsExist(st, items) && Inventory.StockInv(st) && SellItems(st, items, n, id).Ok?
    ensures SoldFrom(st, SellItems(st, items, n, id).value, id)
  {
    hide SoldFrom, Inventory.StockInv, Inventory.ApplyMovement;
    if n == 0 {
      NothingSold(st, id);
    } else {
      SellItemsSound(st, items, n - 1, id);
      var before := SellItems(st, items, n - 1, id).value;
      if before.products[items[n - 1].product].tracked {
        SellStep(st, before, items[n - 1], id);
      }
    }
  }

  function QuantityOf(p: Id): Item -> int { (i: Item) => if i.product == p then i.quantity else 0 }

  /** A sale takes exactly its quantity of each tracked product out of stock, and nothing else. */
  lemma {:induction false} SellItemsTakesOut(st: Inventory.Stock, items: seq<Item>, n: nat, id: nat, p: Id)
    requires n <= |items| && ItemsExist(st, items) && p in st.products && SellItems(st, items, n, id).Ok?
    ensures
      var r := SellItems(st, items, n, id).value;
      && r.products[p] == st.products[p].(quantity := r.products[p].quantity)
      && r.products[p].quantity
        == st.products[p].quantity - (if st.products[p].tracked then Sum(items[..n], QuantityOf(p)) else 0)
  {
    if n > 0 {
      SellItemsTakesOut(st, items, n - 1, id, p);
      assert items[..n] == items[..n - 1] + [items[n - 1]];
      SumAppend(items[..n - 1], items[n - 1], QuantityOf(p));
    } else {
      assert items[..0] == [];
    }
  }

  lemma SaleMovementsKeepMatch(
    sales: seq<Sale>, sale: Sale, before: seq<Inventory.Movement>, after: seq<Inventory.Movement>)
    requires SalesMatchStock(sales, before) && sale.status == Completed
    requires Appended(before, after, |sales|, Inventory.Sold)
    ensures SalesMatchStock(sales + [sale], after)
  {
    forall s: nat, p: Id | s < |sales + [sale]| && (sales + [sale])[s].status == Voided
      ensures NetMoved(after, s, p) == 0
    {
      assert NetMoved(before, s, p) == 0;
      SumUnconcerned(before, after, SaleDelta(s, p));
    }
  }

  /** Movements that name no sale concern no sale. */
  lemma OtherMovementsKeepMatch(sales: seq<Sale>, before: seq<Inventory.Movement>, after: seq<Inventory.Movement>)
    requires SalesMatchStock(sales, before) && before <= after
    requires forall i :: |before| <= i < |after| ==>
      after[i].sale.None? && after[i].kind != Inventory.Sold && after[i].kind != Inventory.SaleReversed
    ensures SalesMatchStock(sales, after)
  {
    forall s: nat, p: Id | s < |sales| && sales[s].status == Voided ensures NetMoved(after, s, p) == 0 {
      assert NetMoved(before, s, p) == 0;
      SumUnconcerned(before, after, SaleDelta(s, p));
    }
  }

  // --- voiding ------------------------------------------------------------------------------------

  lemma {:induction false} MovementsOfNet(movements: seq<Inventory.Movement>, id: nat, p: Id)
    ensures Sum(MovementsOf(movements, id), Inventory.DeltaOf(p)) == NetMoved(movements, id, p)
  {
    if movements != [] {
      var last := movements[|movements| - 1];
      var before := MovementsOf(movements[..|movements| - 1], id);
      MovementsOfNet(movements[..|movements| - 1], id, p);
      if last.sale == Some(id) {
        SumAppend(before, last, Inventory.DeltaOf(p));
      }
    }
  }

  /** What a sale's movements look like while it is COMPLETED: stock out of products still tracked. */
  predicate Reversible(st: Inventory.Stock, m: Inventory.Movement) {
    && m.product in st.products && st.products[m.product].tracked
    && m.kind == Inventory.Sold && m.delta < 0
  }

  lemma CompletedIsReversible(st: State, id: nat)
    requires Inventory.StockInv(st.stock) && MovementsNameSales(st.sales, st.stock.movements)
    requires id < |st.sales| && st.sales[id].status == Completed
    ensures forall m :: m in MovementsOf(st.stock.movements, id) ==> Reversible(st.stock, m)
  {
    forall m | m in MovementsOf(st.stock.movements, id) ensures Reversible(st.stock, m) {
      var k :| 0 <= k < |st.stock.movements| && st.stock.movements[k] == m;
    }
  }

  predicate SameTracking(a: Inventory.Stock, b: Inventory.Stock) {
    a.products.Keys == b.products.Keys && forall p :: p in a.products ==> a.products[p].tracked == b.products[p].tracked
  }

  /** Putting stock back on a tracked product always succeeds. */
  lemma ReverseOne(st: Inventory.Stock, m: Inventory.Movement, id: nat)
    requires Inventory.StockInv(st) && Reversible(st, m)
    ensures
      var r := Inventory.ApplyMovement(st, m.product, Inventory.SaleReversed, -m.delta, m.unitCost, Some(id));
      && r.Ok? && Inventory.StockInv(r.value) && SameTracking(st, r.value)
      && Appended(st.movements, r.value.movements, id, Inventory.SaleReversed)
  {
    Inventory.NeverNegative(st, m.product);
    Inventory.ApplyMovementKeepsInv(st, m.product, Inventory.SaleReversed, -m.delta, m.unitCost, Some(id));
  }

  ghost predicate Reversed(st: Inventory.Stock, r: Inventory.Stock, id: nat) {
    Inventory.StockInv(r) && SameTracking(st, r) && Appended(st.movements, r.movements, id, Inventory.SaleReversed)
  }

  lemma ReverseStep(st: Inventory.Stock, before: Inventory.Stock, m: Inventory.Movement, id: nat)
    requires Reversed(st, before, id) && Reversible(st, m)
    ensures
      var r := Inventory.ApplyMovement(before, m.product, Inventory.SaleReversed, -m.delta, m.unitCost, Some(id));
      r.Ok? && Reversed(st, r.value, id)
  {
    ReverseOne(before, m, id);
    var r := Inventory.ApplyMovement(before, m.product, Inventory.SaleReversed, -m.delta, m.unitCost, Some(id)).value;
    AppendedTwice(st.movements, before.movements, r.movements, id, Inventory.SaleReversed);
  }

  lemma NothingReversed(st: Inventory.Stock, id: nat)
    requires Inventory.StockInv(st)
    ensures Reversed(st, st, id)
  {
  }

  lemma ReversibleIsSold(st: Inventory.Stock, m: Inventory.Movement)
    requires Reversible(st, m)
    ensures m.kind == Inventory.Sold
  {
  }

  /** Reversing never fails. */
  lemma {:induction false} ReverseMovementsSound(st: Inventory.Stock, ms: seq<Inventory.Movement>, n: nat, id: nat)
    requires n <= |ms| && Inventory.StockInv(st) && MovedExist(st, ms)
    requires forall m :: m in ms ==> Reversible(st, m)
    ensures ReverseMovements(st, ms, n, id).Ok? && Reversed(st, ReverseMovements(st, ms, n, id).value, id)
  {
    hide Reversed, Reversible, Inventory.StockInv, Inventory.ApplyMovement;
    if n == 0 {
      NothingReversed(st, id);
    } else {
      ReverseMovementsSound(st, ms, n - 1, id);
      assert ms[n - 1] in ms && ms[n - 1].kind == Inventory.Sold by { ReversibleIsSold(st, ms[n - 1]); }
      ReverseStep(st, ReverseMovements(st, ms, n - 1, id).value, ms[n - 1], id);
    }
  }

  lemma {:induction false} ReverseMovementsPutBack(
    st: Inventory.Stock, ms: seq<Inventory.Movement>, n: nat, id: nat, p: Id)
    requires n <= |ms| && MovedExist(st, ms) && ReverseMovements(st, ms, n, id).Ok?
    requires forall m :: m in ms ==> m.kind == Inventory.Sold
    ensures NetMoved(ReverseMovements(st, ms, n, id).value.movements, id, p)
         == NetMoved(st.movements, id, p) - Sum(ms[..n], Inventory.DeltaOf(p))
  {
    if n > 0 {
      ReverseMovementsPutBack(st, ms, n - 1, id, p);
      assert ms[n - 1] in ms;
      var before := ReverseMovements(st, ms, n - 1, id).value;
      var after := ReverseMovements(st, ms, n, id).value;
      assert ms[..n] == ms[..n - 1] + [ms[n - 1]];
      SumAppend(ms[..n - 1], ms[n - 1], Inventory.DeltaOf(p));
      SumAppend(before.movements, after.movements[|before.movements|], SaleDelta(id, p));
    } else {
      assert ms[..0] == [];
    }
  }

  /** After the reversals the sale has moved nothing, product by product. */
  lemma VoidNetsToZero(st: State, id: nat, p: Id)
    requires Inventory.StockInv(st.stock) && MovementsNameSales(st.sales, st.stock.movements)
    requires id < |st.sales| && st.sales[id].status == Completed
    requires
      var ms := MovementsOf(st.stock.movements, id);
      MovedExist(st.stock, ms) && ReverseMovements(st.stock, ms, |ms|, id).Ok?
    ensures
      var ms := MovementsOf(st.stock.movements, id);
      NetMoved(ReverseMovements(st.stock, ms, |ms|, id).value.movements, id, p) == 0
  {
    var ms := MovementsOf(st.stock.movements, id);
    CompletedIsReversible(st, id);
    ReverseMovementsPutBack(st.stock, ms, |ms|, id, p);
    assert ms[..|ms|] == ms;
    MovementsOfNet(st.stock.movements, id, p);
  }

  lemma VoidKeepsStockMatch(sales: seq<Sale>, id: nat, before: seq<Inventory.Movement>, after: seq<Inventory.Movement>)
    requires SalesMatchStock(sales, before) && id < |sales|
    requires Appended(before, after, id, Inventory.SaleReversed)
    requires forall p :: NetMoved(after, id, p) == 0
    ensures SalesMatchStock(sales[id := sales[id].(status := Voided)], after)
  {
    var sales' := sales[id := sales[id].(status := Voided)];
    forall s: nat, p: Id | s < |sales'| && sales'[s].status == Voided ensures NetMoved(after, s, p) == 0 {
      if s != id {
        assert NetMoved(before, s, p) == 0;
        SumUnconcerned(before, after, SaleDelta(s, p));
      }
    }
  }

  // --- sales and credit ---------------------------------------------------------------------------

  function SaleAmount(sale: nat): Credit.Entry -> int {
    (e: Credit.Entry) => if e.sale == Some(sale) then e.amount else 0
  }

  /** What a sale has put on an account, net of its reversal. */
  function NetCharged(entries: seq<Credit.Entry>, sale: nat): int { Sum(entries, SaleAmount(sale)) }

  function CreditTender(c: Id): Sale -> int {
    (s: Sale) => if s.status == Completed && s.customer == Some(c) then Charged(s.payments) else 0
  }

  function AdjustedBy(c: Id): Credit.Entry -> int {
    (e: Credit.Entry) => if e.customer == c && e.kind == Credit.Adjustment then e.amount else 0
  }

  function RepaidBy(c: Id): Credit.Entry -> int {
    (e: Credit.Entry) => if e.customer == c && e.kind == Credit.Repayment then -e.amount else 0
  }

  /** A customer owes the CREDIT tenders of their COMPLETED sales, plus adjustments, less repayments. */
  predicate AccountAddsUp(sales: seq<Sale>, entries: seq<Credit.Entry>, c: Id) {
    Credit.Owed(entries, c) == Sum(sales, CreditTender(c)) + Sum(entries, AdjustedBy(c)) - Sum(entries, RepaidBy(c))
  }

  ghost predicate SalesMatchCredit(sales: seq<Sale>, entries: seq<Credit.Entry>) {
    && (forall i :: 0 <= i < |entries| && entries[i].sale.Some? ==> entries[i].sale.value < |sales|)
    && (forall s :: 0 <= s < |sales| ==>
      NetCharged(entries, s) == if sales[s].status == Completed then Charged(sales[s].payments) else 0)
    && (forall c: Id :: AccountAddsUp(sales, entries, c))
  }

  lemma AppendedEntry(entries: seq<Credit.Entry>, e: Credit.Entry, s: nat, c: Id)
    ensures NetCharged(entries + [e], s) == NetCharged(entries, s) + SaleAmount(s)(e)
    ensures Credit.Owed(entries + [e], c) == Credit.Owed(entries, c) + Credit.AmountOf(c)(e)
    ensures Sum(entries + [e], AdjustedBy(c)) == Sum(entries, AdjustedBy(c)) + AdjustedBy(c)(e)
    ensures Sum(entries + [e], RepaidBy(c)) == Sum(entries, RepaidBy(c)) + RepaidBy(c)(e)
  {
    SumAppend(entries, e, SaleAmount(s));
    SumAppend(entries, e, Credit.AmountOf(c));
    SumAppend(entries, e, AdjustedBy(c));
    SumAppend(entries, e, RepaidBy(c));
  }

  /** Repayments and adjustments concern no sale. */
  lemma OtherEntryKeepsMatch(sales: seq<Sale>, entries: seq<Credit.Entry>, e: Credit.Entry)
    requires SalesMatchCredit(sales, entries) && e.sale.None?
    requires e.kind == Credit.Repayment || e.kind == Credit.Adjustment
    ensures SalesMatchCredit(sales, entries + [e])
  {
    forall s | 0 <= s < |sales|
      ensures NetCharged(entries + [e], s) == if sales[s].status == Completed then Charged(sales[s].payments) else 0
    {
      AppendedEntry(entries, e, s, 0);
    }
    forall c: Id ensures AccountAddsUp(sales, entries + [e], c) {
      assert AccountAddsUp(sales, entries, c);
      AppendedEntry(entries, e, 0, c);
    }
  }

  lemma NothingChargedYet(sales: seq<Sale>, entries: seq<Credit.Entry>)
    requires SalesMatchCredit(sales, entries)
    ensures NetCharged(entries, |sales|) == 0
  {
    SumZero(entries, SaleAmount(|sales|));
  }

  /** A sale and its charge, if any, arrive together. */
  lemma SaleKeepsCreditMatch(sales: seq<Sale>, sale: Sale, entries: seq<Credit.Entry>, e: Option<Credit.Entry>)
    requires SalesMatchCredit(sales, entries) && sale.status == Completed
    requires e.None? ==> Charged(sale.payments) == 0
    requires e.Some? ==> e.value.kind == Credit.Charge && e.value.sale == Some(|sales|)
                         && e.value.amount == Charged(sale.payments) && sale.customer == Some(e.value.customer)
    ensures SalesMatchCredit(sales + [sale], if e.Some? then entries + [e.value] else entries)
  {
    var sales' := sales + [sale];
    var entries' := if e.Some? then entries + [e.value] else entries;
    NothingChargedYet(sales, entries);
    forall s | 0 <= s < |sales'|
      ensures NetCharged(entries', s) == if sales'[s].status == Completed then Charged(sales'[s].payments) else 0
    {
      if e.Some? { AppendedEntry(entries, e.value, s, 0); }
    }
    forall c: Id ensures AccountAddsUp(sales', entries', c) {
      assert AccountAddsUp(sales, entries, c);
      SumAppend(sales, sale, CreditTender(c));
      if e.Some? { AppendedEntry(entries, e.value, 0, c); }
    }
  }

  lemma VoidKeepsCreditMatch(sales: seq<Sale>, id: nat, entries: seq<Credit.Entry>, e: Option<Credit.Entry>)
    requires SalesMatchCredit(sales, entries) && id < |sales| && sales[id].status == Completed
    requires e.None? ==> Charged(sales[id].payments) == 0
    requires e.Some? ==> e.value.kind == Credit.Reversal && e.value.sale == Some(id)
                         && e.value.amount == -(Charged(sales[id].payments) as int)
                           && sales[id].customer == Some(e.value.customer)
    ensures SalesMatchCredit(sales[id := sales[id].(status := Voided)], if e.Some? then entries + [e.value]
      else entries)
  {
    var voided := sales[id].(status := Voided);
    var sales' := sales[id := voided];
    var entries' := if e.Some? then entries + [e.value] else entries;
    forall s | 0 <= s < |sales'|
      ensures NetCharged(entries', s) == if sales'[s].status == Completed then Charged(sales'[s].payments) else 0
    {
      if e.Some? { AppendedEntry(entries, e.value, s, 0); }
    }
    forall c: Id ensures AccountAddsUp(sales', entries', c) {
      assert AccountAddsUp(sales, entries, c);
      SumUpdate(sales, id, voided, CreditTender(c));
      if e.Some? { AppendedEntry(entries, e.value, 0, c); }
    }
  }

  // --- the invariant --------------------------------------------------------------------------------

  ghost predicate Inv(st: State) {
    && Inventory.StockInv(st.stock)
    && Credit.CreditInv(st.book)
    && SalesReconcile(st.sales) && SaleKeysUnique(st.sales) && SaleCustomersExist(st.sales, st.book)
    && SalesMatchStock(st.sales, st.stock.movements)
    && SalesMatchCredit(st.sales, st.book.entries)
    && MpesaLinks.MpesaInv(st.messages, st.sales, st.book.entries)
  }
}
