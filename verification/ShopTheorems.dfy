/** What the invariant means to a reader of the shop's books, for every run. */
module ShopTheorems {
  import opened Prelude
  import opened SaleRecords
  import opened Shop
  import opened ShopInvariant
  import opened ShopRuns
  import Inventory
  import Credit
  import MpesaLinks
  import DebtAgeing

  /**
   * In every reachable state a customer's cached balance is the sum of their ledger, which is
   * the CREDIT tenders of their COMPLETED sales plus adjustments less repayments.
   */
  lemma BalancesInEveryRun(ops: seq<Op>, c: Id)
    requires c in Run(EMPTY, ops).book.customers
    ensures
      var st := Run(EMPTY, ops);
      && st.book.customers[c].balance == Credit.Owed(st.book.entries, c)
      && st.book.customers[c].balance
         == Sum(st.sales, CreditTender(c)) + Sum(st.book.entries, AdjustedBy(c)) - Sum(st.book.entries, RepaidBy(c))
      && (forall i :: 0 <= i < |st.book.entries| ==> Credit.RunningBalanceAt(st.book.entries, i))
  {
    var st := Run(EMPTY, ops);
    EveryRunKeepsInv(ops);
    assert AccountAddsUp(st.sales, st.book.entries, c);
  }

  /**
   * In every reachable state a product's cached stock is the sum of its movements and the last
   * running balance, was never negative at any earlier point, and is zero when untracked.
   */
  lemma StockInEveryRun(ops: seq<Op>, p: Id)
    requires p in Run(EMPTY, ops).stock.products
    ensures
      var st := Run(EMPTY, ops).stock;
      && st.products[p].quantity == Inventory.Ledger(st.movements, p) == Inventory.LastAfter(st.movements, p) >= 0
      && (forall k :: 0 <= k <= |st.movements| ==> Inventory.Ledger(st.movements[..k], p) >= 0)
      && (!st.products[p].tracked ==> st.products[p].quantity == 0 && !Inventory.HasMovements(st.movements, p))
  {
    EveryRunKeepsInv(ops);
    Inventory.StockPromises(Run(EMPTY, ops).stock, p);
  }

  lemma {:induction false} NetMovedSplits(
    movements: seq<Inventory.Movement>, more: seq<Inventory.Movement>, id: nat, p: Id)
    requires movements <= more
    requires forall i :: |movements| <= i < |more| ==> more[i].sale == Some(id)
    ensures Inventory.Ledger(more, p) - Inventory.Ledger(movements, p)
      == NetMoved(more, id, p) - NetMoved(movements, id, p)
  {
    var added := more[|movements|..];
    assert more == movements + added;
    SumConcat(movements, added, Inventory.DeltaOf(p));
    SumConcat(movements, added, SaleDelta(id, p));
    SumSame(added, Inventory.DeltaOf(p), SaleDelta(id, p));
  }

  /** What the void of a sale does to the two ledgers, in full. */
  ghost predicate Cancelled(st: State, st': State, id: nat)
    requires id < |st.sales| && st'.stock.products.Keys == st.stock.products.Keys
    requires st'.book.customers.Keys == st.book.customers.Keys
  {
    var sale := st.sales[id];
    // the sale has moved nothing and charged nothing
    && (forall p :: NetMoved(st'.stock.movements, id, p) == 0)
    && NetCharged(st'.book.entries, id) == 0
    // every product has back exactly what the sale took
    && (forall p :: p in st.stock.products ==>
      st'.stock.products[p].quantity == st.stock.products[p].quantity - NetMoved(st.stock.movements, id, p))
    // the customer, and nobody else, owes the charged amount less
    && (forall c :: c in st.book.customers ==>
          st'.book.customers[c].balance
            == st.book.customers[c].balance - (if sale.customer == Some(c) then Charged(sale.payments) else 0))
    // history is only appended to, and the sale row stays
    && st.stock.movements <= st'.stock.movements && st.book.entries <= st'.book.entries
    && st'.sales == st.sales[id := sale.(status := Voided)]
  }

  lemma VoidedStock(st: State, id: nat, p: Id)
    requires Inv(st) && VoidSale(st, id).Ok? && p in st.stock.products
    ensures
      var st' := VoidSale(st, id).value;
      && st'.stock.products.Keys == st.stock.products.Keys && st.stock.movements <= st'.stock.movements
      && st'.stock.products[p].quantity == st.stock.products[p].quantity - NetMoved(st.stock.movements, id, p)
  {
    hide ReverseMovements, MovementsOf, Credit.CreditInv, SalesMatchCredit, MpesaLinks.MpesaInv, SalesReconcile,
      SalesMatchStock;
    var st' := VoidSale(st, id).value;
    VoidSucceeds(st, id);
    VoidNets(st, id, p);
    NetMovedSplits(st.stock.movements, st'.stock.movements, id, p);
  }

  lemma VoidedBalance(st: State, id: nat, c: Id)
    requires Inv(st) && VoidSale(st, id).Ok? && c in st.book.customers
    ensures
      var st' := VoidSale(st, id).value;
      && st'.book.customers.Keys == st.book.customers.Keys && st.book.entries <= st'.book.entries
      && st'.book.customers[c].balance
         == st.book.customers[c].balance
           - (if st.sales[id].customer == Some(c) then Charged(st.sales[id].payments) else 0)
  {
    hide ReverseMovements, MovementsOf, Inventory.StockInv, Credit.CreditInv, SalesMatchCredit, SalesMatchStock,
      MpesaLinks.MpesaInv;
  }

  /**
   * Voiding a COMPLETED sale of any reachable state succeeds and cancels it exactly. The state
   * is arbitrary, so this holds whatever was recorded between the sale and its void.
   */
  lemma VoidCancels(st: State, id: nat)
    requires Inv(st) && id < |st.sales| && st.sales[id].status == Completed
    ensures VoidSale(st, id).Ok?
    ensures
      var st' := VoidSale(st, id).value;
      && st'.stock.products.Keys == st.stock.products.Keys && st'.book.customers.Keys == st.book.customers.Keys
      && Cancelled(st, st', id)
      && (forall i :: 0 <= i < |st'.messages| && st'.messages[i].payment.Some? ==>
        st'.messages[i].payment.value.sale != id)
  {
    hide ReverseMovements, MovementsOf, Inventory.StockInv, Credit.CreditInv, SalesMatchStock, SalesReconcile;
    VoidSucceeds(st, id);
    VoidKeepsInv(st, id);
    var st' := VoidSale(st, id).value;
    VoidKeys(st, id);
    forall p | p in st.stock.products
      ensures st'.stock.products[p].quantity == st.stock.products[p].quantity - NetMoved(st.stock.movements, id, p)
    { VoidedStock(st, id, p); }
    forall p ensures NetMoved(st'.stock.movements, id, p) == 0 { VoidNets(st, id, p); }
    forall c | c in st.book.customers
      ensures st'.book.customers[c].balance
        == st.book.customers[c].balance
          - (if st.sales[id].customer == Some(c) then Charged(st.sales[id].payments) else 0)
    { VoidedBalance(st, id, c); }
    assert NetCharged(st'.book.entries, id) == 0;
  }

  lemma VoidKeys(st: State, id: nat)
    requires Inv(st) && VoidSale(st, id).Ok?
    ensures
      var st' := VoidSale(st, id).value;
      && st'.stock.products.Keys == st.stock.products.Keys && st'.book.customers.Keys == st.book.customers.Keys
      && st.stock.movements <= st'.stock.movements && st.book.entries <= st'.book.entries
      && st'.sales == st.sales[id := st.sales[id].(status := Voided)]
  {
    hide ReverseMovements, MovementsOf, Inventory.StockInv, Credit.CreditInv, SalesMatchCredit, SalesMatchStock,
      MpesaLinks.MpesaInv, SalesReconcile;
    VoidSucceeds(st, id);
  }

  lemma StepKeepsVoided(st: State, op: Op, id: nat)
    requires id < |st.sales| && st.sales[id].status == Voided
    ensures id < |Step(st, op).sales| && Step(st, op).sales[id] == st.sales[id]
  {
    hide RecordSale, PriceSale, ReverseMovements, MovementsOf, ReverseCharge, Credit.Record;
    if op.Sell? && CreateSale(st, op.sale).Ok? && CreateSale(st, op.sale).value.created {
      RecordedRow(st, PriceSale(st, op.sale).value);
    }
  }

  /** A voided sale stays as it is in every continuation. */
  lemma {:induction false} VoidedForGood(st: State, ops: seq<Op>, id: nat)
    requires id < |st.sales| && st.sales[id].status == Voided
    ensures id < |Run(st, ops).sales| && Run(st, ops).sales[id] == st.sales[id]
  {
    hide Step;
    if ops != [] {
      VoidedForGood(st, ops[..|ops| - 1], id);
      StepKeepsVoided(Run(st, ops[..|ops| - 1]), ops[|ops| - 1], id);
    }
  }

  /** A void cannot be repeated: whatever happens afterwards, a second one is refused. */
  lemma VoidOnce(st: State, id: nat, ops: seq<Op>)
    requires VoidSale(st, id).Ok?
    ensures
      var later := Run(VoidSale(st, id).value, ops);
      && id < |later.sales| && later.sales[id] == st.sales[id].(status := Voided)
      && VoidSale(later, id) == Err(AlreadyVoided)
  {
    hide ReverseMovements, MovementsOf, ReverseCharge, Run;
    VoidedForGood(VoidSale(st, id).value, ops, id);
  }

  /** A recorded sale takes its quantities out of the tracked products and no others. */
  lemma SaleTakesOut(st: State, sale: Sale, p: Id)
    requires ItemsExist(st.stock, sale.items) && (sale.customer.Some? ==> sale.customer.value in st.book.customers)
    requires RecordSale(st, sale).Ok? && p in st.stock.products
    ensures
      var st' := RecordSale(st, sale).value;
      && p in st'.stock.products
      && st'.stock.products[p].quantity
         == st.stock.products[p].quantity - (if st.stock.products[p].tracked then Sum(sale.items, QuantityOf(p)) else 0)
  {
    hide SellItems, MpesaLinks.LinkTenders;
    SellItemsTakesOut(st.stock, sale.items, |sale.items|, |st.sales|, p);
    assert sale.items[..|sale.items|] == sale.items;
  }

  lemma NewSaleMoved(st: State, sale: Sale, p: Id)
    requires Inv(st) && ItemsExist(st.stock, sale.items)
    requires (sale.customer.Some? ==> sale.customer.value in st.book.customers)
    requires RecordSale(st, sale).Ok? && p in st.stock.products
    ensures
      var st' := RecordSale(st, sale).value;
      && p in st'.stock.products
      && NetMoved(st'.stock.movements, |st.sales|, p) == st'.stock.products[p].quantity - st.stock.products[p].quantity
  {
    hide SellItems, Credit.CreditInv, SalesMatchCredit, MpesaLinks.MpesaInv, MpesaLinks.LinkTenders, SalesReconcile;
    var st' := RecordSale(st, sale).value;
    SellItemsSound(st.stock, sale.items, |sale.items|, |st.sales|);
    SumZero(st.stock.movements, SaleDelta(|st.sales|, p));
    NetMovedSplits(st.stock.movements, st'.stock.movements, |st.sales|, p);
  }

  /** A sale voided straight away leaves every stock quantity and every balance as it found them. */
  lemma SaleThenVoid(st: State, req: SaleRequest)
    requires Inv(st) && CreateSale(st, req).Ok? && CreateSale(st, req).value.created
    ensures
      var sold := CreateSale(st, req).value;
      && VoidSale(sold.state, sold.sale).Ok?
      && var st' := VoidSale(sold.state, sold.sale).value;
         && (forall p :: p in st.stock.products ==>
           p in st'.stock.products && st'.stock.products[p].quantity == st.stock.products[p].quantity)
         && (forall c :: c in st.book.customers ==>
           c in st'.book.customers && st'.book.customers[c].balance == st.book.customers[c].balance)
  {
    hide RecordSale, VoidSale, Inventory.StockInv, Credit.CreditInv, SalesMatchCredit, SalesMatchStock,
      MpesaLinks.MpesaInv, PriceSale;
    var sold := CreateSale(st, req).value;
    var sale := PriceSale(st, req).value;
    SellKeepsInv(st, req);
    PricedSaleReconciles(st, req);
    RecordedRow(st, sale);
    VoidCancels(sold.state, sold.sale);
    var st' := VoidSale(sold.state, sold.sale).value;
    forall p | p in st.stock.products
      ensures p in st'.stock.products && st'.stock.products[p].quantity == st.stock.products[p].quantity {
      NewSaleMoved(st, sale, p);
    }
    forall c | c in st.book.customers
      ensures c in st'.book.customers && st'.book.customers[c].balance == st.book.customers[c].balance {
      RecordedBalance(st, sale, c);
    }
  }

  /** A retried sale names the first one; stock, credit and messages stay as the first left them. */
  lemma SaleRetried(st: State, req: SaleRequest)
    requires CreateSale(st, req).Ok?
    ensures var c := CreateSale(st, req).value; CreateSale(c.state, req) == Ok(Created(c.state, c.sale, false))
  {
    hide RecordSale, PriceSale;
    if CreateSale(st, req).value.created {
      RecordedRow(st, PriceSale(st, req).value);
      PricedDigest(st, req);
    }
  }

  lemma PricedDigest(st: State, req: SaleRequest)
    requires SchemaOk(req) && PriceSale(st, req).Ok?
    ensures PriceSale(st, req).value.digest == req.digest
  {
  }

  lemma RecordedRow(st: State, sale: Sale)
    requires ItemsExist(st.stock, sale.items) && (sale.customer.Some? ==> sale.customer.value in st.book.customers)
    requires RecordSale(st, sale).Ok?
    ensures RecordSale(st, sale).value.sales == st.sales + [sale]
  {
    hide SellItems, MpesaLinks.LinkTenders;
  }

  /** Its CREDIT tenders go onto the customer's balance, and nobody else's changes. */
  lemma RecordedBalance(st: State, sale: Sale, c: Id)
    requires ItemsExist(st.stock, sale.items) && (sale.customer.Some? ==> sale.customer.value in st.book.customers)
    requires RecordSale(st, sale).Ok? && (Charged(sale.payments) > 0 ==> sale.customer.Some?)
    requires c in st.book.customers
    ensures
      var st' := RecordSale(st, sale).value;
      && c in st'.book.customers
      && st'.book.customers[c].balance
        == st.book.customers[c].balance + (if sale.customer == Some(c) then Charged(sale.payments) else 0)
  {
    hide SellItems, MpesaLinks.LinkTenders;
  }

  // --- debtors --------------------------------------------------------------------------------------

  /** The credit ledger as the debtor query sees it, each row with the instants it carries. */
  function DebtRows(entries: seq<Credit.Entry>, occurredAt: nat -> int, createdAt: nat -> int): (r: seq<DebtAgeing.Row>)
    ensures |r| == |entries| && DebtAgeing.IdsUnique(r)
  {
    seq(|entries|, i requires 0 <= i < |entries| =>
      DebtAgeing.Row(i, entries[i].customer, entries[i].amount, occurredAt(i), createdAt(i)))
  }

  /**
   * In every run, whatever instants the ledger rows carry: the cached balance the query filters on
   * is above zero exactly when the query finds a date, and that date is the pay-off's.
   */
  lemma DebtorsHaveDates(ops: seq<Op>, occurredAt: nat -> int, createdAt: nat -> int, c: Id)
    requires c in Run(EMPTY, ops).book.customers
    ensures
      var book := Run(EMPTY, ops).book;
      var rows := DebtRows(book.entries, occurredAt, createdAt);
      && (book.customers[c].balance > 0 <==> DebtAgeing.OldestUnpaid(rows, c).Some?)
      && DebtAgeing.OldestUnpaid(rows, c) == DebtAgeing.Pour(DebtAgeing.Paid(rows, c), DebtAgeing.Charges(rows, c), 0)
  {
    hide Run, DebtAgeing.OldestUnpaid, DebtAgeing.Charges, DebtAgeing.Pour;
    EveryRunKeepsInv(ops);
    var book := Run(EMPTY, ops).book;
    var rows := DebtRows(book.entries, occurredAt, createdAt);
    SumMatched(rows, book.entries, DebtAgeing.AmountOf(c), Credit.AmountOf(c));
    DebtAgeing.DateIffOwing(rows, c);
    DebtAgeing.QueryIsPayOff(rows, c);
  }

  // --- history is only appended to ------------------------------------------------------------------

  ghost predicate Grows(st: State, st': State) {
    st.stock.movements <= st'.stock.movements && st.book.entries <= st'.book.entries
  }

  lemma {:induction false} SellItemsGrows(st: Inventory.Stock, items: seq<Item>, n: nat, id: nat)
    requires n <= |items| && ItemsExist(st, items) && SellItems(st, items, n, id).Ok?
    ensures st.movements <= SellItems(st, items, n, id).value.movements
  {
    if n > 0 { SellItemsGrows(st, items, n - 1, id); }
  }

  lemma {:induction false} ReverseMovementsGrows(st: Inventory.Stock, ms: seq<Inventory.Movement>, n: nat, id: nat)
    requires n <= |ms| && MovedExist(st, ms) && ReverseMovements(st, ms, n, id).Ok?
    ensures st.movements <= ReverseMovements(st, ms, n, id).value.movements
  {
    if n > 0 { ReverseMovementsGrows(st, ms, n - 1, id); }
  }

  lemma SellGrows(st: State, req: SaleRequest)
    requires CreateSale(st, req).Ok?
    ensures Grows(st, CreateSale(st, req).value.state)
  {
    hide SellItems, PriceSale, MpesaLinks.LinkTenders, Charged;
    if FindSaleKey(st.sales, req.key).None? {
      var sale := PriceSale(st, req).value;
      SellItemsGrows(st.stock, sale.items, |sale.items|, |st.sales|);
    }
  }

  lemma VoidGrows(st: State, id: nat)
    requires VoidSale(st, id).Ok?
    ensures Grows(st, VoidSale(st, id).value)
  {
    hide ReverseMovements, MovementsOf, MpesaLinks.UnlinkTenders, Charged;
    var ms := MovementsOf(st.stock.movements, id);
    ReverseMovementsGrows(st.stock, ms, |ms|, id);
  }

  /** Both ledgers are append-only under every operation. */
  lemma LedgersAppendOnly(st: State, op: Op)
    ensures Grows(st, Step(st, op))
  {
    hide CreateSale, VoidSale, MpesaLinks.Paste, MpesaLinks.Match;
    if Attempt(st, op).Ok? {
      match op
      case Sell(req) => SellGrows(st, req);
      case Void(id) => VoidGrows(st, id);
      case _ =>
    }
  }
}
