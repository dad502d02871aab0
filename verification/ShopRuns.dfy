/** Every operation keeps the shop's invariant, so every run does. */
module ShopRuns {
  import opened Prelude
  import opened SaleRecords
  import opened Shop
  import opened ShopInvariant
  import Text
  import Inventory
  import Credit
  import MpesaLinks

  // --- stock operations -------------------------------------------------------------------------

  lemma StockStepKeepsInv(st: State, stock: Inventory.Stock)
    requires Inv(st) && Inventory.StockInv(stock) && st.stock.movements <= stock.movements
    requires forall i :: |st.stock.movements| <= i < |stock.movements| ==>
      stock.movements[i].sale.None? && stock.movements[i].kind != Inventory.Sold
        && stock.movements[i].kind != Inventory.SaleReversed
    ensures Inv(st.(stock := stock))
  {
    hide Inventory.StockInv, Credit.CreditInv, SalesMatchStock, SalesMatchCredit, MpesaLinks.MpesaInv, SalesReconcile,
      SaleKeysUnique;
    OtherMovementsKeepMatch(st.sales, st.stock.movements, stock.movements);
  }

  lemma RestockKeepsInv(st: State, p: Id, quantity: nat, cost: nat, updateCost: bool)
    requires Inv(st) && Inventory.Restock(st.stock, p, quantity, cost, updateCost).Ok?
    ensures Inv(st.(stock := Inventory.Restock(st.stock, p, quantity, cost, updateCost).value))
  {
    hide Inventory.StockInv, Credit.CreditInv, SalesMatchStock, SalesMatchCredit, MpesaLinks.MpesaInv, SalesReconcile;
    Inventory.RestockKeepsInv(st.stock, p, quantity, cost, updateCost);
    StockStepKeepsInv(st, Inventory.Restock(st.stock, p, quantity, cost, updateCost).value);
  }

  lemma AdjustKeepsInv(st: State, p: Id, delta: int)
    requires Inv(st) && Inventory.Adjust(st.stock, p, delta).Ok?
    ensures Inv(st.(stock := Inventory.Adjust(st.stock, p, delta).value))
  {
    hide Inventory.StockInv, Credit.CreditInv, SalesMatchStock, SalesMatchCredit, MpesaLinks.MpesaInv, SalesReconcile;
    Inventory.ApplyMovementKeepsInv(st.stock, p, Inventory.Adjusted, delta, None, None);
    StockStepKeepsInv(st, Inventory.Adjust(st.stock, p, delta).value);
  }

  lemma InitialKeepsInv(st: State, p: Id, quantity: nat, cost: nat)
    requires Inv(st) && Inventory.SetInitialStock(st.stock, p, quantity, cost).Ok?
    ensures Inv(st.(stock := Inventory.SetInitialStock(st.stock, p, quantity, cost).value))
  {
    hide Inventory.StockInv, Credit.CreditInv, SalesMatchStock, SalesMatchCredit, MpesaLinks.MpesaInv, SalesReconcile;
    Inventory.ApplyMovementKeepsInv(st.stock, p, Inventory.Initial, quantity, Some(cost), None);
    StockStepKeepsInv(st, Inventory.SetInitialStock(st.stock, p, quantity, cost).value);
  }

  lemma AddProductKeepsInv(
    st: State, p: Id, tracked: bool, price: nat, cost: Option<nat>, opening: Option<nat>, openingCost: Option<nat>)
    requires Inv(st) && Inventory.CreateProduct(st.stock, p, tracked, price, cost, opening, openingCost).Ok?
    ensures Inv(st.(stock := Inventory.CreateProduct(st.stock, p, tracked, price, cost, opening, openingCost).value))
  {
    hide Inventory.StockInv, Credit.CreditInv, SalesMatchStock, SalesMatchCredit, MpesaLinks.MpesaInv, SalesReconcile;
    Inventory.CreateProductKeepsInv(st.stock, p, tracked, price, cost, opening, openingCost);
    StockStepKeepsInv(st, Inventory.CreateProduct(st.stock, p, tracked, price, cost, opening, openingCost).value);
  }

  lemma EditProductKeepsInv(st: State, p: Id, tracked: bool, active: bool, price: nat, cost: Option<nat>)
    requires Inv(st) && Inventory.UpdateProduct(st.stock, p, tracked, active, price, cost).Ok?
    ensures Inv(st.(stock := Inventory.UpdateProduct(st.stock, p, tracked, active, price, cost).value))
  {
    hide Inventory.StockInv, Credit.CreditInv, SalesMatchStock, SalesMatchCredit, MpesaLinks.MpesaInv, SalesReconcile;
    Inventory.UpdateProductKeepsInv(st.stock, p, tracked, active, price, cost);
    StockStepKeepsInv(st, Inventory.UpdateProduct(st.stock, p, tracked, active, price, cost).value);
  }

  // --- credit operations ------------------------------------------------------------------------

  lemma BookStepKeepsInv(st: State, book: Credit.Book)
    requires Inv(st) && Credit.CreditInv(book) && book.entries == st.book.entries
    requires st.book.customers.Keys <= book.customers.Keys
    ensures Inv(st.(book := book))
  {
  }

  lemma CustomerKeepsInv(st: State, c: Id, active: bool, limit: Option<nat>)
    requires Inv(st)
    ensures Inv(SaveCustomer(st, c, active, limit))
  {
    var book := SaveCustomer(st, c, active, limit).book;
    if c !in st.book.customers {
      SumZero(st.book.entries, Credit.AmountOf(c));
    }
    assert Credit.CreditInv(book);
    BookStepKeepsInv(st, book);
  }

  lemma RecomputeKeepsInv(st: State)
    requires Inv(st)
    ensures st.(book := Credit.Repaired(st.book)) == st && st.(stock := Inventory.Repaired(st.stock)) == st
  {
    Credit.RepairRestores(st.book);
    Inventory.NothingToRepair(st.stock);
  }

  /** A posted repayment or adjustment appends one entry that concerns no sale. */
  lemma RecordKeepsMatch(st: State, entry: Credit.Entry, allowNegative: bool)
    requires Inv(st) && Credit.Record(st.book, entry, allowNegative).Ok?
    requires entry.sale.None? && (entry.amount != 0 ==> Credit.WellSigned(entry))
    requires entry.kind == Credit.Repayment || entry.kind == Credit.Adjustment
    ensures Inv(st.(book := Credit.Record(st.book, entry, allowNegative).value.book))
  {
    hide Inventory.StockInv, Credit.CreditInv, SalesMatchStock, SalesMatchCredit, MpesaLinks.MpesaInv, SalesReconcile;
    var r := Credit.Record(st.book, entry, allowNegative).value;
    Credit.RecordKeepsInv(st.book, entry, allowNegative);
    if r.created {
      var posted := r.book.entries[|st.book.entries|];
      OtherEntryKeepsMatch(st.sales, st.book.entries, posted);
      MpesaLinks.TablesGrow(st.messages, st.sales, st.book.entries, st.sales, r.book.entries);
    }
  }

  lemma RepaymentKeepsInv(st: State, req: RepaymentRequest)
    requires Inv(st) && RecordRepayment(st, req).Ok?
    ensures Inv(RecordRepayment(st, req).value)
  {
    hide Inventory.StockInv, Credit.CreditInv, SalesMatchStock, SalesMatchCredit, SalesReconcile,
      MpesaLinks.LinkByCode, Text.Trim, Text.Normalised;
    var reference := Text.Trim(req.reference);
    var entry := Credit.RepaymentEntry(req.customer, req.amount, req.via, reference, req.key, req.digest);
    RecordKeepsMatch(st, entry, req.allowOverpayment);
    var r := Credit.Record(st.book, entry, req.allowOverpayment).value;
    if r.created && req.via == Credit.Mpesa && Text.Normalised(reference) != "" {
      assert !MpesaLinks.RepaymentLinked(st.messages, r.entry);
      MpesaLinks.LinkByCodeKeepsInv(st.messages, st.sales, r.book.entries, Text.Normalised(reference), None,
        Some(r.entry));
    }
  }

  lemma AdjustmentKeepsInv(st: State, c: Id, signed: int, key: Option<Key>, digest: nat)
    requires Inv(st) && RecordAdjustment(st, c, signed, key, digest).Ok?
    ensures Inv(RecordAdjustment(st, c, signed, key, digest).value)
  {
    hide Inventory.StockInv, Credit.CreditInv, SalesMatchStock, SalesMatchCredit, MpesaLinks.MpesaInv, SalesReconcile;
    RecordKeepsMatch(st, Credit.AdjustmentEntry(c, signed, key, digest), false);
  }

  // --- sales ------------------------------------------------------------------------------------

  /** The entry a sale posts, if any. */
  function Posted(before: Credit.Book, after: Credit.Book): Option<Credit.Entry> {
    if |after.entries| > |before.entries| then Some(after.entries[|before.entries|]) else None
  }

  lemma ChargeKeepsInv(book: Credit.Book, sale: Sale, id: nat)
    requires Credit.CreditInv(book) && (sale.customer.Some? ==> sale.customer.value in book.customers)
    requires ChargeSale(book, sale, id).Ok? && (Charged(sale.payments) > 0 ==> sale.customer.Some?)
    ensures
      var r := ChargeSale(book, sale, id).value;
      var e := Posted(book, r);
      && Credit.CreditInv(r)
      && r.entries == (if e.Some? then book.entries + [e.value] else book.entries)
      && (e.None? ==> Charged(sale.payments) == 0)
      && (e.Some? ==> e.value.kind == Credit.Charge && e.value.sale == Some(id)
                      && e.value.amount == Charged(sale.payments) && sale.customer == Some(e.value.customer))
  {
    if Charged(sale.payments) > 0 {
      Credit.PostEntryKeepsInv(book, ChargeEntry(sale.customer.value, Charged(sale.payments), id), false);
    }
  }

  lemma RecordSaleKeepsInv(st: State, sale: Sale)
    requires Inv(st) && SaleReconciles(sale) && sale.status == Completed
    requires forall i :: 0 <= i < |st.sales| ==> st.sales[i].key != sale.key
    requires ItemsExist(st.stock, sale.items) && (sale.customer.Some? ==> sale.customer.value in st.book.customers)
    requires RecordSale(st, sale).Ok?
    ensures Inv(RecordSale(st, sale).value)
  {
    hide Inventory.StockInv, Credit.CreditInv, SalesMatchStock, SalesMatchCredit, MpesaLinks.MpesaInv;
    var id := |st.sales|;
    var st' := RecordSale(st, sale).value;
    SellItemsSound(st.stock, sale.items, |sale.items|, id);
    SaleMovementsKeepMatch(st.sales, sale, st.stock.movements, st'.stock.movements);
    ChargeKeepsInv(st.book, sale, id);
    SaleKeepsCreditMatch(st.sales, sale, st.book.entries, Posted(st.book, st'.book));
    NewSaleKeepsLinks(st, sale, st'.book.entries);
  }

  lemma NewSaleKeepsLinks(st: State, sale: Sale, entries: seq<Credit.Entry>)
    requires MpesaLinks.MpesaInv(st.messages, st.sales, st.book.entries) && sale.status == Completed
    requires st.book.entries <= entries
    ensures MpesaLinks.MpesaInv(
      MpesaLinks.LinkTenders(st.messages, |st.sales|, sale.payments, |sale.payments|), st.sales + [sale], entries)
  {
    MpesaLinks.TablesGrow(st.messages, st.sales, st.book.entries, st.sales + [sale], entries);
    MpesaLinks.LinkTendersKeepsInv(st.messages, st.sales + [sale], entries, |st.sales|, |sale.payments|);
  }

  lemma SellKeepsInv(st: State, req: SaleRequest)
    requires Inv(st) && CreateSale(st, req).Ok?
    ensures Inv(CreateSale(st, req).value.state)
  {
    hide Inv;
    if FindSaleKey(st.sales, req.key).None? {
      PricedSaleReconciles(st, req);
      RecordSaleKeepsInv(st, PriceSale(st, req).value);
    }
  }

  lemma ReverseChargeSound(st: State, id: nat)
    requires Inv(st) && id < |st.sales| && st.sales[id].status == Completed
    ensures ReverseCharge(st.book, st.sales[id], id).Ok?
    ensures
      var sale := st.sales[id];
      var r := ReverseCharge(st.book, sale, id).value;
      var e := Posted(st.book, r);
      && Credit.CreditInv(r)
      && r.entries == (if e.Some? then st.book.entries + [e.value] else st.book.entries)
      && (e.None? ==> Charged(sale.payments) == 0)
      && (e.Some? ==> e.value.kind == Credit.Reversal && e.value.sale == Some(id)
                      && e.value.amount == -(Charged(sale.payments) as int) && sale.customer == Some(e.value.customer))
  {
    var sale := st.sales[id];
    if Charged(sale.payments) > 0 {
      Credit.PostEntryKeepsInv(st.book, ReversalEntry(sale.customer.value, Charged(sale.payments), id), true);
    }
  }

  /** Voiding a COMPLETED sale always succeeds, whatever happened since it was recorded. */
  lemma VoidSucceeds(st: State, id: nat)
    requires Inv(st) && id < |st.sales| && st.sales[id].status == Completed
    ensures VoidSale(st, id).Ok?
    ensures
      var ms := MovementsOf(st.stock.movements, id);
      && MovedExist(st.stock, ms)
      && ReverseMovements(st.stock, ms, |ms|, id) == Ok(VoidSale(st, id).value.stock)
      && Reversed(st.stock, VoidSale(st, id).value.stock, id)
  {
    var ms := MovementsOf(st.stock.movements, id);
    CompletedIsReversible(st, id);
    forall i | 0 <= i < |ms| ensures ms[i].product in st.stock.products { assert ms[i] in ms; }
    ReverseMovementsSound(st.stock, ms, |ms|, id);
    ReverseChargeSound(st, id);
  }

  /** The void of a sale leaves its net movement at zero for every product. */
  lemma VoidNets(st: State, id: nat, p: Id)
    requires Inv(st) && VoidSale(st, id).Ok?
    ensures NetMoved(VoidSale(st, id).value.stock.movements, id, p) == 0
  {
    hide ReverseMovements, MovementsOf, Inventory.StockInv, Credit.CreditInv, SalesMatchCredit, MpesaLinks.MpesaInv,
      SalesReconcile;
    VoidSucceeds(st, id);
    VoidNetsToZero(st, id, p);
  }

  lemma VoidKeepsInv(st: State, id: nat)
    requires Inv(st) && VoidSale(st, id).Ok?
    ensures Inv(VoidSale(st, id).value)
  {
    hide Inventory.StockInv, Credit.CreditInv, SalesMatchStock, SalesMatchCredit, MpesaLinks.MpesaInv,
      ReverseMovements, MovementsOf, MpesaLinks.UnlinkTenders;
    var st' := VoidSale(st, id).value;
    VoidSucceeds(st, id);
    forall p ensures NetMoved(st'.stock.movements, id, p) == 0 { VoidNets(st, id, p); }
    VoidKeepsStockMatch(st.sales, id, st.stock.movements, st'.stock.movements);
    ReverseChargeSound(st, id);
    VoidKeepsCreditMatch(st.sales, id, st.book.entries, Posted(st.book, st'.book));
    MpesaLinks.VoidKeepsInv(st.messages, st.sales, st.book.entries, id);
    MpesaLinks.TablesGrow(st'.messages, st'.sales, st.book.entries, st'.sales, st'.book.entries);
  }

  // --- messages -----------------------------------------------------------------------------------

  lemma MessagesKeepInv(st: State, messages: seq<MpesaLinks.Message>)
    requires Inv(st) && MpesaLinks.MpesaInv(messages, st.sales, st.book.entries)
    ensures Inv(st.(messages := messages))
  {
  }

  // --- steps and runs -----------------------------------------------------------------------------

  lemma StepKeepsInv(st: State, op: Op)
    requires Inv(st)
    ensures Inv(Step(st, op))
  {
    hide Inventory.StockInv, Credit.CreditInv, SalesMatchStock, SalesMatchCredit, MpesaLinks.MpesaInv, SalesReconcile,
      CreateSale, VoidSale;
    if Attempt(st, op).Ok? {
      match op
      case AddProduct(p, tracked, price, cost, opening, openingCost) =>
        AddProductKeepsInv(st, p, tracked, price, cost, Widen(opening), openingCost);
      case EditProduct(p, tracked, active, price, cost) => EditProductKeepsInv(st, p, tracked, active, price, cost);
      case Restock(p, quantity, cost, updateCost) => RestockKeepsInv(st, p, quantity, cost, updateCost);
      case AdjustStock(p, delta) => AdjustKeepsInv(st, p, delta);
      case InitialStock(p, quantity, cost) => InitialKeepsInv(st, p, quantity, cost);
      case RecomputeStock(apply) => RecomputeKeepsInv(st);
      case PutCustomer(c, active, limit) => CustomerKeepsInv(st, c, active, limit);
      case Repay(req) => RepaymentKeepsInv(st, req);
      case AdjustCredit(c, signed, key, digest) => AdjustmentKeepsInv(st, c, signed, key, digest);
      case RecomputeBalances(apply) => RecomputeKeepsInv(st);
      case Sell(req) => SellKeepsInv(st, req);
      case Void(id) => VoidKeepsInv(st, id);
      case PasteMessage(parsed, amount) =>
        MpesaLinks.PasteKeepsInv(st.messages, st.sales, st.book.entries, parsed, amount);
        MessagesKeepInv(st, MpesaLinks.Paste(st.messages, st.sales, st.book.entries, parsed, amount));
      case MatchMessage(i, target) =>
        MpesaLinks.MatchKeepsInv(st.messages, st.sales, st.book.entries, i, target);
        MessagesKeepInv(st, MpesaLinks.Match(st.messages, st.sales, st.book.entries, i, target).value);
      case IgnoreMessage(i) =>
        MpesaLinks.IgnoreKeepsInv(st.messages, st.sales, st.book.entries, i);
        MessagesKeepInv(st, MpesaLinks.Ignore(st.messages, i).value);
    }
  }

  lemma EmptyInv()
    ensures Inv(EMPTY)
  {
    forall c: Id ensures AccountAddsUp([], [], c) {}
  }

  /** In every state any run of operations can reach, the invariant holds. */
  lemma {:induction false} EveryRunKeepsInv(ops: seq<Op>)
    ensures Inv(Run(EMPTY, ops))
  {
    if ops == [] {
      EmptyInv();
    } else {
      EveryRunKeepsInv(ops[..|ops| - 1]);
      StepKeepsInv(Run(EMPTY, ops[..|ops| - 1]), ops[|ops| - 1]);
    }
  }
}
