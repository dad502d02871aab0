/** What one step leaves alone: rows that are locked by others, and the keys already committed. */
module ConcurrencyFrames {
  import opened Prelude
  import opened SaleRecords
  import opened Shop
  import opened Concurrency
  import opened LockOrder
  import ShopInvariant
  import Money
  import Inventory
  import Credit
  import MpesaLinks

  predicate SameRow(a: State, b: State, row: Resource) {
    match row
    case ProductRow(p) =>
      (p in a.stock.products <==> p in b.stock.products)
        && (p in a.stock.products ==> a.stock.products[p] == b.stock.products[p])
    case CustomerRow(c) =>
      (c in a.book.customers <==> c in b.book.customers)
        && (c in a.book.customers ==> a.book.customers[c] == b.book.customers[c])
    case _ => true
  }

  /** Rows are only added to the two keyed tables, and never change but for a sale's status. */
  predicate Extends(a: State, b: State) {
    && |a.sales| <= |b.sales| && a.book.entries <= b.book.entries
    && forall i :: 0 <= i < |a.sales| ==> b.sales[i] == a.sales[i].(status := b.sales[i].status)
  }

  /** No keyed row is added. */
  predicate AddsNoKey(a: State, b: State) {
    && Extends(a, b) && |a.sales| == |b.sales|
    && forall e :: |a.book.entries| <= e < |b.book.entries| ==> b.book.entries[e].key.None?
  }

  ghost predicate UniqueKeys(st: State) {
    ShopInvariant.SaleKeysUnique(st.sales) && Credit.KeysUnique(st.book.entries)
  }

  lemma InvUniqueKeys(st: State)
    requires ShopInvariant.Inv(st)
    ensures UniqueKeys(st)
  {
  }

  // --- keys -----------------------------------------------------------------------------------------

  /** A key once found is found at the same row for ever. */
  lemma LookupStable(a: State, b: State, req: Request)
    requires Extends(a, b) && UniqueKeys(b) && Lookup(a, req).Some?
    ensures Lookup(b, req) == Lookup(a, req)
    ensures DigestAt(b, req, Lookup(a, req).value) == DigestAt(a, req, Lookup(a, req).value)
  {
    var i := Lookup(a, req).value;
    assert InTable(b, req, i) && KeyAt(b, req, i) == KeyOf(req);
  }

  /** A key not found stays so while no row with it is added. */
  lemma LookupAbsent(a: State, b: State, req: Request)
    requires Extends(a, b) && Lookup(a, req).None?
    requires forall i: nat :: InTable(b, req, i) && !InTable(a, req, i) ==>
      KeyAt(b, req, i).None? || KeyAt(b, req, i) != KeyOf(req)
    ensures Lookup(b, req).None?
  {
    assert forall i: nat :: InTable(a, req, i) ==> KeyAt(a, req, i) == KeyAt(b, req, i);
  }

  // --- drafts ---------------------------------------------------------------------------------------

  lemma LockedRows(req: SaleRequest, i: nat)
    requires i < |req.lines|
    ensures ProductRow(req.lines[i].product) in Locks(SaleOf(req))
  {
    var ids := SoldProducts(req);
    assert req.lines[i].product in ids;
    var k :| 0 <= k < |InOrder(ids)| && InOrder(ids)[k] == req.lines[i].product;
    assert Locks(SaleOf(req))[k] == ProductRow(req.lines[i].product);
  }

  lemma LockedCustomer(req: SaleRequest)
    requires req.customer.Some?
    ensures CustomerRow(req.customer.value) in Locks(SaleOf(req))
  {
    var n := |ProductRows(InOrder(SoldProducts(req)))|;
    assert Locks(SaleOf(req))[n] == CustomerRow(req.customer.value);
  }

  lemma OnlySoldAreLocked(req: SaleRequest, n: nat)
    requires n < |Locks(SaleOf(req))|
    ensures Locks(SaleOf(req))[n].ProductRow? ==> Locks(SaleOf(req))[n].id in SoldProducts(req)
    ensures Locks(SaleOf(req))[n].CustomerRow? ==> req.customer == Some(Locks(SaleOf(req))[n].id)
    ensures Locks(SaleOf(req))[n].ProductRow? || Locks(SaleOf(req))[n].CustomerRow?
  {
    var order := InOrder(SoldProducts(req));
    if n < |order| { assert Locks(SaleOf(req))[n] == ProductRow(order[n]) && order[n] in order; }
  }

  lemma LinesFrame(p: map<Id, Inventory.Product>, q: map<Id, Inventory.Product>, lines: seq<Line>)
    requires forall i :: 0 <= i < |lines| ==> (lines[i].product in p <==> lines[i].product in q)
    requires forall i :: 0 <= i < |lines| && lines[i].product in p ==> p[lines[i].product] == q[lines[i].product]
    ensures ProductsExist(p, lines) <==> ProductsExist(q, lines)
    ensures ProductsExist(p, lines) ==>
      && (ProductsActive(p, lines) <==> ProductsActive(q, lines)) && LineTotals(p, lines) == LineTotals(q, lines)
      && forall d: seq<nat> :: |d| == |lines| ==> Items(p, lines, d) == Items(q, lines, d)
  {
    if ProductsExist(p, lines) {
      assert LineTotals(p, lines) == LineTotals(q, lines);
      forall d: seq<nat> | |d| == |lines| ensures Items(p, lines, d) == Items(q, lines, d) {}
    }
  }

  lemma PriceCongruent(a: State, b: State, req: SaleRequest)
    requires SchemaOk(req)
    requires forall i :: 0 <= i < |req.lines| ==> SameRow(a, b, ProductRow(req.lines[i].product))
    requires req.customer.Some? ==> SameRow(a, b, CustomerRow(req.customer.value))
    ensures PriceSale(a, req) == PriceSale(b, req)
  {
    hide Charged, Money.Allocation, ProductsExist, ProductsActive, LineTotals, Items, Payments, ResolveSoldAt;
    LinesFrame(a.stock.products, b.stock.products, req.lines);
  }

  /** The price of a sale depends on nothing but the rows it locks. */
  lemma PriceFrame(a: State, b: State, req: SaleRequest)
    requires SchemaOk(req) && forall row :: row in Locks(SaleOf(req)) ==> SameRow(a, b, row)
    ensures PriceSale(a, req) == PriceSale(b, req)
  {
    hide Locks, PriceSale, SameRow;
    forall i | 0 <= i < |req.lines| ensures SameRow(a, b, ProductRow(req.lines[i].product)) { LockedRows(req, i); }
    if req.customer.Some? { LockedCustomer(req); }
    PriceCongruent(a, b, req);
  }

  lemma PricedParts(st: State, req: SaleRequest)
    requires SchemaOk(req) && PriceSale(st, req).Ok?
    ensures
      var sale := PriceSale(st, req).value;
      && sale.key == req.key && sale.digest == req.digest && sale.customer == req.customer
      && (forall i :: 0 <= i < |sale.items| ==> sale.items[i].product in SoldProducts(req))
  {
    hide Charged, Money.Allocation, LineTotals;
  }

  // --- commits --------------------------------------------------------------------------------------

  /** A sale changes no product it does not sell and no customer but its own. */
  lemma SaleFrame(st: State, sale: Sale, row: Resource)
    requires ItemsExist(st.stock, sale.items) && (sale.customer.Some? ==> sale.customer.value in st.book.customers)
    requires RecordSale(st, sale).Ok?
    requires row.ProductRow? ==> forall i :: 0 <= i < |sale.items| ==> sale.items[i].product != row.id
    requires row.CustomerRow? ==> sale.customer != Some(row.id)
    ensures SameRow(st, RecordSale(st, sale).value, row)
  {
    hide SellItems, MpesaLinks.LinkTenders, Charged;
    match row
    case ProductRow(p) =>
      if p in st.stock.products {
        ShopInvariant.SellItemsTakesOut(st.stock, sale.items, |sale.items|, |st.sales|, p);
        SumZero(sale.items[..|sale.items|], ShopInvariant.QuantityOf(p));
      }
    case _ =>
  }

  lemma SaleExtends(st: State, sale: Sale)
    requires ItemsExist(st.stock, sale.items) && (sale.customer.Some? ==> sale.customer.value in st.book.customers)
    requires RecordSale(st, sale).Ok?
    ensures
      var st' := RecordSale(st, sale).value;
      && st'.sales == st.sales + [sale] && st.book.entries <= st'.book.entries
      && forall e :: |st.book.entries| <= e < |st'.book.entries| ==> st'.book.entries[e].key.None?
  {
    hide SellItems, MpesaLinks.LinkTenders, Charged;
  }

  /** The draft of a request, and that it still is what the request would draft now. */
  ghost predicate DraftHolds(st: State, req: Request, draft: Draft) {
    if req.SaleOf? then SchemaOk(req.sale) && draft.SaleDraft? && PriceSale(st, req.sale) == Ok(draft.sale)
    else
      && draft.EntryDraft? && Debtor(req) in st.book.customers
        && st.book.customers[Debtor(req)].balance == draft.balance
      && DraftEntry(req).amount != 0 && (MayGoNegative(req) || draft.balance + DraftEntry(req).amount >= 0)
  }

  lemma DraftMade(st: State, req: Request)
    requires MakeDraft(st, req).Ok?
    ensures DraftHolds(st, req, MakeDraft(st, req).value)
  {
    hide PriceSale;
  }

  lemma DraftFrame(a: State, b: State, req: Request, draft: Draft)
    requires DraftHolds(a, req, draft) && forall row :: row in Locks(req) ==> SameRow(a, b, row)
    ensures DraftHolds(b, req, draft)
  {
    hide PriceSale;
    if req.SaleOf? {
      PriceFrame(a, b, req.sale);
    } else {
      assert Locks(req)[0] == CustomerRow(Debtor(req));
      assert SameRow(a, b, CustomerRow(Debtor(req)));
    }
  }

  lemma CommitFrame(st: State, req: Request, draft: Draft, row: Resource)
    requires DraftHolds(st, req, draft) && Commit(st, req, draft).Ok? && row !in Locks(req)
    ensures SameRow(st, Commit(st, req, draft).value, row)
  {
    hide RecordSale, PriceSale, MpesaLinks.LinkReference, InOrder;
    if req.SaleOf? {
      PricedParts(st, req.sale);
      if row.ProductRow? && row.id in SoldProducts(req.sale) {
        var i :| 0 <= i < |req.sale.lines| && req.sale.lines[i].product == row.id;
        LockedRows(req.sale, i);
      }
      if req.sale.customer.Some? { LockedCustomer(req.sale); }
      SaleFrame(st, draft.sale, row);
    } else {
      assert Locks(req)[0] == CustomerRow(Debtor(req));
    }
  }

  /** A commit adds one row with the request's key and digest to its table, and no other key. */
  lemma CommitExtends(st: State, req: Request, draft: Draft)
    requires DraftHolds(st, req, draft) && Commit(st, req, draft).Ok?
    ensures
      var st' := Commit(st, req, draft).value;
      var n := TableSize(st, req);
      && Extends(st, st') && TableSize(st', req) == n + 1
      && KeyAt(st', req, n) == KeyOf(req) && DigestAt(st', req, n) == DigestOf(req)
      && (req.SaleOf? ==> forall e :: |st.book.entries| <= e < |st'.book.entries| ==> st'.book.entries[e].key.None?)
      && (!req.SaleOf? ==> st'.sales == st.sales)
  {
    hide RecordSale, PriceSale, MpesaLinks.LinkReference;
    if req.SaleOf? {
      PricedParts(st, req.sale);
      SaleExtends(st, draft.sale);
    }
  }

  /** The commit does what the whole operation, run now at one stroke, would do. */
  lemma CommitIsOperation(st: State, req: Request, draft: Draft)
    requires DraftHolds(st, req, draft) && Lookup(st, req).None?
    ensures Commit(st, req, draft) == Attempt(st, OpOf(req))
  {
    hide RecordSale, PriceSale, MpesaLinks.LinkReference;
    if req.SaleOf? {
      PricedParts(st, req.sale);
    } else {
      EntryIsOperation(st, req, draft.balance);
    }
  }

  lemma EntryIsOperation(st: State, req: Request, balance: int)
    requires !req.SaleOf? && DraftHolds(st, req, EntryDraft(balance)) && Lookup(st, req).None?
    ensures Ok(CommitEntry(st, req, balance)) == Attempt(st, OpOf(req))
  {
    hide MpesaLinks.LinkReference;
    var entry := DraftEntry(req);
    assert entry.key == KeyOf(req) && entry.customer == Debtor(req) && entry.digest == DigestOf(req);
  }

  lemma RefusedDraftIsOperation(st: State, req: Request)
    requires Lookup(st, req).None? && MakeDraft(st, req).Err?
    ensures Attempt(st, OpOf(req)) == Err(MakeDraft(st, req).error)
  {
    hide PriceSale, RecordSale, MpesaLinks.LinkReference;
  }

  /** A taken key makes the operation change nothing. */
  lemma TakenKeyChangesNothing(st: State, req: Request)
    requires Lookup(st, req).Some?
    ensures Shop.Step(st, OpOf(req)) == st
  {
    hide PriceSale, RecordSale, MpesaLinks.LinkReference;
  }

  // --- other operations -----------------------------------------------------------------------------

  lemma {:induction false} ReverseFrame(st: Inventory.Stock, ms: seq<Inventory.Movement>, n: nat, id: nat, p: Id)
    requires n <= |ms| && MovedExist(st, ms) && ReverseMovements(st, ms, n, id).Ok? && p in st.products
    requires forall i :: 0 <= i < |ms| ==> ms[i].product != p
    ensures ReverseMovements(st, ms, n, id).value.products[p] == st.products[p]
  {
    if n > 0 { ReverseFrame(st, ms, n - 1, id, p); }
  }

  lemma VoidFrame(st: State, id: nat, row: Resource)
    requires row !in Touches(st, Void(id)) && Shop.VoidSale(st, id).Ok?
    ensures SameRow(st, Shop.VoidSale(st, id).value, row)
    ensures AddsNoKey(st, Shop.VoidSale(st, id).value)
  {
    hide ReverseMovements, MovementsOf, MpesaLinks.UnlinkTenders, Charged;
    var ms := MovementsOf(st.stock.movements, id);
    if row.ProductRow? && row.id in st.stock.products {
      forall i | 0 <= i < |ms| ensures ms[i].product != row.id { assert ms[i] in ms; }
      ReverseFrame(st.stock, ms, |ms|, id, row.id);
    }
  }

  lemma OtherFrame(st: State, op: Op, row: Resource)
    requires Unkeyed(op) && row !in Touches(st, op)
    ensures SameRow(st, Shop.Step(st, op), row) && AddsNoKey(st, Shop.Step(st, op))
  {
    hide Shop.VoidSale, MpesaLinks.Paste, MpesaLinks.Match, MpesaLinks.Ignore, Inventory.Ledger, Credit.Owed;
    if op.Void? {
      if Shop.VoidSale(st, op.id).Ok? { VoidFrame(st, op.id, row); }
    } else if Attempt(st, op).Ok? {
      match op case _ => {}
    }
  }
}
