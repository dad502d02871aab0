/** Exactly when a new sale is accepted, and what its record is made of. */
module SaleConditions {
  import opened Prelude
  import opened SaleRecords
  import opened Shop
  import opened ShopInvariant
  import opened ShopRuns
  import Money
  import Inventory
  import Credit
  import Text
  import ShopTheorems
  import MpesaLinks

  function LineQuantity(p: Id): Line -> int { (l: Line) => if l.product == p then l.quantity else 0 }

  /** The stock on hand covers what all lines together ask of each tracked product. */
  ghost predicate EnoughStock(st: Inventory.Stock, lines: seq<Line>) {
    forall p :: p in st.products && st.products[p].tracked ==> Sum(lines, LineQuantity(p)) <= st.products[p].quantity
  }

  ghost predicate Covers(st: Inventory.Stock, items: seq<Item>, n: nat)
    requires n <= |items|
  {
    forall p :: p in st.products && st.products[p].tracked ==> Sum(items[..n], QuantityOf(p)) <= st.products[p].quantity
  }

  lemma CoversLess(st: Inventory.Stock, items: seq<Item>, n: nat)
    requires 0 < n <= |items| && Covers(st, items, n)
    ensures Covers(st, items, n - 1)
  {
    forall p | p in st.products && st.products[p].tracked
      ensures Sum(items[..n - 1], QuantityOf(p)) <= st.products[p].quantity
    {
      assert items[..n] == items[..n - 1] + [items[n - 1]];
      SumAppend(items[..n - 1], items[n - 1], QuantityOf(p));
    }
  }

  /** Enough for all items together is enough for each in turn. */
  lemma {:induction false} CoveredSells(st: Inventory.Stock, items: seq<Item>, n: nat, id: nat)
    requires n <= |items| && ItemsExist(st, items) && Covers(st, items, n)
    ensures SellItems(st, items, n, id).Ok?
  {
    if n > 0 {
      CoversLess(st, items, n);
      CoveredSells(st, items, n - 1, id);
      var p := items[n - 1].product;
      SellItemsTakesOut(st, items, n - 1, id, p);
      assert items[..n] == items[..n - 1] + [items[n - 1]];
      SumAppend(items[..n - 1], items[n - 1], QuantityOf(p));
    }
  }

  /** Item by item, stock runs out exactly when the items together ask for more than there is. */
  lemma SellsIffCovered(st: Inventory.Stock, items: seq<Item>, id: nat)
    requires ItemsExist(st, items) && Inventory.StockInv(st)
    ensures SellItems(st, items, |items|, id).Ok? <==> Covers(st, items, |items|)
  {
    hide SellItems, Inventory.StockInv;
    if Covers(st, items, |items|) {
      CoveredSells(st, items, |items|, id);
    } else if SellItems(st, items, |items|, id).Ok? {
      var r := SellItems(st, items, |items|, id).value;
      SellItemsSound(st, items, |items|, id);
      forall p | p in st.products && st.products[p].tracked
        ensures Sum(items[..|items|], QuantityOf(p)) <= st.products[p].quantity
      {
        SellItemsTakesOut(st, items, |items|, id, p);
        Inventory.NeverNegative(r, p);
      }
    }
  }

  // --- the request's own figures ------------------------------------------------------------------

  function Tendered(): TenderLine -> int { (t: TenderLine) => t.amount }

  /** What the request puts on the customer's account. */
  function OnAccount(): TenderLine -> int { (t: TenderLine) => if t.tender == OnCredit then t.amount else 0 }

  /** Quantity times price, half-up: the price of the request, or else of the product. */
  function LineAmount(products: map<Id, Inventory.Product>): Line -> int {
    (l: Line) =>
      if l.unitPrice.Some? then RoundHalfUp(l.quantity * l.unitPrice.value)
      else if l.product in products then RoundHalfUp(l.quantity * products[l.product].price)
      else 0
  }

  /** What the request must satisfy, besides the stock; dates are in seconds. */
  ghost predicate Acceptable(st: State, req: SaleRequest) {
    var products := st.stock.products;
    var subtotal, charge := Sum(req.lines, LineAmount(products)), Sum(req.payments, OnAccount());
    && (req.soldAt.Some? ==>
          req.role == Credit.Owner
            && req.now - 86400 * req.backdateDays <= req.soldAt.value <= req.now + 300)
    && (forall i :: 0 <= i < |req.lines| ==> req.lines[i].product in products && products[req.lines[i].product].active)
    && (req.customer.Some? ==> req.customer.value in st.book.customers && st.book.customers[req.customer.value].active)
    && Sum(req.payments, Tendered()) == subtotal - req.discount >= 0
    && (charge > 0 && req.customer.Some? ==>
          var customer := st.book.customers[req.customer.value];
          && customer.balance + charge >= 0
          && (customer.limit.Some? && !(req.role == Credit.Owner && req.limitOverride) ==>
                customer.balance + charge <= customer.limit.value))
  }

  lemma TendersAsSent(payments: seq<TenderLine>)
    ensures TenderTotal(Payments(payments)) == Sum(payments, Tendered())
    ensures Charged(Payments(payments)) == Sum(payments, OnAccount())
  {
    SumMatched(Payments(payments), payments, TenderAmount(), Tendered());
    SumMatched(Payments(payments), payments, CreditAmount(), OnAccount());
  }

  lemma LinesAsSent(products: map<Id, Inventory.Product>, lines: seq<Line>)
    requires ProductsExist(products, lines)
    ensures Money.Total(LineTotals(products, lines)) == Sum(lines, LineAmount(products))
  {
    SumMatched(LineTotals(products, lines), lines, Money.Cents(), LineAmount(products));
  }

  lemma PricedIff(st: State, req: SaleRequest)
    requires SchemaOk(req)
    ensures Acceptable(st, req) ==> PriceSale(st, req).Ok?
    ensures PriceSale(st, req).Ok? ==>
      var sale := PriceSale(st, req).value;
      ChargeSale(st.book, sale, |st.sales|).Ok? <==> Acceptable(st, req)
  {
    hide Items, LineTotals, Payments, Charged, Money.Allocation, Sum, TenderTotal;
    TendersAsSent(req.payments);
    if ProductsExist(st.stock.products, req.lines) { LinesAsSent(st.stock.products, req.lines); }
  }

  lemma ItemsAskWhatLinesAsk(st: State, req: SaleRequest, p: Id)
    requires SchemaOk(req) && PriceSale(st, req).Ok?
    ensures Sum(PriceSale(st, req).value.items, QuantityOf(p)) == Sum(req.lines, LineQuantity(p))
  {
    hide Payments, Charged, Money.Allocation, LineTotals;
    SumMatched(PriceSale(st, req).value.items, req.lines, QuantityOf(p), LineQuantity(p));
  }

  lemma CoversIffEnough(st: State, req: SaleRequest)
    requires SchemaOk(req) && PriceSale(st, req).Ok?
    ensures
      var items := PriceSale(st, req).value.items;
      Covers(st.stock, items, |items|) <==> EnoughStock(st.stock, req.lines)
  {
    hide PriceSale;
    var items := PriceSale(st, req).value.items;
    assert items[..|items|] == items;
    forall p ensures Sum(items, QuantityOf(p)) == Sum(req.lines, LineQuantity(p)) { ItemsAskWhatLinesAsk(st, req, p); }
  }

  lemma RecordedIff(st: State, sale: Sale)
    requires ItemsExist(st.stock, sale.items) && (sale.customer.Some? ==> sale.customer.value in st.book.customers)
    ensures RecordSale(st, sale).Ok? <==>
      SellItems(st.stock, sale.items, |sale.items|, |st.sales|).Ok? && ChargeSale(st.book, sale, |st.sales|).Ok?
  {
    hide SellItems, ChargeSale, MpesaLinks.LinkTenders;
  }

  /**
   * A new sale is accepted exactly when it has lines and tenders and names a customer for CREDIT, its date is allowed,
   * its rows exist and are active, its tenders balance, its credit is allowed, and the stock covers what all its
   * lines together ask of each product.
   */
  lemma SaleAcceptedIff(st: State, req: SaleRequest)
    requires Inv(st) && forall i :: 0 <= i < |st.sales| ==> st.sales[i].key != req.key
    ensures CreateSale(st, req).Ok? <==>
      && req.lines != [] && req.payments != []
      && (forall i :: 0 <= i < |req.payments| && req.payments[i].tender == OnCredit ==> req.customer.Some?)
      && Acceptable(st, req) && EnoughStock(st.stock, req.lines)
  {
    hide PriceSale, RecordSale, ChargeSale, Acceptable, EnoughStock, Covers, SellItems;
    if SchemaOk(req) {
      PricedIff(st, req);
      if PriceSale(st, req).Ok? {
        var sale := PriceSale(st, req).value;
        RecordedIff(st, sale);
        SellsIffCovered(st.stock, sale.items, |st.sales|);
        CoversIffEnough(st, req);
      }
    }
  }

  // --- the record ------------------------------------------------------------------------------------

  /** Prices, costs and quantities are those of the locked rows and the request, line by line. */
  lemma PricedFromRows(st: State, req: SaleRequest, i: nat)
    requires SchemaOk(req) && PriceSale(st, req).Ok? && i < |req.lines|
    ensures
      var sale := PriceSale(st, req).value;
      && |sale.items| == |req.lines| && req.lines[i].product in st.stock.products
      && var item, line, product := sale.items[i], req.lines[i], st.stock.products[req.lines[i].product];
         && item.product == line.product && item.quantity == line.quantity && item.unitCost == product.cost
         && item.unitPrice == (if line.unitPrice.Some? then line.unitPrice.value else product.price)
         && item.lineTotal == RoundHalfUp(item.quantity * item.unitPrice)
  {
    hide Payments, Charged, Money.Allocation;
    assert req.lines[i].product in st.stock.products;
  }

  /** Each line bears its own share of the discount, to the cent. */
  lemma SharesOwnDiscount(st: State, req: SaleRequest, i: nat)
    requires SchemaOk(req) && PriceSale(st, req).Ok? && i < |req.lines|
    ensures
      var sale := PriceSale(st, req).value;
      && |sale.items| == |req.lines| && sale.discount == req.discount
      && sale.subtotal == Sum(req.lines, LineAmount(st.stock.products)) && sale.total == sale.subtotal - req.discount
      && (sale.subtotal > 0 ==>
            Money.WithinACent(sale.items[i].discount, req.discount, sale.subtotal, sale.items[i].lineTotal))
  {
    hide Payments, Charged, Money.Allocation, Sum;
    LinesAsSent(st.stock.products, req.lines);
    Money.AllocationShare(req.discount, LineTotals(st.stock.products, req.lines), i);
  }

  /** The tenders are those of the request, one by one; customer, key, digest and date are the request's too. */
  lemma TendersAreTheRequests(st: State, req: SaleRequest)
    requires SchemaOk(req) && PriceSale(st, req).Ok?
    ensures
      var sale := PriceSale(st, req).value;
      && sale.customer == req.customer && sale.key == req.key && sale.digest == req.digest && sale.status == Completed
      && sale.soldAt == (if req.soldAt.Some? && req.soldAt.value < req.now then req.soldAt.value else req.now)
      && |sale.payments| == |req.payments|
      && forall i :: 0 <= i < |req.payments| ==>
           && sale.payments[i].tender == req.payments[i].tender && sale.payments[i].amount == req.payments[i].amount
           && sale.payments[i].reference == Text.Trim(req.payments[i].reference)
  {
    hide Charged, Money.Allocation, Items, LineTotals, Text.Trim;
  }

  lemma SaleRowAdded(st: State, req: SaleRequest)
    requires CreateSale(st, req).Ok? && CreateSale(st, req).value.created
    ensures SchemaOk(req) && PriceSale(st, req).Ok?
    ensures CreateSale(st, req).value.state.sales == st.sales + [PriceSale(st, req).value]
    ensures CreateSale(st, req).value.sale == |st.sales|
  {
    hide PriceSale, RecordSale;
    ShopTheorems.RecordedRow(st, PriceSale(st, req).value);
  }

  /** What a newly created sale must look like next to the request that made it. */
  predicate RecordsRequest(sale: Sale, req: SaleRequest, products: map<Id, Inventory.Product>) {
    && sale.customer == req.customer && sale.key == req.key && sale.digest == req.digest && sale.status == Completed
    && sale.soldAt == (if req.soldAt.Some? && req.soldAt.value < req.now then req.soldAt.value else req.now)
    && sale.discount == req.discount && sale.total == sale.subtotal - req.discount
    && sale.subtotal == Sum(req.lines, LineAmount(products))
    && |sale.payments| == |req.payments| && |sale.items| == |req.lines|
    && (forall i :: 0 <= i < |req.payments| ==>
          && sale.payments[i].tender == req.payments[i].tender && sale.payments[i].amount == req.payments[i].amount
          && sale.payments[i].reference == Text.Trim(req.payments[i].reference))
    && (forall i :: 0 <= i < |req.lines| ==> ItemRecordsLine(sale, i, req.lines[i], products))
  }

  predicate ItemRecordsLine(sale: Sale, i: nat, line: Line, products: map<Id, Inventory.Product>)
    requires i < |sale.items|
  {
    var item := sale.items[i];
    && item.product == line.product && item.quantity == line.quantity && line.product in products
    && item.unitCost == products[line.product].cost
    && item.unitPrice == (if line.unitPrice.Some? then line.unitPrice.value else products[line.product].price)
    && item.lineTotal == RoundHalfUp(item.quantity * item.unitPrice)
    && (sale.subtotal > 0 ==> Money.WithinACent(item.discount, sale.discount, sale.subtotal, item.lineTotal))
  }

  /** Every newly created sale records its request: tenders, lines, prices, shares of the discount, and date. */
  lemma NewSaleRecordsRequest(st: State, req: SaleRequest)
    requires CreateSale(st, req).Ok? && CreateSale(st, req).value.created
    ensures
      var sales := CreateSale(st, req).value.state.sales;
      && |sales| == |st.sales| + 1 && st.sales <= sales && CreateSale(st, req).value.sale == |st.sales|
      && RecordsRequest(sales[|st.sales|], req, st.stock.products)
  {
    hide PriceSale, CreateSale, Sum, Text.Trim;
    SaleRowAdded(st, req);
    TendersAreTheRequests(st, req);
    SharesOwnDiscount(st, req, 0);
    forall i | 0 <= i < |req.lines|
      ensures ItemRecordsLine(PriceSale(st, req).value, i, req.lines[i], st.stock.products)
    {
      PricedFromRows(st, req, i);
      SharesOwnDiscount(st, req, i);
    }
  }

  /**
   * A newly created sale takes what its lines ask out of each tracked product, puts its own CREDIT
   * tenders on the customer's balance, and changes no other quantity or balance.
   */
  lemma NewSaleMovesRequest(st: State, req: SaleRequest, p: Id, c: Id)
    requires CreateSale(st, req).Ok? && CreateSale(st, req).value.created
    ensures
      var st' := CreateSale(st, req).value.state;
      && (p in st.stock.products ==>
            && p in st'.stock.products
            && st'.stock.products[p].quantity
               == st.stock.products[p].quantity
                  - (if st.stock.products[p].tracked then Sum(req.lines, LineQuantity(p)) else 0))
      && (c in st.book.customers ==>
            && c in st'.book.customers
            && st'.book.customers[c].balance
               == st.book.customers[c].balance
                  + (if req.customer == Some(c) then Sum(req.payments, OnAccount()) else 0))
  {
    hide PriceSale, RecordSale, Sum, Charged;
    SaleRowAdded(st, req);
    var sale := PriceSale(st, req).value;
    TendersAreTheRequests(st, req);
    PricedSaleReconciles(st, req);
    ChargedAsSent(st, req);
    if p in st.stock.products {
      ShopTheorems.SaleTakesOut(st, sale, p);
      ItemsAskWhatLinesAsk(st, req, p);
    }
    if c in st.book.customers { ShopTheorems.RecordedBalance(st, sale, c); }
  }

  lemma ChargedAsSent(st: State, req: SaleRequest)
    requires SchemaOk(req) && PriceSale(st, req).Ok?
    ensures Charged(PriceSale(st, req).value.payments) == Sum(req.payments, OnAccount())
  {
    hide Items, LineTotals, Money.Allocation, Charged;
    TendersAsSent(req.payments);
  }

  // --- the movements -----------------------------------------------------------------------------------

  /** The items that take part in stock keeping, in order. */
  function TrackedItems(st: Inventory.Stock, items: seq<Item>): seq<Item> {
    if items == [] then []
    else
      var last := items[|items| - 1];
      TrackedItems(st, items[..|items| - 1])
      + (if last.product in st.products && st.products[last.product].tracked then [last] else [])
  }

  /** The SALE movement of an item, naming the sale. */
  predicate TakesOut(m: Inventory.Movement, item: Item, id: nat) {
    && m.product == item.product && m.kind == Inventory.Sold && m.delta == -(item.quantity as int)
    && m.unitCost == item.unitCost && m.sale == Some(id)
  }

  lemma TrackedItemsNext(st: Inventory.Stock, items: seq<Item>, n: nat)
    requires 0 < n <= |items| && items[n - 1].product in st.products
    ensures
      TrackedItems(st, items[..n])
      == TrackedItems(st, items[..n - 1])
         + (if st.products[items[n - 1].product].tracked then [items[n - 1]] else [])
  {
    assert items[..n][..n - 1] == items[..n - 1] && items[..n][n - 1] == items[n - 1];
  }

  lemma SellsNext(st: Inventory.Stock, items: seq<Item>, n: nat, id: nat)
    requires 0 < n <= |items| && ItemsExist(st, items) && SellItems(st, items, n, id).Ok?
    ensures
      var before, after := SellItems(st, items, n - 1, id), SellItems(st, items, n, id).value;
      && before.Ok?
      && if st.products[items[n - 1].product].tracked
         then |after.movements| == |before.value.movements| + 1 && before.value.movements <= after.movements
              && TakesOut(after.movements[|before.value.movements|], items[n - 1], id)
         else after.movements == before.value.movements
  {
    SellItemsTakesOut(st, items, n - 1, id, items[n - 1].product);
  }

  /** One SALE movement per tracked item, in order, with its product, quantity and cost, naming the sale. */
  lemma {:induction false} SaleMovementsExact(st: Inventory.Stock, items: seq<Item>, n: nat, id: nat)
    requires n <= |items| && ItemsExist(st, items) && SellItems(st, items, n, id).Ok?
    ensures
      var r := SellItems(st, items, n, id).value;
      var tracked := TrackedItems(st, items[..n]);
      && |r.movements| == |st.movements| + |tracked| && st.movements <= r.movements
      && forall k :: 0 <= k < |tracked| ==> TakesOut(r.movements[|st.movements| + k], tracked[k], id)
  {
    hide TakesOut;
    if n > 0 {
      SellsNext(st, items, n, id);
      TrackedItemsNext(st, items, n);
      hide SellItems, TrackedItems;
      SaleMovementsExact(st, items, n - 1, id);
    }
  }

  /** A void writes one SALE_REVERSAL per SALE movement of the sale, in order, opposite in sign and at the same cost. */
  lemma {:induction false} ReversalsMirror(st: Inventory.Stock, ms: seq<Inventory.Movement>, n: nat, id: nat)
    requires n <= |ms| && MovedExist(st, ms) && ReverseMovements(st, ms, n, id).Ok?
    requires forall k :: 0 <= k < |ms| ==> ms[k].kind == Inventory.Sold
    ensures
      var r := ReverseMovements(st, ms, n, id).value;
      && |r.movements| == |st.movements| + n && st.movements <= r.movements
      && forall k :: 0 <= k < n ==>
           var m := r.movements[|st.movements| + k];
           && m.product == ms[k].product && m.kind == Inventory.SaleReversed && m.delta == -ms[k].delta
           && m.unitCost == ms[k].unitCost && m.sale == Some(id)
  {
    if n > 0 { ReversalsMirror(st, ms, n - 1, id); }
  }
}
