/**
 * The services as they run: tables updated row by row inside a transaction, which a fault rolls
 * back. Every method is proved to do to the tables exactly what `Shop` says of the state, so what
 * is proved of runs of the shop holds of runs of these methods.
 */
module ShopService {
  import opened Prelude
  import opened SaleRecords
  import opened Shop
  import Text
  import Money
  import Inventory
  import Credit
  import MpesaLinks
  import ShopInvariant
  import ShopRuns

  // --- a fault stops a loop -------------------------------------------------------------------------

  lemma {:induction false} SellFaultSticks(st: Inventory.Stock, items: seq<Item>, i: nat, n: nat, id: nat)
    requires i <= n <= |items| && ItemsExist(st, items) && SellItems(st, items, i, id).Err?
    ensures SellItems(st, items, n, id) == SellItems(st, items, i, id)
  {
    if i < n { SellFaultSticks(st, items, i, n - 1, id); }
  }

  lemma {:induction false} ReverseFaultSticks(st: Inventory.Stock, ms: seq<Inventory.Movement>, i: nat, n: nat, id: nat)
    requires i <= n <= |ms| && MovedExist(st, ms) && ReverseMovements(st, ms, i, id).Err?
    ensures ReverseMovements(st, ms, n, id) == ReverseMovements(st, ms, i, id)
  {
    if i < n { ReverseFaultSticks(st, ms, i, n - 1, id); }
  }

  /** A method did what the operation says, or reported its fault and left the tables alone. */
  ghost predicate Outcome(before: State, op: Op, fault: Option<Fault>, after: State) {
    match Attempt(before, op)
    case Ok(st) => fault == None && after == st
    case Err(e) => fault == Some(e) && after == before
  }

  class Database {
    var products: map<Id, Inventory.Product>
    var movements: seq<Inventory.Movement>
    var customers: map<Id, Credit.Customer>
    var entries: seq<Credit.Entry>
    var sales: seq<Sale>
    var messages: seq<MpesaLinks.Message>

    function Stock(): Inventory.Stock
      reads this
    {
      Inventory.Stock(products, movements)
    }

    function Book(): Credit.Book
      reads this
    {
      Credit.Book(customers, entries)
    }

    function Tables(): State
      reads this
    {
      State(Stock(), Book(), sales, messages)
    }

    constructor ()
      ensures Tables() == EMPTY && ShopInvariant.Inv(Tables())
    {
      products, movements, customers, entries, sales, messages := map[], [], map[], [], [], [];
      new;
      ShopRuns.EmptyInv();
    }

    method Rollback(saved: State)
      modifies this
      ensures Tables() == saved
    {
      products, movements := saved.stock.products, saved.stock.movements;
      customers, entries := saved.book.customers, saved.book.entries;
      sales, messages := saved.sales, saved.messages;
    }

    // --- the two ledgers ------------------------------------------------------------------------------

    method ApplyMovement(
      p: Id, kind: Inventory.MovementKind, delta: int, cost: Option<nat>, sale: Option<nat>)
      returns (fault: Option<Fault>)
      requires p in products
      modifies this`products, this`movements
      ensures
        match Inventory.ApplyMovement(old(Stock()), p, kind, delta, cost, sale)
        case Ok(stock) => fault == None && Stock() == stock
        case Err(e) => fault == Some(e) && Stock() == old(Stock())
    {
      var product := products[p];
      if !product.tracked { return Some(Untracked); }
      var after := product.quantity + delta;
      if after < 0 { return Some(InsufficientStock); }
      products := products[p := product.(quantity := after)];
      movements := movements + [Inventory.Movement(p, kind, delta, after, cost, sale)];
      return None;
    }

    method PostEntry(entry: Credit.Entry, allowNegative: bool) returns (fault: Option<Fault>)
      requires entry.customer in customers
      modifies this`customers, this`entries
      ensures
        match Credit.PostEntry(old(Book()), entry, allowNegative)
        case Ok(book) => fault == None && Book() == book
        case Err(e) => fault == Some(e) && Book() == old(Book())
    {
      if entry.amount == 0 { return Some(ZeroAmount); }
      var customer := customers[entry.customer];
      var after := customer.balance + entry.amount;
      if after < 0 && !allowNegative { return Some(NegativeBalance); }
      customers := customers[entry.customer := customer.(balance := after)];
      entries := entries + [entry.(after := after)];
      return None;
    }

    // --- selling --------------------------------------------------------------------------------------

    /** Locks every product of the request in id order. */
    method LockProducts(lines: seq<Line>) returns (found: bool)
      ensures found == ProductsExist(products, lines)
    {
      var ids := set i | 0 <= i < |lines| :: lines[i].product;
      var order := InOrder(ids);
      for k := 0 to |order|
        invariant forall j :: 0 <= j < k ==> order[j] in products
      {
        if order[k] !in products {
          assert order[k] in ids;
          return false;
        }
      }
      forall i | 0 <= i < |lines| ensures lines[i].product in products {
        assert lines[i].product in ids && lines[i].product in order;
      }
      return true;
    }

    /** Prices and totals from the locked rows. */
    method PriceLines(lines: seq<Line>) returns (totals: Option<seq<nat>>)
      requires ProductsExist(products, lines)
      ensures totals.Some? == ProductsActive(products, lines)
      ensures totals.Some? ==> totals.value == LineTotals(products, lines)
    {
      var sofar: seq<nat> := [];
      for i := 0 to |lines|
        invariant |sofar| == i && forall j :: 0 <= j < i ==> products[lines[j].product].active
        invariant sofar == LineTotals(products, lines)[..i]
      {
        if !products[lines[i].product].active { return None; }
        sofar := sofar + [Money.LineTotal(lines[i].quantity, UnitPrice(products, lines[i]))];
      }
      return Some(sofar);
    }

    method PriceRequest(req: SaleRequest) returns (r: Result<Sale, Fault>)
      requires SchemaOk(req)
      ensures r == PriceSale(Tables(), req)
    {
      hide Money.Allocation, Money.LineTotal, ProductsExist, ProductsActive, LineTotals, Items, Payments, Charged;
      var soldAt := ResolveSoldAt(req);
      if soldAt.Err? { return Err(soldAt.error); }
      var found := LockProducts(req.lines);
      if !found { return Err(NotFound); }
      var locked := LockCustomer(Book(), req.customer);
      if locked.Err? { return Err(locked.error); }
      var priced := PriceLines(req.lines);
      if priced.None? { return Err(ProductArchived); }
      var totals := priced.value;
      var subtotal := Money.Total(totals);
      if req.discount > subtotal { return Err(DiscountExceedsSubtotal); }
      var payments := Payments(req.payments);
      if TenderTotal(payments) != subtotal - req.discount { return Err(PaymentsDoNotBalance); }
      var charge := Charged(payments);
      if charge > 0 && req.customer.Some?
        && !Credit.ChargeAllowed(customers[req.customer.value], charge, req.role, req.limitOverride) {
        return Err(CreditLimitExceeded);
      }
      var split := Money.AllocateDiscount(req.discount, totals);
      var items := Items(products, req.lines, split.value);
      return Ok(Sale(req.customer, req.key, req.digest, Completed, subtotal, req.discount, subtotal - req.discount,
        soldAt.value, items, payments));
    }

    /** Stock leaves through the ledger, item by item. */
    method SellAll(items: seq<Item>, id: nat) returns (fault: Option<Fault>)
      requires ItemsExist(Stock(), items)
      modifies this`products, this`movements
      ensures
        match SellItems(old(Stock()), items, |items|, id)
        case Ok(stock) => fault == None && Stock() == stock
        case Err(e) => fault == Some(e)
    {
      ghost var before := Stock();
      for i := 0 to |items|
        invariant ItemsExist(Stock(), items)
        invariant SellItems(before, items, i, id) == Ok(Stock())
      {
        var item := items[i];
        if products[item.product].tracked {
          fault := ApplyMovement(item.product, Inventory.Sold, -(item.quantity as int), item.unitCost, Some(id));
          if fault.Some? {
            SellFaultSticks(before, items, i + 1, |items|, id);
            return;
          }
        }
      }
      return None;
    }

    /** Each M-Pesa code typed on a tender links the message pasted earlier, if there is one. */
    method LinkAll(payments: seq<Payment>, id: nat)
      modifies this`messages
      ensures messages == MpesaLinks.LinkTenders(old(messages), id, payments, |payments|)
    {
      for i := 0 to |payments|
        invariant messages == MpesaLinks.LinkTenders(old(messages), id, payments, i)
      {
        if payments[i].tender == Mpesa && payments[i].reference != "" {
          messages := MpesaLinks.LinkReference(messages, payments[i].reference, Some(MpesaLinks.PaymentRef(id, i)),
            None);
        }
      }
    }

    /** The rows of a priced sale; on a fault the caller rolls back. */
    method InsertSale(sale: Sale) returns (fault: Option<Fault>)
      requires ItemsExist(Stock(), sale.items) && (sale.customer.Some? ==> sale.customer.value in customers)
      modifies this
      ensures
        match RecordSale(old(Tables()), sale)
        case Ok(st) => fault == None && Tables() == st
        case Err(e) => fault == Some(e)
    {
      hide SellItems, MpesaLinks.LinkTenders, Charged;
      var id := |sales|;
      sales := sales + [sale];
      LinkAll(sale.payments, id);
      fault := SellAll(sale.items, id);
      if fault.Some? { return; }
      if Charged(sale.payments) > 0 && sale.customer.Some? {
        fault := PostEntry(ChargeEntry(sale.customer.value, Charged(sale.payments), id), false);
      }
    }

    method CreateSale(req: SaleRequest) returns (r: Result<(nat, bool), Fault>)
      requires ShopInvariant.Inv(Tables())
      modifies this
      ensures ShopInvariant.Inv(Tables())
      ensures
        match Shop.CreateSale(old(Tables()), req)
        case Ok(c) => r == Ok((c.sale, c.created)) && Tables() == c.state
        case Err(e) => r == Err(e) && Tables() == old(Tables())
    {
      hide ShopInvariant.Inv, PriceSale, RecordSale;
      if !SchemaOk(req) { return Err(Invalid); }
      var existing := FindSaleKey(sales, req.key);
      if existing.Some? {
        if sales[existing.value].digest != req.digest { return Err(IdempotencyConflict); }
        return Ok((existing.value, false));
      }
      var saved, id := Tables(), |sales|;
      var priced := PriceRequest(req);
      if priced.Err? { return Err(priced.error); }
      var fault := InsertSale(priced.value);
      if fault.Some? {
        Rollback(saved);
        return Err(fault.value);
      }
      ShopRuns.SellKeepsInv(saved, req);
      return Ok((id, true));
    }

    // --- voiding --------------------------------------------------------------------------------------

    /** A SALE_REVERSAL for every SALE movement of the sale. */
    method ReverseAll(ms: seq<Inventory.Movement>, id: nat) returns (fault: Option<Fault>)
      requires MovedExist(Stock(), ms)
      modifies this`products, this`movements
      ensures
        match ReverseMovements(old(Stock()), ms, |ms|, id)
        case Ok(stock) => fault == None && Stock() == stock
        case Err(e) => fault == Some(e)
    {
      ghost var before := Stock();
      for i := 0 to |ms|
        invariant MovedExist(Stock(), ms)
        invariant ReverseMovements(before, ms, i, id) == Ok(Stock())
      {
        if ms[i].kind == Inventory.Sold {
          fault := ApplyMovement(ms[i].product, Inventory.SaleReversed, -ms[i].delta, ms[i].unitCost, Some(id));
          if fault.Some? {
            ReverseFaultSticks(before, ms, i + 1, |ms|, id);
            return;
          }
        }
      }
      return None;
    }

    method UnlinkAll(payments: seq<Payment>, id: nat)
      modifies this`messages
      ensures messages == MpesaLinks.UnlinkTenders(old(messages), id, payments, |payments|)
    {
      for i := 0 to |payments|
        invariant messages == MpesaLinks.UnlinkTenders(old(messages), id, payments, i)
      {
        if payments[i].tender == Mpesa {
          messages := MpesaLinks.UnlinkTender(messages, MpesaLinks.PaymentRef(id, i));
        }
      }
    }

    /** The body of the void transaction; on a fault the caller rolls back. */
    method ReverseSale(id: nat) returns (fault: Option<Fault>)
      modifies this
      ensures
        match VoidSale(old(Tables()), id)
        case Ok(st) => fault == None && Tables() == st
        case Err(e) => fault == Some(e)
    {
      hide ReverseMovements, MovementsOf, MpesaLinks.UnlinkTenders, Charged;
      if id >= |sales| { return Some(NotFound); }
      var sale := sales[id];
      if sale.status != Completed { return Some(AlreadyVoided); }
      var ms := MovementsOf(movements, id);
      if !MovedExist(Stock(), ms) { return Some(NotFound); }
      fault := ReverseAll(ms, id);
      if fault.Some? { return; }
      if Charged(sale.payments) > 0 && sale.customer.Some? {
        if sale.customer.value !in customers { return Some(NotFound); }
        fault := PostEntry(ReversalEntry(sale.customer.value, Charged(sale.payments), id), true);
        if fault.Some? { return; }
      }
      UnlinkAll(sale.payments, id);
      sales := sales[id := sale.(status := Voided)];
    }

    /** In a state the services reach, a COMPLETED sale can always be voided. */
    method Void(id: nat) returns (fault: Option<Fault>)
      requires ShopInvariant.Inv(Tables())
      modifies this
      ensures ShopInvariant.Inv(Tables())
      ensures fault == None <==> id < |old(sales)| && old(sales)[id].status == Completed
      ensures
        match VoidSale(old(Tables()), id)
        case Ok(st) => fault == None && Tables() == st
        case Err(e) => fault == Some(e) && Tables() == old(Tables())
    {
      hide ShopInvariant.Inv, ReverseMovements, MovementsOf;
      var saved := Tables();
      if id < |sales| && sales[id].status == Completed { ShopRuns.VoidSucceeds(saved, id); }
      fault := ReverseSale(id);
      if fault.Some? {
        Rollback(saved);
      } else {
        ShopRuns.VoidKeepsInv(saved, id);
      }
    }

    // --- manual stock operations ------------------------------------------------------------------------

    /** The checks on the locked row that every manual stock operation makes. */
    method LockActiveTracked(p: Id) returns (fault: Option<Fault>)
      ensures
        match Inventory.LockActiveTracked(Stock(), p)
        case Ok(_) => fault == None && p in products
        case Err(e) => fault == Some(e)
    {
      if p !in products { return Some(NotFound); }
      if !products[p].active { return Some(ProductArchived); }
      if !products[p].tracked { return Some(Untracked); }
      return None;
    }

    method Restock(p: Id, quantity: pos, cost: nat, updateCost: bool) returns (fault: Option<Fault>)
      requires ShopInvariant.Inv(Tables())
      modifies this
      ensures ShopInvariant.Inv(Tables())
      ensures Outcome(old(Tables()), Op.Restock(p, quantity, cost, updateCost), fault, Tables())
    {
      hide ShopInvariant.Inv;
      ghost var before := Tables();
      fault := LockActiveTracked(p);
      if fault.Some? { return; }
      fault := ApplyMovement(p, Inventory.Restocked, quantity, Some(cost), None);
      if fault.Some? { return; }
      if updateCost && products[p].cost != Some(cost) {
        products := products[p := products[p].(cost := Some(cost))];
      }
      ShopRuns.RestockKeepsInv(before, p, quantity, cost, updateCost);
    }

    method AdjustStock(p: Id, delta: int) returns (fault: Option<Fault>)
      requires ShopInvariant.Inv(Tables())
      modifies this
      ensures ShopInvariant.Inv(Tables())
      ensures Outcome(old(Tables()), Op.AdjustStock(p, delta), fault, Tables())
    {
      hide ShopInvariant.Inv;
      ghost var before := Tables();
      fault := LockActiveTracked(p);
      if fault.Some? { return; }
      fault := ApplyMovement(p, Inventory.Adjusted, delta, None, None);
      if fault.None? { ShopRuns.AdjustKeepsInv(before, p, delta); }
    }

    method SetInitialStock(p: Id, quantity: pos, cost: nat) returns (fault: Option<Fault>)
      requires ShopInvariant.Inv(Tables())
      modifies this
      ensures ShopInvariant.Inv(Tables())
      ensures Outcome(old(Tables()), InitialStock(p, quantity, cost), fault, Tables())
    {
      hide ShopInvariant.Inv;
      ghost var before := Tables();
      fault := LockActiveTracked(p);
      if fault.Some? { return; }
      if Inventory.HasMovements(movements, p) { return Some(AlreadyStocked); }
      fault := ApplyMovement(p, Inventory.Initial, quantity, Some(cost), None);
      if fault.None? { ShopRuns.InitialKeepsInv(before, p, quantity, cost); }
    }

    /** A new product and, with opening stock, its INITIAL movement in the same transaction. */
    method CreateProduct(
      p: Id, tracked: bool, price: nat, cost: Option<nat>, opening: Option<pos>, openingCost: Option<nat>)
      returns (fault: Option<Fault>)
      requires ShopInvariant.Inv(Tables())
      modifies this
      ensures ShopInvariant.Inv(Tables())
      ensures Outcome(old(Tables()), AddProduct(p, tracked, price, cost, opening, openingCost), fault, Tables())
    {
      hide ShopInvariant.Inv;
      if p in products { return Some(AlreadyExists); }
      var saved := Tables();
      products := products[p := Inventory.Product(tracked, true, 0, price, cost)];
      fault := None;
      if opening.Some? {
        fault := ApplyMovement(p, Inventory.Initial, opening.value, if openingCost.Some? then openingCost
          else cost, None);
      }
      if fault.Some? {
        Rollback(saved);
      } else {
        ShopRuns.AddProductKeepsInv(saved, p, tracked, price, cost, Widen(opening), openingCost);
      }
    }

    /** Tracking can be switched off only while the product has no stock and no history. */
    method UpdateProduct(
      p: Id, tracked: bool, active: bool, price: nat, cost: Option<nat>) returns (fault: Option<Fault>)
      requires ShopInvariant.Inv(Tables())
      modifies this
      ensures ShopInvariant.Inv(Tables())
      ensures Outcome(old(Tables()), EditProduct(p, tracked, active, price, cost), fault, Tables())
    {
      hide ShopInvariant.Inv;
      ghost var before := Tables();
      if p !in products { return Some(NotFound); }
      var product := products[p];
      if !tracked && product.tracked {
        if product.quantity != 0 { return Some(HasStock); }
        if Inventory.HasMovements(movements, p) { return Some(Fault.HasMovements); }
      }
      products := products[p := product.(tracked := tracked, active := active, price := price, cost := cost)];
      ShopRuns.EditProductKeepsInv(before, p, tracked, active, price, cost);
      return None;
    }

    // --- credit ---------------------------------------------------------------------------------------

    /** Lock the customer, answer a replay, or post. */
    method RecordEntry(entry: Credit.Entry, allowNegative: bool) returns (r: Result<(nat, bool), Fault>)
      modifies this`customers, this`entries
      ensures
        match Credit.Record(old(Book()), entry, allowNegative)
        case Ok(posted) => r == Ok((posted.entry, posted.created)) && Book() == posted.book
        case Err(e) => r == Err(e) && Book() == old(Book())
    {
      if entry.customer !in customers { return Err(NotFound); }
      if entry.key.Some? {
        var existing := Credit.FindKey(entries, entry.key.value);
        if existing.Some? {
          if entries[existing.value].digest != entry.digest { return Err(IdempotencyConflict); }
          return Ok((existing.value, false));
        }
      }
      var id := |entries|;
      var fault := PostEntry(entry, allowNegative);
      if fault.Some? { return Err(fault.value); }
      return Ok((id, true));
    }

    method Repay(req: RepaymentRequest) returns (fault: Option<Fault>)
      requires ShopInvariant.Inv(Tables())
      modifies this
      ensures ShopInvariant.Inv(Tables())
      ensures Outcome(old(Tables()), Op.Repay(req), fault, Tables())
    {
      hide ShopInvariant.Inv, Credit.Record, MpesaLinks.LinkReference;
      ghost var before := Tables();
      var reference := Text.Trim(req.reference);
      var r := RecordEntry(Credit.RepaymentEntry(req.customer, req.amount, req.via, reference, req.key, req.digest),
        req.allowOverpayment);
      if r.Err? { return Some(r.error); }
      if r.value.1 && req.via == Credit.Mpesa && reference != "" {
        messages := MpesaLinks.LinkReference(messages, reference, None, Some(r.value.0));
      }
      ShopRuns.RepaymentKeepsInv(before, req);
      return None;
    }

    method AdjustCredit(c: Id, signed: int, key: Option<Key>, digest: nat) returns (fault: Option<Fault>)
      requires ShopInvariant.Inv(Tables())
      modifies this
      ensures ShopInvariant.Inv(Tables())
      ensures Outcome(old(Tables()), Op.AdjustCredit(c, signed, key, digest), fault, Tables())
    {
      hide ShopInvariant.Inv, Credit.Record;
      ghost var before := Tables();
      var r := RecordEntry(Credit.AdjustmentEntry(c, signed, key, digest), false);
      if r.Err? { return Some(r.error); }
      ShopRuns.AdjustmentKeepsInv(before, c, signed, key, digest);
      return None;
    }

    // --- messages -------------------------------------------------------------------------------------

    method Paste(parsed: Option<Text.Code>, amount: pos)
      requires ShopInvariant.Inv(Tables())
      modifies this
      ensures ShopInvariant.Inv(Tables())
      ensures Tables() == Step(old(Tables()), PasteMessage(parsed, amount))
    {
      hide ShopInvariant.Inv;
      ghost var before := Tables();
      ShopRuns.StepKeepsInv(before, PasteMessage(parsed, amount));
      if parsed.None? {
        messages := messages + [MpesaLinks.Message(None, 0, MpesaLinks.Unparsed, None, None)];
        return;
      }
      var code := parsed.value;
      if MpesaLinks.FindCode(messages, code).Some? { return; }
      var tender := MpesaLinks.FindTender(sales, messages, code, 0, 0);
      var repayment := MpesaLinks.FindRepayment(entries, messages, code, 0);
      messages := messages + [MpesaLinks.Message(Some(code), amount, MpesaLinks.Unmatched, None, None)];
      var i := |messages| - 1;
      if tender.Some? {
        messages := messages[i := MpesaLinks.MarkMatched(messages[i], tender, None)];
      } else if repayment.Some? {
        messages := messages[i := MpesaLinks.MarkMatched(messages[i], None, repayment)];
      }
      assert messages == MpesaLinks.Paste(before.messages, sales, entries, parsed, amount);
    }

    method Ignore(i: nat) returns (fault: Option<Fault>)
      requires ShopInvariant.Inv(Tables())
      modifies this
      ensures ShopInvariant.Inv(Tables())
      ensures Outcome(old(Tables()), IgnoreMessage(i), fault, Tables())
    {
      hide ShopInvariant.Inv;
      ShopRuns.StepKeepsInv(Tables(), IgnoreMessage(i));
      if i >= |messages| { return Some(NotFound); }
      if messages[i].status == MpesaLinks.Ignored { return None; }
      if messages[i].status == MpesaLinks.Matched { return Some(InvalidTransition); }
      messages := messages[i := messages[i].(status := MpesaLinks.Ignored)];
      return None;
    }

    method MatchTo(i: nat, target: MpesaLinks.Target) returns (fault: Option<Fault>)
      requires ShopInvariant.Inv(Tables())
      modifies this
      ensures ShopInvariant.Inv(Tables())
      ensures Outcome(old(Tables()), MatchMessage(i, target), fault, Tables())
    {
      hide ShopInvariant.Inv, MpesaLinks.IsTender, MpesaLinks.IsRepayment, MpesaLinks.TenderLinked,
        MpesaLinks.RepaymentLinked;
      ShopRuns.StepKeepsInv(Tables(), MatchMessage(i, target));
      if i >= |messages| { return Some(NotFound); }
      if messages[i].status != MpesaLinks.Unmatched { return Some(InvalidTransition); }
      if target.ToTender? {
        if !MpesaLinks.IsTender(sales, target.ref)
          || MpesaLinks.TenderLinked(messages, target.ref) { return Some(NotFound); }
        messages := messages[i := MpesaLinks.MarkMatched(messages[i], Some(target.ref), None)];
      } else {
        if !MpesaLinks.IsRepayment(entries, target.entry)
          || MpesaLinks.RepaymentLinked(messages, target.entry) { return Some(NotFound); }
        messages := messages[i := MpesaLinks.MarkMatched(messages[i], None, Some(target.entry))];
      }
      return None;
    }

    // --- recompute ------------------------------------------------------------------------------------

    /** Compares every tracked cache with its ledger, in id order, and rewrites it when `apply`. */
    method RecomputeStock(apply: bool) returns (found: seq<Inventory.Discrepancy>)
      modifies this`products
      ensures Stock() == if apply then Inventory.Repaired(old(Stock())) else old(Stock())
      ensures forall d ::
        d in found <==> d.product in Inventory.Discrepant(old(Stock())) && Inventory.Describes(d, old(Stock()), apply)
      ensures forall i, j :: 0 <= i < j < |found| ==> found[i].product < found[j].product
    {
      hide InOrder, Inventory.Ledger, Inventory.Patched, Inventory.Repaired;
      ghost var st := Stock();
      var ids := InOrder(Inventory.TrackedIds(Stock()));
      assert forall p :: p in ids ==> p in Inventory.TrackedIds(st);
      assert forall p :: p in ids ==> p in st.products;
      found := [];
      NothingPatched(st);
      for i := 0 to |ids|
        invariant Stock() == if apply then Inventory.Patched(st, ids[..i]) else st
        invariant found == Inventory.Findings(st, ids[..i], apply)
      {
        var p := ids[i];
        assert p in Inventory.TrackedIds(st);
        assert ids[..i + 1] == ids[..i] + [p] && p !in ids[..i];
        Inventory.PatchNext(st, ids[..i], p);
        var cached, ledger := products[p].quantity, Inventory.Ledger(movements, p);
        if cached != ledger {
          if apply { products := products[p := products[p].(quantity := ledger)]; }
          found := found + [Inventory.Discrepancy(p, cached, ledger, apply)];
        } else {
          assert products[p := products[p].(quantity := ledger)] == products;
        }
      }
      assert ids[..|ids|] == ids;
      Inventory.PatchAll(st, ids);
      StockReport(st, ids, apply);
    }

    /** Compares every customer's balance with the ledger, in id order, and rewrites it when `apply`. */
    method RecomputeBalances(apply: bool) returns (found: seq<Credit.Discrepancy>)
      modifies this`customers
      ensures Book() == if apply then Credit.Repaired(old(Book())) else old(Book())
      ensures forall d ::
        d in found <==> d.customer in Credit.Discrepant(old(Book())) && Credit.Describes(d, old(Book()), apply)
      ensures forall i, j :: 0 <= i < j < |found| ==> found[i].customer < found[j].customer
    {
      hide InOrder, Credit.Owed, Credit.Patched, Credit.Repaired;
      ghost var book := Book();
      var ids := InOrder(customers.Keys);
      assert forall c :: c in ids ==> c in book.customers.Keys;
      found := [];
      NothingPatchedIn(book);
      for i := 0 to |ids|
        invariant Book() == if apply then Credit.Patched(book, ids[..i]) else book
        invariant found == Credit.Findings(book, ids[..i], apply)
      {
        var c := ids[i];
        assert c in book.customers.Keys;
        assert ids[..i + 1] == ids[..i] + [c] && c !in ids[..i];
        Credit.PatchNext(book, ids[..i], c);
        var cached, ledger := customers[c].balance, Credit.Owed(entries, c);
        if cached != ledger {
          if apply { customers := customers[c := customers[c].(balance := ledger)]; }
          found := found + [Credit.Discrepancy(c, cached, ledger, apply)];
        } else {
          assert customers[c := customers[c].(balance := ledger)] == customers;
        }
      }
      assert ids[..|ids|] == ids;
      Credit.PatchAll(book, ids);
      BookReport(book, ids, apply);
    }
  }

  lemma StockReport(st: Inventory.Stock, ids: seq<Id>, apply: bool)
    requires Ascending(ids) && forall p :: p in ids <==> p in Inventory.TrackedIds(st)
    ensures
      var found := Inventory.Findings(st, ids, apply);
      && (forall d :: d in found <==> d.product in Inventory.Discrepant(st) && Inventory.Describes(d, st, apply))
      && (forall i, j :: 0 <= i < j < |found| ==> found[i].product < found[j].product)
  {
    hide Inventory.Ledger, Inventory.Findings;
    Inventory.FindingsInOrder(st, ids, apply);
    forall d { Inventory.FindingsExact(st, ids, apply, d); }
  }

  lemma BookReport(book: Credit.Book, ids: seq<Id>, apply: bool)
    requires Ascending(ids) && forall c :: c in ids <==> c in book.customers
    ensures
      var found := Credit.Findings(book, ids, apply);
      && (forall d :: d in found <==> d.customer in Credit.Discrepant(book) && Credit.Describes(d, book, apply))
      && (forall i, j :: 0 <= i < j < |found| ==> found[i].customer < found[j].customer)
  {
    hide Credit.Owed, Credit.Findings;
    Credit.FindingsInOrder(book, ids, apply);
    forall d { Credit.FindingsExact(book, ids, apply, d); }
  }

  lemma NothingPatched(st: Inventory.Stock)
    ensures Inventory.Patched(st, []) == st
  {
    assert Inventory.Patched(st, []).products == st.products;
  }

  lemma NothingPatchedIn(book: Credit.Book)
    ensures Credit.Patched(book, []) == book
  {
    assert Credit.Patched(book, []).customers == book.customers;
  }
}
