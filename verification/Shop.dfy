/**
 * The shop: stock, credit, sales and M-Pesa messages of one business, and every operation
 * that writes them. Each operation is one transaction: it commits whole or changes nothing.
 */
module Shop {
  import opened Prelude
  import opened SaleRecords
  import Text
  import Money
  import Inventory
  import Credit
  import MpesaLinks

  datatype State = State(
    stock: Inventory.Stock, book: Credit.Book, sales: seq<Sale>, messages: seq<MpesaLinks.Message>)

  const EMPTY := State(Inventory.Stock(map[], []), Credit.Book(map[], []), [], [])

  // --- selling --------------------------------------------------------------------------------

  datatype Line = Line(product: Id, quantity: pos, unitPrice: Option<nat>)

  datatype TenderLine = TenderLine(tender: Tender, amount: pos, reference: string)

  /** A sale request, with the moment it is handled and the business's backdating setting; instants are seconds. */
  datatype SaleRequest = SaleRequest(
    key: Key, digest: nat, customer: Option<Id>, lines: seq<Line>, payments: seq<TenderLine>,
    discount: nat, role: Credit.Role, limitOverride: bool,
    soldAt: Option<int>, now: int, backdateDays: nat)

  /** What the request schema demands (backend/app/schemas/sales.py:37-74). */
  predicate SchemaOk(req: SaleRequest) {
    && req.lines != [] && req.payments != []
    && ((exists i :: 0 <= i < |req.payments| && req.payments[i].tender == OnCredit) ==> req.customer.Some?)
  }

  const FUTURE_TOLERANCE := 5 * 60
  const DAY := 24 * 60 * 60

  /** Only an owner may date a sale, a little into the future at most and within the backdating window. */
  function ResolveSoldAt(req: SaleRequest): Result<int, Fault> {
    match req.soldAt
    case None => Ok(req.now)
    case Some(at) =>
      if req.role != Credit.Owner then Err(PermissionDenied)
      else if at > req.now + FUTURE_TOLERANCE then Err(SaleInFuture)
      else if at < req.now - req.backdateDays * DAY then Err(OutsideBackdateWindow)
      else Ok(if at < req.now then at else req.now)
  }

  predicate ProductsExist(products: map<Id, Inventory.Product>, lines: seq<Line>) {
    forall i :: 0 <= i < |lines| ==> lines[i].product in products
  }

  predicate ProductsActive(products: map<Id, Inventory.Product>, lines: seq<Line>)
    requires ProductsExist(products, lines)
  {
    forall i :: 0 <= i < |lines| ==> products[lines[i].product].active
  }

  function UnitPrice(products: map<Id, Inventory.Product>, line: Line): nat
    requires line.product in products
  {
    if line.unitPrice.Some? then line.unitPrice.value else products[line.product].price
  }

  /** Line totals from the locked rows, never from the client. */
  function LineTotals(products: map<Id, Inventory.Product>, lines: seq<Line>): (r: seq<nat>)
    requires ProductsExist(products, lines)
    ensures |r| == |lines|
  {
    seq(|lines|, i requires 0 <= i < |lines| => Money.LineTotal(lines[i].quantity, UnitPrice(products, lines[i])))
  }

  /** Items snapshot price and cost, so later repricing changes nothing (FR-F5). */
  function Items(products: map<Id, Inventory.Product>, lines: seq<Line>, discounts: seq<nat>): (r: seq<Item>)
    requires ProductsExist(products, lines) && |discounts| == |lines|
    ensures |r| == |lines|
    ensures forall i :: 0 <= i < |r| ==> r[i].product in products && r[i].quantity > 0
  {
    seq(|lines|, i requires 0 <= i < |lines| =>
      Item(lines[i].product, lines[i].quantity, UnitPrice(products, lines[i]), products[lines[i].product].cost,
           LineTotals(products, lines)[i], discounts[i]))
  }

  /** The schema strips references before they are stored. */
  function Payments(payments: seq<TenderLine>): (r: seq<Payment>)
    ensures |r| == |payments|
  {
    seq(|payments|, i requires 0 <= i < |payments| =>
      Payment(payments[i].tender, payments[i].amount, Text.Trim(payments[i].reference)))
  }

  predicate ItemsExist(st: Inventory.Stock, items: seq<Item>) {
    forall i :: 0 <= i < |items| ==> items[i].product in st.products && items[i].quantity > 0
  }

  /** Stock leaves through the ledger for the first n items of a sale; untracked products do not take part. */
  function SellItems(st: Inventory.Stock, items: seq<Item>, n: nat, sale: nat): (r: Result<Inventory.Stock, Fault>)
    requires n <= |items| && ItemsExist(st, items)
    ensures r.Ok? ==> r.value.products.Keys == st.products.Keys
  {
    if n == 0 then Ok(st)
    else
      match SellItems(st, items, n - 1, sale)
      case Err(e) => Err(e)
      case Ok(before) =>
        var item := items[n - 1];
        if before.products[item.product].tracked
        then Inventory.ApplyMovement(before, item.product, Inventory.Sold, -(item.quantity as int), item.unitCost,
          Some(sale))
        else Ok(before)
  }

  function ChargeEntry(c: Id, amount: nat, sale: nat): Credit.Entry {
    Credit.Entry(c, Credit.Charge, amount, 0, Some(sale), None, "", None, 0)
  }

  function ReversalEntry(c: Id, amount: nat, sale: nat): Credit.Entry {
    Credit.Entry(c, Credit.Reversal, -(amount as int), 0, Some(sale), None, "", None, 0)
  }

  function FindSaleKey(sales: seq<Sale>, key: Key): (r: Option<nat>)
    ensures r.Some? ==> r.value < |sales| && sales[r.value].key == key
    ensures r.None? ==> forall i :: 0 <= i < |sales| ==> sales[i].key != key
  {
    if sales == [] then None
    else if sales[|sales| - 1].key == key then Some(|sales| - 1)
    else FindSaleKey(sales[..|sales| - 1], key)
  }

  /** The customer row a sale names: present and not archived. */
  function LockCustomer(book: Credit.Book, customer: Option<Id>): Result<(), Fault> {
    match customer
    case None => Ok(())
    case Some(c) =>
      if c !in book.customers then Err(NotFound)
      else if !book.customers[c].active then Err(CustomerArchived)
      else Ok(())
  }

  /** Everything a sale records, computed from the locked rows; a fault is a refused request. */
  function PriceSale(st: State, req: SaleRequest): (r: Result<Sale, Fault>)
    requires SchemaOk(req)
    ensures r.Ok? ==> ItemsExist(st.stock, r.value.items) && r.value.key == req.key && r.value.status == Completed
    ensures r.Ok? ==> r.value.customer == req.customer
    ensures r.Ok? && req.customer.Some? ==> req.customer.value in st.book.customers
  {
    var products := st.stock.products;
    var soldAt := ResolveSoldAt(req);
    if soldAt.Err? then Err(soldAt.error)
    else if !ProductsExist(products, req.lines) then Err(NotFound)
    else
      var locked := LockCustomer(st.book, req.customer);
      if locked.Err? then Err(locked.error)
      else if !ProductsActive(products, req.lines) then Err(ProductArchived)
      else
        var totals := LineTotals(products, req.lines);
        var subtotal: int := Money.Total(totals);
        if req.discount > subtotal then Err(DiscountExceedsSubtotal)
        else
          var payments := Payments(req.payments);
          if TenderTotal(payments) != subtotal - req.discount then Err(PaymentsDoNotBalance)
          else
            var charge := Charged(payments);
            if charge > 0 && req.customer.Some?
               && !Credit.ChargeAllowed(st.book.customers[req.customer.value], charge, req.role, req.limitOverride)
            then Err(CreditLimitExceeded)
            else
              var items := Items(products, req.lines, Money.Allocation(req.discount, totals));
              Ok(Sale(req.customer, req.key, req.digest, Completed, subtotal, req.discount, subtotal - req.discount,
                      soldAt.value, items, payments))
  }

  /** The CHARGE of a sale with a CREDIT tender. */
  function ChargeSale(book: Credit.Book, sale: Sale, id: nat): Result<Credit.Book, Fault>
    requires sale.customer.Some? ==> sale.customer.value in book.customers
  {
    if Charged(sale.payments) > 0 && sale.customer.Some?
    then Credit.PostEntry(book, ChargeEntry(sale.customer.value, Charged(sale.payments), id), false)
    else Ok(book)
  }

  datatype Created = Created(state: State, sale: nat, created: bool)

  /** The new rows of a priced sale: sale, links, movements, charge. */
  function RecordSale(st: State, sale: Sale): Result<State, Fault>
    requires ItemsExist(st.stock, sale.items) && (sale.customer.Some? ==> sale.customer.value in st.book.customers)
  {
    var id := |st.sales|;
    match SellItems(st.stock, sale.items, |sale.items|, id)
    case Err(e) => Err(e)
    case Ok(stock) =>
      match ChargeSale(st.book, sale, id)
      case Err(e) => Err(e)
      case Ok(book) =>
        Ok(State(stock, book, st.sales + [sale],
          MpesaLinks.LinkTenders(st.messages, id, sale.payments, |sale.payments|)))
  }

  function CreateSale(st: State, req: SaleRequest): Result<Created, Fault> {
    if !SchemaOk(req) then Err(Invalid)
    else
      match FindSaleKey(st.sales, req.key)
      case Some(s) =>
        if st.sales[s].digest != req.digest then Err(IdempotencyConflict) else Ok(Created(st, s, false))
      case None =>
        match PriceSale(st, req)
        case Err(e) => Err(e)
        case Ok(sale) =>
          match RecordSale(st, sale)
          case Err(e) => Err(e)
          case Ok(st') => Ok(Created(st', |st.sales|, true))
  }

  // --- voiding --------------------------------------------------------------------------------

  /** The movements a sale wrote, in posting order. */
  function MovementsOf(movements: seq<Inventory.Movement>, sale: nat): (r: seq<Inventory.Movement>)
    ensures forall m :: m in r ==> m in movements && m.sale == Some(sale)
  {
    if movements == [] then []
    else
      var last := movements[|movements| - 1];
      var before := MovementsOf(movements[..|movements| - 1], sale);
      if last.sale == Some(sale) then before + [last] else before
  }

  predicate MovedExist(st: Inventory.Stock, ms: seq<Inventory.Movement>) {
    forall i :: 0 <= i < |ms| ==> ms[i].product in st.products
  }

  /** A SALE_REVERSAL for each of the first n SALE movements. */
  function ReverseMovements(
    st: Inventory.Stock, ms: seq<Inventory.Movement>, n: nat, sale: nat): (r: Result<Inventory.Stock, Fault>)
    requires n <= |ms| && MovedExist(st, ms)
    ensures r.Ok? ==> r.value.products.Keys == st.products.Keys
  {
    if n == 0 then Ok(st)
    else
      match ReverseMovements(st, ms, n - 1, sale)
      case Err(e) => Err(e)
      case Ok(before) =>
        var m := ms[n - 1];
        if m.kind == Inventory.Sold
        then Inventory.ApplyMovement(before, m.product, Inventory.SaleReversed, -m.delta, m.unitCost, Some(sale))
        else Ok(before)
  }

  function ReverseCharge(book: Credit.Book, sale: Sale, id: nat): Result<Credit.Book, Fault> {
    if Charged(sale.payments) > 0 && sale.customer.Some? then
      if sale.customer.value !in book.customers then Err(NotFound)
      else Credit.PostEntry(book, ReversalEntry(sale.customer.value, Charged(sale.payments), id), true)
    else Ok(book)
  }

  function VoidSale(st: State, id: nat): Result<State, Fault> {
    if id >= |st.sales| then Err(NotFound)
    else
      var sale := st.sales[id];
      var ms := MovementsOf(st.stock.movements, id);
      if sale.status != Completed then Err(AlreadyVoided)
      else if !MovedExist(st.stock, ms) then Err(NotFound)
      else
        match ReverseMovements(st.stock, ms, |ms|, id)
        case Err(e) => Err(e)
        case Ok(stock) =>
          match ReverseCharge(st.book, sale, id)
          case Err(e) => Err(e)
          case Ok(book) =>
            Ok(State(stock, book, st.sales[id := sale.(status := Voided)],
                     MpesaLinks.UnlinkTenders(st.messages, id, sale.payments, |sale.payments|)))
  }

  // --- credit -----------------------------------------------------------------------------------

  datatype RepaymentRequest = RepaymentRequest(
    customer: Id, amount: pos, via: Credit.Received, reference: string, allowOverpayment: bool, key: Option<Key>,
      digest: nat)

  function EntryOf(req: RepaymentRequest): Credit.Entry {
    Credit.RepaymentEntry(req.customer, req.amount, req.via, Text.Trim(req.reference), req.key, req.digest)
  }

  /** A repayment, and the hook that links a message pasted earlier. */
  function RecordRepayment(st: State, req: RepaymentRequest): Result<State, Fault> {
    var reference := Text.Trim(req.reference);
    match Credit.Record(st.book, EntryOf(req), req.allowOverpayment)
    case Err(e) => Err(e)
    case Ok(posted) =>
      Ok(st.(
        book := posted.book,
        messages :=
          if posted.created && req.via == Credit.Mpesa && reference != ""
          then MpesaLinks.LinkReference(st.messages, reference, None, Some(posted.entry))
          else st.messages))
  }

  function RecordAdjustment(st: State, c: Id, signed: int, key: Option<Key>, digest: nat): Result<State, Fault> {
    match Credit.Record(st.book, Credit.AdjustmentEntry(c, signed, key, digest), false)
    case Err(e) => Err(e)
    case Ok(posted) => Ok(st.(book := posted.book))
  }

  function SaveCustomer(st: State, c: Id, active: bool, limit: Option<nat>): State {
    var balance := if c in st.book.customers then st.book.customers[c].balance else 0;
    st.(book := st.book.(customers := st.book.customers[c := Credit.Customer(active, balance, limit)]))
  }

  // --- steps and runs ---------------------------------------------------------------------------

  datatype Op =
    | AddProduct(product: Id, tracked: bool, price: nat, cost: Option<nat>, opening: Option<pos>,
      openingCost: Option<nat>)
    | EditProduct(product: Id, tracked: bool, active: bool, price: nat, cost: Option<nat>)
    | Restock(product: Id, quantity: pos, unitCost: nat, updateCost: bool)
    | AdjustStock(product: Id, delta: int)
    | InitialStock(product: Id, quantity: pos, unitCost: nat)
    | RecomputeStock(apply: bool)
    | PutCustomer(customer: Id, active: bool, limit: Option<nat>)
    | Repay(repayment: RepaymentRequest)
    | AdjustCredit(customer: Id, signed: int, key: Option<Key>, digest: nat)
    | RecomputeBalances(apply: bool)
    | Sell(sale: SaleRequest)
    | Void(id: nat)
    | PasteMessage(parsed: Option<Text.Code>, amount: pos)
    | MatchMessage(message: nat, target: MpesaLinks.Target)
    | IgnoreMessage(message: nat)

  function WithStock(st: State, r: Result<Inventory.Stock, Fault>): Result<State, Fault> {
    match r case Ok(stock) => Ok(st.(stock := stock)) case Err(e) => Err(e)
  }

  function WithMessages(st: State, r: Result<seq<MpesaLinks.Message>, Fault>): Result<State, Fault> {
    match r case Ok(messages) => Ok(st.(messages := messages)) case Err(e) => Err(e)
  }

  function Widen(o: Option<pos>): Option<nat> {
    match o case None => None case Some(n) => Some(n)
  }

  function Attempt(st: State, op: Op): Result<State, Fault> {
    match op
    case AddProduct(p, tracked, price, cost, opening, openingCost) =>
      WithStock(st, Inventory.CreateProduct(st.stock, p, tracked, price, cost, Widen(opening), openingCost))
    case EditProduct(p, tracked, active, price, cost) =>
      WithStock(st, Inventory.UpdateProduct(st.stock, p, tracked, active, price, cost))
    case Restock(p, quantity, cost, updateCost) =>
      WithStock(st, Inventory.Restock(st.stock, p, quantity, cost, updateCost))
    case AdjustStock(p, delta) => WithStock(st, Inventory.Adjust(st.stock, p, delta))
    case InitialStock(p, quantity, cost) => WithStock(st, Inventory.SetInitialStock(st.stock, p, quantity, cost))
    case RecomputeStock(apply) => Ok(if apply then st.(stock := Inventory.Repaired(st.stock)) else st)
    case PutCustomer(c, active, limit) => Ok(SaveCustomer(st, c, active, limit))
    case Repay(req) => RecordRepayment(st, req)
    case AdjustCredit(c, signed, key, digest) => RecordAdjustment(st, c, signed, key, digest)
    case RecomputeBalances(apply) => Ok(if apply then st.(book := Credit.Repaired(st.book)) else st)
    case Sell(req) => (match CreateSale(st, req) case Ok(r) => Ok(r.state) case Err(e) => Err(e))
    case Void(id) => VoidSale(st, id)
    case PasteMessage(parsed, amount) =>
      Ok(st.(messages := MpesaLinks.Paste(st.messages, st.sales, st.book.entries, parsed, amount)))
    case MatchMessage(i, target) =>
      WithMessages(st, MpesaLinks.Match(st.messages, st.sales, st.book.entries, i, target))
    case IgnoreMessage(i) => WithMessages(st, MpesaLinks.Ignore(st.messages, i))
  }

  /** A refused operation leaves the database as it was. */
  function Step(st: State, op: Op): State {
    match Attempt(st, op) case Ok(st') => st' case Err(_) => st
  }

  function Run(st: State, ops: seq<Op>): State {
    if ops == [] then st else Step(Run(st, ops[..|ops| - 1]), ops[|ops| - 1])
  }
}
