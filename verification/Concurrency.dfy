/**
 * Requests to the sale and credit services running concurrently over one shop
 * (backend/app/services/sales.py:151-351, backend/app/services/credit.py:181-312). Each request is a
 * program over several transactions: pre-check, row locks, re-check, a draft computed from the locked
 * rows, insert under the unique key, commit. An event advances one request by one step, or lets any
 * other operation of the shop happen, so a sequence of events is one interleaving.
 */
module Concurrency {
  import opened Prelude
  import opened SaleRecords
  import opened Shop
  import opened LockOrder
  import Credit
  import MpesaLinks

  datatype Request =
    | SaleOf(sale: SaleRequest)
    | RepaymentOf(repayment: RepaymentRequest)
    | AdjustmentOf(customer: Id, signed: int, key: Option<Prelude.Key>, digest: nat)

  /** The same request as one operation of the shop. */
  function OpOf(req: Request): Op {
    match req
    case SaleOf(sale) => Sell(sale)
    case RepaymentOf(repayment) => Repay(repayment)
    case AdjustmentOf(customer, signed, key, digest) => AdjustCredit(customer, signed, key, digest)
  }

  function SoldProducts(sale: SaleRequest): set<Id> { set i | 0 <= i < |sale.lines| :: sale.lines[i].product }

  function Debtor(req: Request): Id
    requires !req.SaleOf?
  {
    if req.RepaymentOf? then req.repayment.customer else req.customer
  }

  /** The rows a request locks, in order: its products by id, then its customer. */
  function Locks(req: Request): seq<Resource> {
    match req
    case SaleOf(sale) => ProductRows(InOrder(SoldProducts(sale))) + Customer(sale.customer)
    case _ => [CustomerRow(Debtor(req))]
  }

  function KeyOf(req: Request): Option<Prelude.Key> {
    match req
    case SaleOf(sale) => Some(sale.key)
    case RepaymentOf(repayment) => repayment.key
    case AdjustmentOf(_, _, key, _) => key
  }

  function DigestOf(req: Request): nat {
    match req
    case SaleOf(sale) => sale.digest
    case RepaymentOf(repayment) => repayment.digest
    case AdjustmentOf(_, _, _, digest) => digest
  }

  /** Two requests that compete for one unique key of one table. */
  predicate SameKey(a: Request, b: Request) {
    a.SaleOf? == b.SaleOf? && KeyOf(a).Some? && KeyOf(a) == KeyOf(b)
  }

  /** The ledger entry of a repayment or adjustment, and whether it may take the balance below zero. */
  function DraftEntry(req: Request): Credit.Entry
    requires !req.SaleOf?
  {
    if req.RepaymentOf? then EntryOf(req.repayment)
    else Credit.AdjustmentEntry(req.customer, req.signed, req.key, req.digest)
  }

  function MayGoNegative(req: Request): bool
    requires !req.SaleOf?
  {
    req.RepaymentOf? && req.repayment.allowOverpayment
  }

  // --- committed rows -----------------------------------------------------------------------------

  function Lookup(st: State, req: Request): (r: Option<nat>)
    ensures r.Some? ==> InTable(st, req, r.value) && KeyOf(req).Some? && KeyAt(st, req, r.value) == KeyOf(req)
    ensures r.None? && KeyOf(req).Some? ==> forall i: nat :: InTable(st, req, i) ==> KeyAt(st, req, i) != KeyOf(req)
  {
    if req.SaleOf? then FindSaleKey(st.sales, req.sale.key)
    else if KeyOf(req).Some? then Credit.FindKey(st.book.entries, KeyOf(req).value)
    else None
  }

  predicate InTable(st: State, req: Request, i: nat) {
    if req.SaleOf? then i < |st.sales| else i < |st.book.entries|
  }

  function TableSize(st: State, req: Request): nat { if req.SaleOf? then |st.sales| else |st.book.entries| }

  function KeyAt(st: State, req: Request, i: nat): Option<Prelude.Key>
    requires InTable(st, req, i)
  {
    if req.SaleOf? then Some(st.sales[i].key) else st.book.entries[i].key
  }

  function DigestAt(st: State, req: Request, i: nat): nat
    requires InTable(st, req, i)
  {
    if req.SaleOf? then st.sales[i].digest else st.book.entries[i].digest
  }

  // --- the protocol -------------------------------------------------------------------------------

  datatype Answer = Recorded(row: nat) | Replayed(row: nat) | Conflict | Refused(fault: Fault) | CutOff

  /** What was computed from the locked rows: the priced sale, or the balance the entry builds on. */
  datatype Draft = SaleDraft(sale: Sale) | EntryDraft(balance: int)

  datatype Pc =
    | Start                  // nothing read yet
    | Locking(held: nat)     // in the transaction, holding the first `held` row locks
    | Drafted(draft: Draft)  // all locks held, no duplicate seen under them
    | Inserted(draft: Draft) // the keyed row is written but not committed
    | Reread                 // rolled back; about to read the winner
    | Done(answer: Answer)

  datatype World = World(shop: State, pc: seq<Pc>)

  function Held(req: Request, pc: Pc): set<Resource> {
    match pc
    case Locking(n) => set i | 0 <= i < n && i < |Locks(req)| :: Locks(req)[i]
    case Drafted(_) => set l | l in Locks(req)
    case Inserted(_) => set l | l in Locks(req)
    case _ => {}
  }

  predicate IsFree(reqs: seq<Request>, pc: seq<Pc>, r: nat, row: Resource)
    requires |pc| == |reqs|
  {
    forall o :: 0 <= o < |reqs| && o != r ==> row !in Held(reqs[o], pc[o])
  }

  /** Another transaction has inserted the key and not finished: the unique index makes this one wait. */
  predicate KeyInFlight(reqs: seq<Request>, pc: seq<Pc>, r: nat)
    requires |pc| == |reqs| && r < |reqs|
  {
    exists o :: 0 <= o < |reqs| && o != r && pc[o].Inserted? && SameKey(reqs[o], reqs[r])
  }

  predicate RowExists(st: State, row: Resource) {
    match row
    case ProductRow(p) => p in st.stock.products
    case CustomerRow(c) => c in st.book.customers
    case _ => true
  }

  /** A sale refuses an archived customer as soon as it has the row. */
  predicate RowRefused(st: State, req: Request, row: Resource) {
    req.SaleOf? && row.CustomerRow? && row.id in st.book.customers && !st.book.customers[row.id].active
  }

  /** The answer to a request whose key is taken: the same payload is a replay, another one is refused. */
  function Replay(st: State, req: Request, i: nat): Answer
    requires InTable(st, req, i)
  {
    if DigestAt(st, req, i) == DigestOf(req) then Replayed(i) else Conflict
  }

  /** Prices and checks from the locked rows; nothing is written yet. */
  function MakeDraft(st: State, req: Request): Result<Draft, Fault> {
    if req.SaleOf? then
      if !SchemaOk(req.sale) then Err(Invalid)
      else
        match PriceSale(st, req.sale)
        case Ok(sale) => Ok(SaleDraft(sale))
        case Err(e) => Err(e)
    else if Debtor(req) !in st.book.customers then Err(NotFound)
    else
      match Credit.PostEntry(st.book, DraftEntry(req), MayGoNegative(req))
      case Ok(_) => Ok(EntryDraft(st.book.customers[Debtor(req)].balance))
      case Err(e) => Err(e)
  }

  /** The entry built on the balance that was read under the lock, and the hook of an M-Pesa repayment. */
  function CommitEntry(st: State, req: Request, balance: int): State
    requires !req.SaleOf? && Debtor(req) in st.book.customers
  {
    var entry := DraftEntry(req);
    var c := Debtor(req);
    var after := balance + entry.amount;
    var book := Credit.Book(
      st.book.customers[c := st.book.customers[c].(balance := after)], st.book.entries + [entry.(after := after)]);
    if req.RepaymentOf? && req.repayment.via == Credit.Mpesa && entry.reference != ""
    then
      var linked := MpesaLinks.LinkReference(st.messages, entry.reference, None, Some(|st.book.entries|));
      st.(book := book, messages := linked)
    else st.(book := book)
  }

  /** Everything the transaction writes, from its draft. */
  function Commit(st: State, req: Request, draft: Draft): Result<State, Fault> {
    match draft
    case SaleDraft(sale) =>
      if ItemsExist(st.stock, sale.items) && (sale.customer.Some? ==> sale.customer.value in st.book.customers)
      then RecordSale(st, sale) else Err(NotFound)
    case EntryDraft(balance) =>
      if !req.SaleOf? && Debtor(req) in st.book.customers then Ok(CommitEntry(st, req, balance)) else Err(NotFound)
  }

  function At(w: World, r: nat, pc: Pc): World
    requires r < |w.pc|
  {
    w.(pc := w.pc[r := pc])
  }

  function Advance(reqs: seq<Request>, w: World, r: nat): (w': World)
    requires |w.pc| == |reqs| && r < |reqs|
    ensures |w'.pc| == |reqs|
  {
    var req := reqs[r];
    var found := Lookup(w.shop, req);
    match w.pc[r]
    case Start =>
      if req.SaleOf? && found.Some? then At(w, r, Done(Replay(w.shop, req, found.value)))
      else if req.SaleOf? && ResolveSoldAt(req.sale).Err? then At(w, r, Done(Refused(ResolveSoldAt(req.sale).error)))
      else At(w, r, Locking(0))
    case Locking(n) =>
      if n < |Locks(req)| then LockNext(reqs, w, r, n)
      else if found.Some? then At(w, r, if req.SaleOf? then Reread else Done(Replay(w.shop, req, found.value)))
      else
        (match MakeDraft(w.shop, req)
         case Ok(draft) => At(w, r, Drafted(draft))
         case Err(e) => At(w, r, Done(Refused(e))))
    case Drafted(draft) =>
      if KeyInFlight(reqs, w.pc, r) then w
      else if found.None? then At(w, r, Inserted(draft))
      else At(w, r, if req.SaleOf? then Reread else Done(Conflict))
    case Inserted(draft) =>
      (match Commit(w.shop, req, draft)
       case Ok(shop) => At(w.(shop := shop), r, Done(Recorded(TableSize(w.shop, req))))
       case Err(e) => At(w, r, Done(Refused(e))))
    case Reread => At(w, r, Done(if found.Some? then Replay(w.shop, req, found.value) else CutOff))
    case Done(_) => w
  }

  /** SELECT ... FOR UPDATE of the next row: missing, held by another, refused, or locked. */
  function LockNext(reqs: seq<Request>, w: World, r: nat, n: nat): (w': World)
    requires |w.pc| == |reqs| && r < |reqs| && n < |Locks(reqs[r])|
    ensures |w'.pc| == |reqs|
  {
    var row := Locks(reqs[r])[n];
    if !RowExists(w.shop, row) then At(w, r, Done(Refused(NotFound)))
    else if !IsFree(reqs, w.pc, r, row) then w
    else if RowRefused(w.shop, reqs[r], row) then At(w, r, Done(Refused(CustomerArchived)))
    else At(w, r, Locking(n + 1))
  }

  // --- the rest of the shop -------------------------------------------------------------------------

  /** Operations without an idempotency key run as one step, on rows that nobody holds. */
  predicate Unkeyed(op: Op) { !op.Sell? && !op.Repay? && !op.AdjustCredit? }

  /** The product and customer rows an operation may change. */
  function Touches(st: State, op: Op): set<Resource> {
    match op
    case AddProduct(p, _, _, _, _, _) => {ProductRow(p)}
    case EditProduct(p, _, _, _, _) => {ProductRow(p)}
    case Restock(p, _, _, _) => {ProductRow(p)}
    case AdjustStock(p, _) => {ProductRow(p)}
    case InitialStock(p, _, _) => {ProductRow(p)}
    case RecomputeStock(_) => set p | p in st.stock.products :: ProductRow(p)
    case PutCustomer(c, _, _) => {CustomerRow(c)}
    case RecomputeBalances(_) => set c | c in st.book.customers :: CustomerRow(c)
    case Void(id) =>
      if id >= |st.sales| then {}
      else
        (set m | m in MovementsOf(st.stock.movements, id) :: ProductRow(m.product))
        + (if st.sales[id].customer.Some? then {CustomerRow(st.sales[id].customer.value)} else {})
    case _ => {}
  }

  predicate Untouched(reqs: seq<Request>, pc: seq<Pc>, rows: set<Resource>)
    requires |pc| == |reqs|
  {
    forall o :: 0 <= o < |reqs| ==> Held(reqs[o], pc[o]) !! rows
  }

  datatype Event = Go(request: nat) | Stop(request: nat) | Other(op: Op)

  /** A time-out or crash rolls the open transaction back; an answered request stays answered. */
  function Abort(w: World, r: nat): (w': World)
    requires r < |w.pc|
    ensures |w'.pc| == |w.pc| && w'.shop == w.shop
  {
    if w.pc[r].Done? then w else At(w, r, Done(CutOff))
  }

  function Step(reqs: seq<Request>, w: World, ev: Event): (w': World)
    requires |w.pc| == |reqs|
    ensures |w'.pc| == |reqs|
  {
    match ev
    case Go(r) => if r < |reqs| then Advance(reqs, w, r) else w
    case Stop(r) => if r < |reqs| then Abort(w, r) else w
    case Other(op) =>
      if Unkeyed(op) && Untouched(reqs, w.pc, Touches(w.shop, op)) then w.(shop := Shop.Step(w.shop, op)) else w
  }

  function Begin(reqs: seq<Request>, base: State): World { World(base, seq(|reqs|, _ => Start)) }

  function Run(reqs: seq<Request>, base: State, events: seq<Event>): (w: World)
    ensures |w.pc| == |reqs|
  {
    if events == [] then Begin(reqs, base)
    else Step(reqs, Run(reqs, base, events[..|events| - 1]), events[|events| - 1])
  }

  // --- the same request at one stroke -----------------------------------------------------------------

  /** What a caller is promised: look the key up, and do the operation only if it is new. */
  function Atomic(st: State, req: Request): (State, Answer) {
    match Lookup(st, req)
    case Some(i) => (st, Replay(st, req, i))
    case None =>
      match Attempt(st, OpOf(req))
      case Ok(st') => (st', Recorded(TableSize(st, req)))
      case Err(e) => (st, Refused(e))
  }
}
