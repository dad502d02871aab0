/**
 * Row locks of concurrent transactions. Every sale, void, recompute and single-row operation
 * takes its locks in one global order, so no set of them can wait in a cycle. A receipt
 * confirmation locks products in line order; it may join them exactly when that is ascending.
 */
module LockOrder {
  import opened Prelude

  /** Lockable rows, and the unique idempotency key a transaction inserts last. */
  datatype Resource =
    ReceiptRow(id: Id) | SaleRow(id: Id) | ProductRow(id: Id) | CustomerRow(id: Id) | UniqueKey(id: Id)

  function Kind(r: Resource): nat {
    match r
    case ReceiptRow(_) => 0
    case SaleRow(_) => 0
    case ProductRow(_) => 1
    case CustomerRow(_) => 2
    case UniqueKey(_) => 3
  }

  /** The global order: sales and receipts, then products by id, then customers by id, then keys. */
  predicate Before(a: Resource, b: Resource) {
    Kind(a) < Kind(b) || (Kind(a) == Kind(b) && a.id < b.id)
  }

  predicate InLockOrder(program: seq<Resource>) {
    forall i, j :: 0 <= i < j < |program| ==> Before(program[i], program[j])
  }

  // --- what the operations lock -----------------------------------------------------------------

  function ProductRows(ids: seq<Id>): seq<Resource> { seq(|ids|, i requires 0 <= i < |ids| => ProductRow(ids[i])) }

  function CustomerRows(ids: seq<Id>): seq<Resource> { seq(|ids|, i requires 0 <= i < |ids| => CustomerRow(ids[i])) }

  function Customer(c: Option<Id>): seq<Resource> { match c case None => [] case Some(id) => [CustomerRow(id)] }

  function Key(k: Option<Id>): seq<Resource> { match k case None => [] case Some(id) => [UniqueKey(id)] }

  datatype Operation =
    | CreateSale(products: set<Id>, customer: Option<Id>, key: Id)
    | VoidSale(sale: Id, products: set<Id>, customer: Option<Id>)
    | RecomputeStock(tracked: set<Id>)
    | RecomputeBalances(customers: set<Id>)
    | StockOperation(product: Id)
    | CreditOperation(debtor: Id, entryKey: Option<Id>)
    | ConfirmReceipt(receipt: Id, lines: seq<Id>)

  /** The order in which a list of products is locked: a row already held is not locked again. */
  function FirstLocks(lines: seq<Id>): (r: seq<Id>)
    ensures forall p :: p in r <==> p in lines
    ensures forall i, j :: 0 <= i < j < |r| ==> r[i] != r[j]
  {
    if lines == [] then []
    else
      var front, last := lines[..|lines| - 1], lines[|lines| - 1];
      assert lines == front + [last];
      if last in front then FirstLocks(front) else FirstLocks(front) + [last]
  }

  /** The rows an operation locks, in the order its code locks them. */
  function Program(op: Operation): seq<Resource> {
    match op
    case CreateSale(products, customer, key) => ProductRows(InOrder(products)) + Customer(customer) + [UniqueKey(key)]
    case VoidSale(sale, products, customer) => [SaleRow(sale)] + ProductRows(InOrder(products)) + Customer(customer)
    case RecomputeStock(tracked) => ProductRows(InOrder(tracked))
    case RecomputeBalances(customers) => CustomerRows(InOrder(customers))
    case StockOperation(product) => [ProductRow(product)]
    case CreditOperation(debtor, key) => [CustomerRow(debtor)] + Key(key)
    case ConfirmReceipt(receipt, lines) => [ReceiptRow(receipt)] + ProductRows(FirstLocks(lines))
  }

  /** A confirmation locks its products in ascending order; every other operation is orderly. */
  predicate Orderly(op: Operation) {
    op.ConfirmReceipt? ==> Ascending(FirstLocks(op.lines))
  }

  predicate AllOfKind(program: seq<Resource>, from: nat, to: nat) {
    forall i :: 0 <= i < |program| ==> from <= Kind(program[i]) <= to
  }

  lemma LaterKindsFollow(a: seq<Resource>, b: seq<Resource>, from: nat, between: nat, to: nat)
    requires InLockOrder(a) && InLockOrder(b) && AllOfKind(a, from, between) && AllOfKind(b, between + 1, to)
    requires from <= between <= to
    ensures InLockOrder(a + b) && AllOfKind(a + b, from, to)
  {
  }

  lemma RowsInOrder(ids: set<Id>)
    ensures InLockOrder(ProductRows(InOrder(ids))) && AllOfKind(ProductRows(InOrder(ids)), 1, 1)
    ensures InLockOrder(CustomerRows(InOrder(ids))) && AllOfKind(CustomerRows(InOrder(ids)), 2, 2)
  {
    hide InOrder;
  }

  lemma ProgramsInLockOrder(op: Operation)
    requires Orderly(op)
    ensures InLockOrder(Program(op))
  {
    hide InLockOrder, AllOfKind, InOrder, FirstLocks;
    match op
    case CreateSale(products, customer, key) =>
      RowsInOrder(products);
      SingleRows(customer, Some(key), 0);
      LaterKindsFollow(ProductRows(InOrder(products)), Customer(customer), 1, 1, 2);
      LaterKindsFollow(ProductRows(InOrder(products)) + Customer(customer), [UniqueKey(key)], 1, 2, 3);
    case VoidSale(sale, products, customer) =>
      RowsInOrder(products);
      SingleRows(customer, None, sale);
      LaterKindsFollow([SaleRow(sale)], ProductRows(InOrder(products)), 0, 0, 1);
      LaterKindsFollow([SaleRow(sale)] + ProductRows(InOrder(products)), Customer(customer), 0, 1, 2);
    case RecomputeStock(tracked) => RowsInOrder(tracked);
    case RecomputeBalances(customers) => RowsInOrder(customers);
    case StockOperation(product) => SingleRows(None, None, product);
    case CreditOperation(debtor, key) =>
      SingleRows(Some(debtor), key, 0);
      LaterKindsFollow([CustomerRow(debtor)], Key(key), 2, 2, 3);
    case ConfirmReceipt(receipt, lines) =>
      AscendingRows(FirstLocks(lines));
      SingleRows(None, None, receipt);
      LaterKindsFollow([ReceiptRow(receipt)], ProductRows(FirstLocks(lines)), 0, 0, 1);
  }

  lemma AscendingRows(ids: seq<Id>)
    requires Ascending(ids)
    ensures InLockOrder(ProductRows(ids)) && AllOfKind(ProductRows(ids), 1, 1)
  {
  }

  lemma SingleRows(customer: Option<Id>, key: Option<Id>, id: Id)
    ensures InLockOrder(Customer(customer)) && AllOfKind(Customer(customer), 2, 2)
    ensures InLockOrder(Key(key)) && AllOfKind(Key(key), 3, 3)
    ensures InLockOrder([SaleRow(id)]) && AllOfKind([SaleRow(id)], 0, 0) && InLockOrder([ProductRow(id)])
    ensures InLockOrder([ReceiptRow(id)]) && AllOfKind([ReceiptRow(id)], 0, 0)
  {
  }

  /** The rows an operation locks: its own products, customer, sale or receipt, and key, and no others. */
  predicate NeedsRow(op: Operation, r: Resource) {
    match op
    case CreateSale(products, customer, key) =>
      (r.ProductRow? && r.id in products) || (r.CustomerRow? && customer == Some(r.id)) || r == UniqueKey(key)
    case VoidSale(sale, products, customer) =>
      r == SaleRow(sale) || (r.ProductRow? && r.id in products) || (r.CustomerRow? && customer == Some(r.id))
    case RecomputeStock(tracked) => r.ProductRow? && r.id in tracked
    case RecomputeBalances(customers) => r.CustomerRow? && r.id in customers
    case StockOperation(product) => r == ProductRow(product)
    case CreditOperation(debtor, key) => r == CustomerRow(debtor) || (r.UniqueKey? && key == Some(r.id))
    case ConfirmReceipt(receipt, lines) => r == ReceiptRow(receipt) || (r.ProductRow? && r.id in lines)
  }

  lemma RowsOf(ids: seq<Id>, r: Resource)
    ensures r in ProductRows(ids) <==> r.ProductRow? && r.id in ids
    ensures r in CustomerRows(ids) <==> r.CustomerRow? && r.id in ids
  {
    if r.ProductRow? && r.id in ids {
      var i :| 0 <= i < |ids| && ids[i] == r.id;
      assert ProductRows(ids)[i] == r;
    }
    if r.CustomerRow? && r.id in ids {
      var i :| 0 <= i < |ids| && ids[i] == r.id;
      assert CustomerRows(ids)[i] == r;
    }
  }

  /** A program holds exactly those rows. */
  lemma ProgramLocksExactly(op: Operation, r: Resource)
    ensures r in Program(op) <==> NeedsRow(op, r)
  {
    hide ProductRows, CustomerRows;
    match op
    case CreateSale(products, _, _) => RowsOf(InOrder(products), r);
    case VoidSale(_, products, _) => RowsOf(InOrder(products), r);
    case RecomputeStock(tracked) => RowsOf(InOrder(tracked), r);
    case RecomputeBalances(customers) => RowsOf(InOrder(customers), r);
    case StockOperation(_) =>
    case CreditOperation(_, _) =>
    case ConfirmReceipt(_, lines) => RowsOf(FirstLocks(lines), r);
  }

  /** A confirmation locks a product at the first line that names it, before any product named only later. */
  lemma {:induction false} LockedAtFirstLine(lines: seq<Id>, i: nat, j: nat) returns (a: nat)
    requires i < j < |FirstLocks(lines)|
    ensures a < |lines| && lines[a] == FirstLocks(lines)[i]
    ensures forall b :: 0 <= b <= a ==> lines[b] != FirstLocks(lines)[j]
  {
    var front, last := lines[..|lines| - 1], lines[|lines| - 1];
    if j < |FirstLocks(front)| {
      a := LockedAtFirstLine(front, i, j);
    } else {
      assert FirstLocks(front)[i] in front;
      a :| 0 <= a < |front| && front[a] == FirstLocks(front)[i];
      assert forall b :: 0 <= b < |front| ==> front[b] in front;
    }
  }

  // --- transactions -------------------------------------------------------------------------------

  /** A running transaction: its program and how many of its locks it holds. */
  datatype Txn = Txn(program: seq<Resource>, held: nat)

  type Table = map<nat, Txn>

  predicate Holds(t: Txn, r: Resource) {
    exists i :: 0 <= i < t.held && i < |t.program| && t.program[i] == r
  }

  predicate Waiting(t: Txn) { t.held < |t.program| }

  function Wants(t: Txn): Resource
    requires Waiting(t)
  {
    t.program[t.held]
  }

  predicate BlockedBy(table: Table, a: nat, b: nat) {
    a in table && b in table && a != b && Waiting(table[a]) && Holds(table[b], Wants(table[a]))
  }

  predicate Free(table: Table, a: nat)
    requires a in table && Waiting(table[a])
  {
    forall b :: b in table && b != a ==> !Holds(table[b], Wants(table[a]))
  }

  datatype Event = Begin(op: Operation) | Acquire | Finish

  function Step(table: Table, t: nat, ev: Event): Table {
    match ev
    case Begin(op) => if t in table then table else table[t := Txn(Program(op), 0)]
    case Acquire =>
      if t in table && Waiting(table[t]) && Free(table, t)
      then table[t := table[t].(held := table[t].held + 1)] else table
    case Finish => table - {t}
  }

  function Run(events: seq<(nat, Event)>): Table {
    if events == [] then map[]
    else Step(Run(events[..|events| - 1]), events[|events| - 1].0, events[|events| - 1].1)
  }

  predicate AllInLockOrder(table: Table) {
    forall t :: t in table ==> InLockOrder(table[t].program)
  }

  predicate AllOrderly(events: seq<(nat, Event)>) {
    forall i :: 0 <= i < |events| && events[i].1.Begin? ==> Orderly(events[i].1.op)
  }

  lemma {:induction false} EveryRunInLockOrder(events: seq<(nat, Event)>)
    requires AllOrderly(events)
    ensures AllInLockOrder(Run(events))
  {
    if events != [] {
      EveryRunInLockOrder(events[..|events| - 1]);
      var ev := events[|events| - 1].1;
      if ev.Begin? { ProgramsInLockOrder(ev.op); }
    }
  }

  /** Whoever blocks a waiting transaction, if it waits itself, waits for something later in the order. */
  lemma BlockerWantsLater(table: Table, a: nat, b: nat)
    requires AllInLockOrder(table) && BlockedBy(table, a, b) && Waiting(table[b])
    ensures Before(Wants(table[a]), Wants(table[b]))
  {
    var i :| 0 <= i < table[b].held && i < |table[b].program| && table[b].program[i] == Wants(table[a]);
  }

  /** Each transaction waits for the next one. */
  predicate WaitChain(table: Table, ts: seq<nat>) {
    forall i :: 0 <= i < |ts| - 1 ==> BlockedBy(table, ts[i], ts[i + 1])
  }

  lemma {:induction false} ChainWantsLater(table: Table, ts: seq<nat>, k: nat)
    requires AllInLockOrder(table) && WaitChain(table, ts) && 0 < k < |ts|
    requires forall i :: 0 <= i < |ts| ==> ts[i] in table && Waiting(table[ts[i]])
    ensures Before(Wants(table[ts[0]]), Wants(table[ts[k]]))
  {
    BlockerWantsLater(table, ts[k - 1], ts[k]);
    if k > 1 { ChainWantsLater(table, ts, k - 1); }
  }

  predicate WaitCycle(table: Table, ts: seq<nat>) {
    |ts| > 1 && WaitChain(table, ts) && ts[0] == ts[|ts| - 1]
  }

  /** No reachable set of orderly transactions waits in a cycle. */
  lemma NoWaitCycle(events: seq<(nat, Event)>, ts: seq<nat>)
    requires AllOrderly(events)
    ensures !WaitCycle(Run(events), ts)
  {
    var table := Run(events);
    EveryRunInLockOrder(events);
    if WaitCycle(table, ts) {
      forall i | 0 <= i < |ts| ensures ts[i] in table && Waiting(table[ts[i]]) {
        assert BlockedBy(table, ts[if i == |ts| - 1 then 0 else i], ts[if i == |ts| - 1 then 1 else i + 1]);
      }
      ChainWantsLater(table, ts, |ts| - 1);
    }
  }

  lemma {:induction false} LatestWanter(table: Table, ts: set<nat>) returns (t: nat)
    requires ts != {} && forall x :: x in ts ==> x in table && Waiting(table[x])
    ensures t in ts && forall x :: x in ts ==> !Before(Wants(table[t]), Wants(table[x]))
  {
    var x :| x in ts;
    var rest := ts - {x};
    if rest == {} {
      assert ts == {x};
      t := x;
    } else {
      var y := LatestWanter(table, rest);
      t := if Before(Wants(table[y]), Wants(table[x])) then x else y;
      assert forall z :: z in ts ==> z == x || z in rest;
    }
  }

  /** Some transaction can always go on: it has all its locks, or the next one is free. */
  lemma SomeoneCanGoOn(events: seq<(nat, Event)>)
    requires AllOrderly(events) && Run(events) != map[]
    ensures exists t :: t in Run(events) && (Waiting(Run(events)[t]) ==> Free(Run(events), t))
  {
    var table := Run(events);
    EveryRunInLockOrder(events);
    var ts := set t | t in table && Waiting(table[t]);
    if ts == {} {
      var t :| t in table;
      assert t !in ts;
    } else {
      var t := LatestWanter(table, ts);
      if !Free(table, t) {
        var b :| b in table && b != t && Holds(table[b], Wants(table[t]));
        assert BlockedBy(table, t, b);
        if Waiting(table[b]) {
          assert b in ts;
          BlockerWantsLater(table, t, b);
        }
      }
    }
  }

  // --- confirmations in line order ------------------------------------------------------------------

  /** The first n locks of transaction t, taken one after another. */
  function Acquires(t: nat, n: nat): seq<(nat, Event)> { seq(n, _ => (t, Acquire)) }

  lemma RunSnoc(events: seq<(nat, Event)>, t: nat, ev: Event)
    ensures Run(events + [(t, ev)]) == Step(Run(events), t, ev)
  {
    assert (events + [(t, ev)])[..|events|] == events;
  }

  /** A transaction on its own gets every lock it asks for. */
  lemma {:induction false} AloneAcquires(op: Operation, n: nat)
    requires n <= |Program(op)|
    ensures Run([(0, Begin(op))] + Acquires(0, n)) == map[0 := Txn(Program(op), n)]
  {
    hide Program;
    if n == 0 {
      assert [(0, Begin(op))] + Acquires(0, 0) == [] + [(0, Begin(op))];
      RunSnoc([], 0, Begin(op));
    } else {
      AloneAcquires(op, n - 1);
      assert [(0, Begin(op))] + Acquires(0, n) == ([(0, Begin(op))] + Acquires(0, n - 1)) + [(0, Acquire)];
      RunSnoc([(0, Begin(op))] + Acquires(0, n - 1), 0, Acquire);
    }
  }

  /** A set has only one ascending listing. */
  lemma {:induction false} OnlyListing(a: seq<nat>, b: seq<nat>)
    requires Ascending(a) && Ascending(b) && forall x :: x in a <==> x in b
    ensures a == b
  {
    assert b != [] ==> b[0] in b;
    if a != [] {
      assert a[0] in b && b[0] in a;
      assert a[0] == b[0];
      forall x ensures x in a[1..] <==> x in b[1..] {
        assert x in a <==> x == a[0] || x in a[1..];
        assert x in b <==> x == b[0] || x in b[1..];
      }
      OnlyListing(a[1..], b[1..]);
      assert a == [a[0]] + a[1..] && b == [b[0]] + b[1..];
    }
  }

  lemma PairInOrder(p: Id, q: Id)
    requires q < p
    ensures InOrder({p, q}) == [q, p]
  {
    var r := InOrder({p, q});
    assert q in r && p in r;
    OnlyListing(r, [q, p]);
  }

  /** The confirmation takes its first j products, then a sale of p and q takes q. */
  function Collision(receipt: Id, lines: seq<Id>, j: nat, p: Id, q: Id): seq<(nat, Event)> {
    [(0, Begin(ConfirmReceipt(receipt, lines)))] + Acquires(0, j + 1) + [(1, Begin(CreateSale({p, q}, None, 0)))]
      + [(1, Acquire)]
  }

  lemma CollisionTable(receipt: Id, lines: seq<Id>, j: nat, p: Id, q: Id)
    requires q < p && j < |FirstLocks(lines)| && FirstLocks(lines)[j] == q
    ensures
      var confirming := Txn(Program(ConfirmReceipt(receipt, lines)), j + 1);
      Run(Collision(receipt, lines, j, p, q))
        == map[0 := confirming, 1 := Txn([ProductRow(q), ProductRow(p), UniqueKey(0)], 1)]
  {
    hide InOrder, Run, FirstLocks;
    var confirm, sale := ConfirmReceipt(receipt, lines), CreateSale({p, q}, None, 0);
    PairInOrder(p, q);
    assert Program(sale) == [ProductRow(q), ProductRow(p), UniqueKey(0)];
    AloneAcquires(confirm, j + 1);
    var held := [(0, Begin(confirm))] + Acquires(0, j + 1);
    RunSnoc(held, 1, Begin(sale));
    RunSnoc(held + [(1, Begin(sale))], 1, Acquire);
    NotYetHeld(receipt, lines, j);
  }

  lemma NotYetHeld(receipt: Id, lines: seq<Id>, j: nat)
    requires j < |FirstLocks(lines)|
    ensures j + 1 < |Program(ConfirmReceipt(receipt, lines))|
    ensures Program(ConfirmReceipt(receipt, lines))[j + 1] == ProductRow(FirstLocks(lines)[j])
    ensures !Holds(Txn(Program(ConfirmReceipt(receipt, lines)), j + 1), ProductRow(FirstLocks(lines)[j]))
  {
    var program := Program(ConfirmReceipt(receipt, lines));
    assert forall k :: 0 <= k < j ==> program[k + 1] == ProductRow(FirstLocks(lines)[k]);
  }

  /** Whenever p is locked before q although q comes first in id order, a sale of the two can deadlock with it. */
  lemma CollisionDeadlocks(receipt: Id, lines: seq<Id>, i: nat, j: nat)
    requires i < j < |FirstLocks(lines)| && FirstLocks(lines)[j] < FirstLocks(lines)[i]
    ensures WaitCycle(Run(Collision(receipt, lines, j, FirstLocks(lines)[i], FirstLocks(lines)[j])), [0, 1, 0])
  {
    hide Run, FirstLocks, Program;
    var p, q := FirstLocks(lines)[i], FirstLocks(lines)[j];
    CollisionTable(receipt, lines, j, p, q);
    NotYetHeld(receipt, lines, i);
    NotYetHeld(receipt, lines, j);
    var table := Run(Collision(receipt, lines, j, p, q));
    assert table[0].program[i + 1] == ProductRow(p) && Holds(table[0], ProductRow(p));
    assert table[1].program[0] == ProductRow(q) && Holds(table[1], ProductRow(q));
    assert BlockedBy(table, 0, 1) && BlockedBy(table, 1, 0);
  }

  /** The only confirmation in the run is this one; it may come any number of times. */
  predicate OnlyConfirmation(events: seq<(nat, Event)>, receipt: Id, lines: seq<Id>) {
    forall k :: 0 <= k < |events| && events[k].1.Begin? && events[k].1.op.ConfirmReceipt? ==>
      events[k].1.op == ConfirmReceipt(receipt, lines)
  }

  ghost predicate Safe(receipt: Id, lines: seq<Id>) {
    forall events, ts :: OnlyConfirmation(events, receipt, lines) ==> !WaitCycle(Run(events), ts)
  }

  /**
   * A receipt confirmation can run beside any sales, voids, recomputes and single-row operations
   * without a wait cycle exactly when its lines lock their products in ascending order.
   */
  lemma ConfirmationSafeIff(receipt: Id, lines: seq<Id>)
    ensures Safe(receipt, lines) <==> Ascending(FirstLocks(lines))
  {
    hide WaitCycle, FirstLocks, Run;
    if Ascending(FirstLocks(lines)) {
      forall events, ts | OnlyConfirmation(events, receipt, lines) ensures !WaitCycle(Run(events), ts) {
        NoWaitCycle(events, ts);
      }
    } else {
      var locks := FirstLocks(lines);
      var i, j :| 0 <= i < j < |locks| && locks[i] >= locks[j];
      CollisionDeadlocks(receipt, lines, i, j);
      assert OnlyConfirmation(Collision(receipt, lines, j, locks[i], locks[j]), receipt, lines);
    }
  }
}
