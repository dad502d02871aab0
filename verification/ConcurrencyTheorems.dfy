/** What callers are promised of keyed requests, in every interleaving. */
module ConcurrencyTheorems {
  import opened Prelude
  import opened SaleRecords
  import opened Shop
  import opened Concurrency
  import opened ConcurrencyFrames
  import opened ConcurrencyInvariant
  import ShopInvariant
  import ShopTheorems
  import Rows = LockOrder

  /** The rows a request locks, followed by its key, are its program in the global lock order. */
  lemma LocksAreProgram(req: Request, key: Id)
    ensures
      var op :=
        if req.SaleOf? then Rows.CreateSale(SoldProducts(req.sale), req.sale.customer, key)
        else Rows.CreditOperation(Debtor(req), Some(key));
      Locks(req) + [Rows.UniqueKey(key)] == Rows.Program(op)
  {
  }

  /** A draft made under the locks is, until the commit, what the request would draft at that moment. */
  lemma DraftStaysTrue(reqs: seq<Request>, base: State, events: seq<Event>, r: nat)
    requires WellFormed(reqs) && ShopInvariant.Inv(base) && r < |reqs|
    requires var pc := Concurrency.Run(reqs, base, events).pc[r]; pc.Drafted? || pc.Inserted?
    ensures
      var w := Concurrency.Run(reqs, base, events);
      if reqs[r].SaleOf?
      then SchemaOk(reqs[r].sale) && w.pc[r].draft.SaleDraft?
        && PriceSale(w.shop, reqs[r].sale) == Ok(w.pc[r].draft.sale)
      else w.pc[r].draft.EntryDraft? && Debtor(reqs[r]) in w.shop.book.customers
           && w.shop.book.customers[Debtor(reqs[r])].balance == w.pc[r].draft.balance
  {
    hide Concurrency.Run, ShopInvariant.Inv, PriceSale;
    EveryRunKeepsInv(reqs, base, events);
    assert PositionOk(reqs[r], Concurrency.Run(reqs, base, events).shop, Concurrency.Run(reqs, base, events).pc[r]);
  }

  // --- every answer is that of one stroke ---------------------------------------------------------------

  /** Still taking row locks: a missing row or an archived customer refuses the request here. */
  predicate TakingLocks(req: Request, pc: Pc) { pc.Locking? && pc.held < |Locks(req)| }

  lemma AtomicIsStep(st: State, req: Request)
    ensures Atomic(st, req).0 == Shop.Step(st, OpOf(req))
  {
    hide Attempt, Lookup;
    if Lookup(st, req).Some? { TakenKeyChangesNothing(st, req); }
  }

  /** The customer's row comes after all the products. */
  lemma ProductsLockedFirst(req: SaleRequest, n: nat, i: nat)
    requires n < |Locks(SaleOf(req))| && Locks(SaleOf(req))[n].CustomerRow? && i < |req.lines|
    ensures exists k :: 0 <= k < n && Locks(SaleOf(req))[k] == Rows.ProductRow(req.lines[i].product)
  {
    var ids := SoldProducts(req);
    assert req.lines[i].product in ids;
    var k :| 0 <= k < |InOrder(ids)| && InOrder(ids)[k] == req.lines[i].product;
    assert Locks(SaleOf(req))[k] == Rows.ProductRow(req.lines[i].product);
  }

  /** If the key is not taken, what stops a request at a row stops the whole operation in the same way. */
  lemma LockFaultIsOperation(st: State, req: Request, n: nat)
    requires (req.SaleOf? ==> SchemaOk(req.sale)) && n < |Locks(req)| && LocksHold(req, st, n) && Lookup(st, req).None?
    ensures !RowExists(st, Locks(req)[n]) ==> Attempt(st, OpOf(req)) == Err(NotFound)
    ensures RowRefused(st, req, Locks(req)[n]) ==> Attempt(st, OpOf(req)) == Err(CustomerArchived)
  {
    hide Locks, ResolveSoldAt, RecordSale, LineTotals, Items, Payments, Charged;
    if req.SaleOf? {
      OnlySoldAreLocked(req.sale, n);
      var row := Locks(req)[n];
      if row.CustomerRow? {
        forall i | 0 <= i < |req.sale.lines| ensures req.sale.lines[i].product in st.stock.products {
          ProductsLockedFirst(req.sale, n, i);
        }
      } else if !RowExists(st, row) {
        var i :| 0 <= i < |req.sale.lines| && req.sale.lines[i].product == row.id;
        assert !ProductsExist(st.stock.products, req.sale.lines);
      }
    } else {
      CustomerIsLocked(req, n);
    }
  }

  lemma CustomerIsLocked(req: Request, n: nat)
    requires !req.SaleOf? && n < |Locks(req)|
    ensures Locks(req)[n] == Rows.CustomerRow(Debtor(req))
  {
  }

  /**
   * Whenever a request is answered, the answer and the shop are those of the whole operation run at
   * one stroke at that moment, with exactly one exception: a row refuses the request while its key
   * is already taken. Until then, and in that case, nothing is written; and a refusal at a row names
   * a row that is missing, or a customer who is archived.
   */
  lemma AnswerIsAtomic(reqs: seq<Request>, base: State, w: World, r: nat)
    requires WellFormed(reqs) && |w.pc| == |reqs| && r < |reqs| && Inv(reqs, base, w) && !w.pc[r].Done?
    ensures
      var w' := Advance(reqs, w, r);
      && (!w'.pc[r].Done? || TakingLocks(reqs[r], w.pc[r]) ==> w'.shop == w.shop)
      && (w'.pc[r].Done? ==>
            (Atomic(w.shop, reqs[r]) == (w'.shop, w'.pc[r].answer)
             <==> !(TakingLocks(reqs[r], w.pc[r]) && Lookup(w.shop, reqs[r]).Some?)))
      && (w'.pc[r].Done? && TakingLocks(reqs[r], w.pc[r]) ==>
            var row := Locks(reqs[r])[w.pc[r].held];
            || (w'.pc[r].answer == Refused(NotFound) && !RowExists(w.shop, row))
            || (w'.pc[r].answer == Refused(CustomerArchived) && RowRefused(w.shop, reqs[r], row)))
  {
    hide Inv, Lookup, MakeDraft, Commit, KeyInFlight, ResolveSoldAt, Locks, IsFree, RowExists, RowRefused, Attempt,
      DraftHolds, PriceSale, LocksHold;
    var req := reqs[r];
    HeldElsewhere(reqs, base, w, r);
    match w.pc[r]
    case Start =>
      if req.SaleOf? && Lookup(w.shop, req).None? && ResolveSoldAt(req.sale).Err? {
        LateDateIsRefused(reqs, w.shop, r);
      }
    case Locking(n) =>
      if n < |Locks(req)| {
        if Lookup(w.shop, req).None? { LockFaultIsOperation(w.shop, req, n); }
      } else if Lookup(w.shop, req).None? && MakeDraft(w.shop, req).Err? {
        RefusedDraftIsOperation(w.shop, req);
      }
    case Inserted(draft) => CommitIsOperation(w.shop, req, draft);
    case _ =>
  }

  lemma LateDateIsRefused(reqs: seq<Request>, st: State, r: nat)
    requires WellFormed(reqs) && r < |reqs| && reqs[r].SaleOf? && Lookup(st, reqs[r]).None?
    requires ResolveSoldAt(reqs[r].sale).Err?
    ensures Attempt(st, OpOf(reqs[r])) == Err(ResolveSoldAt(reqs[r].sale).error)
  {
    hide ResolveSoldAt, RecordSale;
  }

  /**
   * In every run, a step that answers a request answers as the whole operation at that moment would,
   * unless a row refuses it while its key is taken; then a replay or a conflict would have been due.
   */
  lemma AnsweredAtomicallyIff(reqs: seq<Request>, base: State, events: seq<Event>, r: nat)
    requires WellFormed(reqs) && ShopInvariant.Inv(base) && r < |reqs|
    requires var w := Concurrency.Run(reqs, base, events); !w.pc[r].Done? && Advance(reqs, w, r).pc[r].Done?
    ensures
      var w := Concurrency.Run(reqs, base, events);
      var w' := Advance(reqs, w, r);
      var blocked := TakingLocks(reqs[r], w.pc[r]) && Lookup(w.shop, reqs[r]).Some?;
      && (Atomic(w.shop, reqs[r]) == (w'.shop, w'.pc[r].answer) <==> !blocked)
      && (blocked ==>
            && w'.pc[r].answer.Refused? && w'.shop == w.shop
            && Atomic(w.shop, reqs[r]) == (w.shop, Replay(w.shop, reqs[r], Lookup(w.shop, reqs[r]).value)))
  {
    hide Inv, Concurrency.Run, Advance, ShopInvariant.Inv, WellFormed, Lookup, Attempt, TakingLocks;
    EveryRunKeepsInv(reqs, base, events);
    AnswerIsAtomic(reqs, base, Concurrency.Run(reqs, base, events), r);
  }

  /** The operations of a run in the order they took effect. */
  function Serial(reqs: seq<Request>, base: State, events: seq<Event>): seq<Op> {
    if events == [] then []
    else
      var before, ev := events[..|events| - 1], events[|events| - 1];
      var w, w' := Concurrency.Run(reqs, base, before), Concurrency.Run(reqs, base, events);
      match ev
      case Go(r) =>
        if r < |reqs| && !w.pc[r].Done? && w'.pc[r].Done? && !TakingLocks(reqs[r], w.pc[r])
        then Serial(reqs, base, before) + [OpOf(reqs[r])] else Serial(reqs, base, before)
      case Stop(_) => Serial(reqs, base, before)
      case Other(op) =>
        if Unkeyed(op) && Untouched(reqs, w.pc, Touches(w.shop, op))
        then Serial(reqs, base, before) + [op] else Serial(reqs, base, before)
  }

  lemma ShopRunSnoc(base: State, ops: seq<Op>, op: Op)
    ensures Shop.Run(base, ops + [op]) == Shop.Step(Shop.Run(base, ops), op)
  {
    assert (ops + [op])[..|ops|] == ops;
  }

  /** The shop after any interleaving is the shop after running the same operations one at a time. */
  lemma {:induction false} EveryRunIsSerial(reqs: seq<Request>, base: State, events: seq<Event>)
    requires WellFormed(reqs) && ShopInvariant.Inv(base)
    ensures Concurrency.Run(reqs, base, events).shop == Shop.Run(base, Serial(reqs, base, events))
  {
    hide Advance, Inv, ShopInvariant.Inv, WellFormed, Shop.Step, TakingLocks, Touches, Untouched, Atomic, Shop.Run;
    if events == [] {
      NoOps(base);
    } else {
      var before, ev := events[..|events| - 1], events[|events| - 1];
      EveryRunIsSerial(reqs, base, before);
      EveryRunKeepsInv(reqs, base, before);
      var w := Concurrency.Run(reqs, base, before);
      match ev
      case Go(r) =>
        if r < |reqs| {
          if w.pc[r].Done? {
            DoneStays(reqs, w, r);
          } else {
            AnswerIsAtomic(reqs, base, w, r);
            AtomicIsStep(w.shop, reqs[r]);
            ShopRunSnoc(base, Serial(reqs, base, before), OpOf(reqs[r]));
          }
        }
      case Stop(_) =>
      case Other(op) => ShopRunSnoc(base, Serial(reqs, base, before), op);
    }
  }

  lemma NoOps(base: State)
    ensures Shop.Run(base, []) == base
  {
  }

  lemma DoneStays(reqs: seq<Request>, w: World, r: nat)
    requires |w.pc| == |reqs| && r < |reqs| && w.pc[r].Done?
    ensures Advance(reqs, w, r) == w
  {
  }

  // --- exactly once -------------------------------------------------------------------------------------

  /** The row a request was told about. */
  predicate Names(pc: Pc, row: nat) {
    pc == Done(Recorded(row)) || pc == Done(Replayed(row))
  }

  lemma NamedIsFound(req: Request, st: State, pc: Pc, i: nat)
    requires UniqueKeys(st) && PositionOk(req, st, pc) && Names(pc, i) && KeyOf(req).Some?
    ensures Lookup(st, req) == Some(i) && DigestAt(st, req, i) == DigestOf(req)
  {
  }

  lemma SameLookup(st: State, a: Request, b: Request)
    requires SameKey(a, b)
    ensures Lookup(st, a) == Lookup(st, b)
  {
  }

  /**
   * Any two of any number of requests sharing a key, in any interleaving with any failures and any
   * other operations: both successful answers name the one row under the key, their payloads are
   * equal, and if the row is new exactly one request wrote it, which alone was told so.
   */
  lemma ExactlyOnce(reqs: seq<Request>, base: State, events: seq<Event>, a: nat, b: nat, i: nat, j: nat)
    requires WellFormed(reqs) && ShopInvariant.Inv(base) && a < |reqs| && b < |reqs| && SameKey(reqs[a], reqs[b])
    requires var pc := Concurrency.Run(reqs, base, events).pc; Names(pc[a], i) && Names(pc[b], j)
    ensures
      var w := Concurrency.Run(reqs, base, events);
      && i == j && Lookup(w.shop, reqs[a]) == Some(i) && UniqueKeys(w.shop)
      && DigestAt(w.shop, reqs[a], i) == DigestOf(reqs[a]) == DigestOf(reqs[b])
      && (i >= TableSize(base, reqs[a]) ==> exists c :: Wrote(reqs, w.pc, c, reqs[a].SaleOf?, i))
      && (forall c, d :: Wrote(reqs, w.pc, c, reqs[a].SaleOf?, i) && Wrote(reqs, w.pc, d, reqs[a].SaleOf?, i) ==>
        c == d)
  {
    hide Concurrency.Run, ShopInvariant.Inv, PositionOk, Extends, Lookup;
    EveryRunKeepsInv(reqs, base, events);
    var w := Concurrency.Run(reqs, base, events);
    InvUniqueKeys(w.shop);
    assert PositionOk(reqs[a], w.shop, w.pc[a]) && PositionOk(reqs[b], w.shop, w.pc[b]);
    NamedIsFound(reqs[a], w.shop, w.pc[a], i);
    NamedIsFound(reqs[b], w.shop, w.pc[b], j);
    SameLookup(w.shop, reqs[a], reqs[b]);
    if i >= TableSize(base, reqs[a]) {
      assert HasAuthor(reqs, w.pc, reqs[a].SaleOf?, i);
    }
  }

  /** The re-read after a lost race always finds the winner: the `raise` behind it is dead code. */
  lemma RereadFindsWinner(reqs: seq<Request>, base: State, events: seq<Event>, r: nat)
    requires WellFormed(reqs) && ShopInvariant.Inv(base) && r < |reqs|
    requires Concurrency.Run(reqs, base, events).pc[r] == Reread
    ensures
      var w := Concurrency.Run(reqs, base, events);
      Lookup(w.shop, reqs[r]).Some? && Advance(reqs, w, r).pc[r] != Done(CutOff)
  {
    hide Concurrency.Run, ShopInvariant.Inv;
    EveryRunKeepsInv(reqs, base, events);
    assert PositionOk(reqs[r], Concurrency.Run(reqs, base, events).shop, Reread);
  }

  lemma ChangeIsTold(reqs: seq<Request>, w: World, r: nat)
    requires |w.pc| == |reqs| && r < |reqs| && Advance(reqs, w, r).shop != w.shop
    ensures Advance(reqs, w, r).pc[r].Done? && Advance(reqs, w, r).pc[r].answer.Recorded?
  {
    hide Commit, MakeDraft, Lookup;
  }

  lemma StepKeepsDone(reqs: seq<Request>, w: World, ev: Event, r: nat)
    requires |w.pc| == |reqs| && r < |reqs| && w.pc[r].Done?
    ensures Concurrency.Step(reqs, w, ev).pc[r] == w.pc[r]
  {
    hide Shop.Step, Advance;
    if ev.Go? && ev.request < |reqs| {
      if ev.request == r { DoneStays(reqs, w, r); } else { OthersStay(reqs, w, ev.request, r); }
    }
  }

  lemma OthersStay(reqs: seq<Request>, w: World, r: nat, o: nat)
    requires |w.pc| == |reqs| && r < |reqs| && o < |reqs| && o != r
    ensures Advance(reqs, w, r).pc[o] == w.pc[o]
  {
    hide Commit, MakeDraft, Lookup, Replay, IsFree, KeyInFlight, Locks, ResolveSoldAt, RowExists, RowRefused;
  }

  lemma {:induction false} AnswersStay(reqs: seq<Request>, base: State, events: seq<Event>, k: nat, r: nat)
    requires k <= |events| && r < |reqs| && Concurrency.Run(reqs, base, events[..k]).pc[r].Done?
    ensures Concurrency.Run(reqs, base, events).pc[r] == Concurrency.Run(reqs, base, events[..k]).pc[r]
    decreases |events|
  {
    hide Concurrency.Step;
    if k == |events| {
      assert events[..k] == events;
    } else {
      var before := events[..|events| - 1];
      assert before[..k] == events[..k];
      AnswersStay(reqs, base, before, k, r);
      StepKeepsDone(reqs, Concurrency.Run(reqs, base, before), events[|events| - 1], r);
    }
  }

  /** A request that is not told in the end that it wrote a row has, at no step of its own, changed the shop. */
  lemma RefusedWritesNothing(reqs: seq<Request>, base: State, events: seq<Event>, r: nat, k: nat)
    requires WellFormed(reqs) && ShopInvariant.Inv(base) && r < |reqs| && k < |events|
    requires events[k] == Go(r) || events[k] == Stop(r)
    requires var pc := Concurrency.Run(reqs, base, events).pc[r]; !(pc.Done? && pc.answer.Recorded?)
    ensures Concurrency.Run(reqs, base, events[..k + 1]).shop == Concurrency.Run(reqs, base, events[..k]).shop
  {
    hide ShopInvariant.Inv, Inv, Advance, WellFormed, Shop.Step;
    EveryRunKeepsInv(reqs, base, events[..k]);
    assert events[..k + 1][..k] == events[..k];
    var w := Concurrency.Run(reqs, base, events[..k]);
    if events[k] == Go(r) && Advance(reqs, w, r).shop != w.shop {
      ChangeIsTold(reqs, w, r);
      AnswersStay(reqs, base, events, k + 1, r);
    }
  }

  /** A conflict means that the key is taken with another payload: by a row that was there, or by another request. */
  lemma ConflictHasCause(reqs: seq<Request>, base: State, events: seq<Event>, r: nat)
    requires WellFormed(reqs) && ShopInvariant.Inv(base) && r < |reqs|
    requires Concurrency.Run(reqs, base, events).pc[r] == Done(Conflict)
    ensures
      var w := Concurrency.Run(reqs, base, events);
      var found := Lookup(w.shop, reqs[r]);
      && found.Some? && DigestAt(w.shop, reqs[r], found.value) != DigestOf(reqs[r])
      && (found.value >= TableSize(base, reqs[r]) ==> exists o: nat ::
            o != r && Wrote(reqs, w.pc, o, reqs[r].SaleOf?, found.value) && DigestOf(reqs[o]) != DigestOf(reqs[r]))
  {
    hide Concurrency.Run, ShopInvariant.Inv, Extends;
    EveryRunKeepsInv(reqs, base, events);
    var w := Concurrency.Run(reqs, base, events);
    assert PositionOk(reqs[r], w.shop, w.pc[r]);
    var i := Lookup(w.shop, reqs[r]).value;
    if i >= TableSize(base, reqs[r]) {
      assert HasAuthor(reqs, w.pc, reqs[r].SaleOf?, i);
      var o :| 0 <= o < |reqs| && Wrote(reqs, w.pc, o, reqs[r].SaleOf?, i);
      assert PositionOk(reqs[o], w.shop, w.pc[o]);
    }
  }

  // --- one set of movements and charges -------------------------------------------------------------------

  /** The steps of the requests that share a key with `probe` which changed the shop: before and after each. */
  function Changes(reqs: seq<Request>, base: State, events: seq<Event>, probe: Request): seq<(State, State)> {
    if events == [] then []
    else
      var before, ev := events[..|events| - 1], events[|events| - 1];
      var w, w' := Concurrency.Run(reqs, base, before), Concurrency.Run(reqs, base, events);
      if ev.Go? && ev.request < |reqs| && SameKey(probe, reqs[ev.request]) && w'.shop != w.shop
      then Changes(reqs, base, before, probe) + [(w.shop, w'.shop)]
      else Changes(reqs, base, before, probe)
  }

  /** A step of a request changes the shop only by its commit, and then its key was new. */
  lemma ChangeIsCommit(reqs: seq<Request>, base: State, w: World, r: nat)
    requires WellFormed(reqs) && |w.pc| == |reqs| && r < |reqs| && Inv(reqs, base, w)
    requires Advance(reqs, w, r).shop != w.shop
    ensures w.pc[r].Inserted? && Lookup(w.shop, reqs[r]).None? && DraftHolds(w.shop, reqs[r], w.pc[r].draft)
    ensures Commit(w.shop, reqs[r], w.pc[r].draft) == Ok(Advance(reqs, w, r).shop)
  {
    hide ShopInvariant.Inv, Commit, DraftHolds, Lookup, MakeDraft;
    HeldElsewhere(reqs, base, w, r);
  }

  lemma LookupAfterCommit(reqs: seq<Request>, base: State, w: World, r: nat, probe: Request)
    requires WellFormed(reqs) && |w.pc| == |reqs| && r < |reqs| && Inv(reqs, base, w)
    requires Advance(reqs, w, r).shop != w.shop
    requires KeyOf(probe).Some?
    ensures
      var shop' := Advance(reqs, w, r).shop;
      if SameKey(probe, reqs[r]) then Lookup(w.shop, probe).None?
        && Lookup(shop', probe) == Some(TableSize(w.shop, probe))
      else Lookup(shop', probe).Some? <==> Lookup(w.shop, probe).Some?
  {
    hide ShopInvariant.Inv, Commit, DraftHolds, Lookup, Inv, Advance;
    ChangeIsCommit(reqs, base, w, r);
    AdvanceKeepsInv(reqs, base, w, r);
    var shop' := Advance(reqs, w, r).shop;
    UniqueInShop(reqs, base, Advance(reqs, w, r));
    CommitExtends(w.shop, reqs[r], w.pc[r].draft);
    if SameKey(probe, reqs[r]) {
      SameLookup(w.shop, probe, reqs[r]);
      NewKeyFound(w.shop, shop', reqs[r], probe);
    } else {
      KeysAfter(w.shop, shop', reqs[r], probe);
      if Lookup(w.shop, probe).Some? { LookupStable(w.shop, shop', probe); }
    }
  }

  lemma UniqueInShop(reqs: seq<Request>, base: State, w: World)
    requires |w.pc| == |reqs| && Inv(reqs, base, w)
    ensures UniqueKeys(w.shop)
  {
    InvUniqueKeys(w.shop);
  }

  lemma LookupAfterOther(reqs: seq<Request>, base: State, w: World, op: Op, probe: Request)
    requires |w.pc| == |reqs| && Inv(reqs, base, w)
    requires Unkeyed(op) && Untouched(reqs, w.pc, Touches(w.shop, op))
    ensures Lookup(Shop.Step(w.shop, op), probe).Some? <==> Lookup(w.shop, probe).Some?
  {
    hide ShopInvariant.Inv, Shop.Step, Lookup, Inv, Untouched, Touches;
    OtherKeepsInv(reqs, base, w, op);
    UniqueInShop(reqs, base, w.(shop := Shop.Step(w.shop, op)));
    NoKeyTouched(w.shop, op);
    OtherFrame(w.shop, op, Rows.UniqueKey(0));
    if Lookup(w.shop, probe).Some? {
      LookupStable(w.shop, Shop.Step(w.shop, op), probe);
    } else {
      LookupAbsent(w.shop, Shop.Step(w.shop, op), probe);
    }
  }

  /** Over a run, the requests sharing a key change the shop once if the key is new to it, and otherwise never. */
  lemma {:induction false} ChangesAtMostOnce(reqs: seq<Request>, base: State, events: seq<Event>, probe: Request)
    requires WellFormed(reqs) && ShopInvariant.Inv(base) && KeyOf(probe).Some?
    ensures
      var w := Concurrency.Run(reqs, base, events);
      && |Changes(reqs, base, events, probe)|
        == (if Lookup(base, probe).None? && Lookup(w.shop, probe).Some? then 1 else 0)
      && (Lookup(base, probe).Some? ==> Lookup(w.shop, probe).Some?)
  {
    hide ShopInvariant.Inv, Lookup, Inv, Advance, WellFormed, SameKey, Untouched, Touches, Shop.Step;
    if events != [] {
      var before, ev := events[..|events| - 1], events[|events| - 1];
      ChangesAtMostOnce(reqs, base, before, probe);
      EveryRunKeepsInv(reqs, base, before);
      var w := Concurrency.Run(reqs, base, before);
      match ev
      case Go(r) =>
        if r < |reqs| && Advance(reqs, w, r).shop != w.shop { LookupAfterCommit(reqs, base, w, r, probe); }
      case Stop(_) =>
      case Other(op) =>
        if Unkeyed(op) && Untouched(reqs, w.pc, Touches(w.shop, op)) { LookupAfterOther(reqs, base, w, op, probe); }
    }
  }

  /** What one sale does to a product's stock and to a customer's balance, and nothing more. */
  ghost predicate OneSale(a: State, b: State, sale: Sale, p: Id, c: Id) {
    && b.sales == a.sales + [sale]
    && (p in a.stock.products ==>
          && p in b.stock.products
          && var taken := if a.stock.products[p].tracked then Sum(sale.items, ShopInvariant.QuantityOf(p)) else 0;
             b.stock.products[p].quantity == a.stock.products[p].quantity - taken)
    && (c in a.book.customers ==>
          && c in b.book.customers
          && var charged := if sale.customer == Some(c) then Charged(sale.payments) else 0;
             b.book.customers[c].balance == a.book.customers[c].balance + charged)
  }

  lemma CommitIsOneSale(st: State, req: SaleRequest, sale: Sale, p: Id, c: Id)
    requires SchemaOk(req) && PriceSale(st, req) == Ok(sale) && Commit(st, SaleOf(req), SaleDraft(sale)).Ok?
    ensures OneSale(st, Commit(st, SaleOf(req), SaleDraft(sale)).value, sale, p, c)
  {
    hide RecordSale, PriceSale, Charged, Sum;
    ShopInvariant.PricedSaleReconciles(st, req);
    ShopTheorems.RecordedRow(st, sale);
    if p in st.stock.products { ShopTheorems.SaleTakesOut(st, sale, p); }
    if c in st.book.customers { ShopTheorems.RecordedBalance(st, sale, c); }
  }

  lemma SaleChange(reqs: seq<Request>, base: State, w: World, r: nat, p: Id, c: Id)
    requires WellFormed(reqs) && |w.pc| == |reqs| && r < |reqs| && Inv(reqs, base, w)
    requires Advance(reqs, w, r).shop != w.shop
    requires reqs[r].SaleOf?
    ensures
      var shop' := Advance(reqs, w, r).shop;
      |shop'.sales| == |w.shop.sales| + 1 && OneSale(w.shop, shop', shop'.sales[|w.shop.sales|], p, c)
  {
    hide ShopInvariant.Inv, Commit, PriceSale, Inv, Advance, Lookup, Charged, Sum;
    ChangeIsCommit(reqs, base, w, r);
    CommitIsOneSale(w.shop, reqs[r].sale, w.pc[r].draft.sale, p, c);
  }

  /** The sale under a key, whatever its status became. */
  predicate SameButStatus(a: Sale, b: Sale) { a == b.(status := a.status) }

  lemma {:induction false} ChangeIsThatSale(
    reqs: seq<Request>, base: State, events: seq<Event>, probe: Request, p: Id, c: Id)
    requires WellFormed(reqs) && ShopInvariant.Inv(base) && probe.SaleOf? && |Changes(reqs, base, events, probe)| == 1
    ensures
      var w := Concurrency.Run(reqs, base, events);
      var (a, b) := Changes(reqs, base, events, probe)[0];
      && |b.sales| == |a.sales| + 1 && |b.sales| <= |w.shop.sales|
      && OneSale(a, b, b.sales[|a.sales|], p, c)
      && Lookup(w.shop, probe) == Some(|a.sales|) && SameButStatus(w.shop.sales[|a.sales|], b.sales[|a.sales|])
  {
    hide ShopInvariant.Inv, Lookup, Inv, Advance, WellFormed, SameKey, Untouched, Touches, Shop.Step, OneSale, Extends;
    var before, ev := events[..|events| - 1], events[|events| - 1];
    ChangesAtMostOnce(reqs, base, before, probe);
    ChangesAtMostOnce(reqs, base, events, probe);
    EveryRunKeepsInv(reqs, base, before);
    EveryRunKeepsInv(reqs, base, events);
    var w, w' := Concurrency.Run(reqs, base, before), Concurrency.Run(reqs, base, events);
    if |Changes(reqs, base, before, probe)| == 1 {
      ChangeIsThatSale(reqs, base, before, probe, p, c);
      StepExtends(reqs, base, w, ev);
      UniqueInShop(reqs, base, w');
      LookupStable(w.shop, w'.shop, probe);
      StatusOnly(w.shop, w'.shop, Lookup(w.shop, probe).value);
    } else {
      LookupAfterCommit(reqs, base, w, ev.request, probe);
      KindOfKey(probe, reqs[ev.request]);
      SaleChange(reqs, base, w, ev.request, p, c);
    }
  }

  lemma KindOfKey(a: Request, b: Request)
    requires SameKey(a, b)
    ensures a.SaleOf? == b.SaleOf?
  {
  }

  lemma StatusOnly(a: State, b: State, i: nat)
    requires Extends(a, b) && i < |a.sales|
    ensures i < |b.sales| && |a.sales| <= |b.sales| && SameButStatus(b.sales[i], a.sales[i])
  {
  }

  lemma StepExtends(reqs: seq<Request>, base: State, w: World, ev: Event)
    requires WellFormed(reqs) && |w.pc| == |reqs| && Inv(reqs, base, w)
    ensures Extends(w.shop, Concurrency.Step(reqs, w, ev).shop)
  {
    hide ShopInvariant.Inv, Inv, Advance, WellFormed, Untouched, Touches, Shop.Step, Commit, DraftHolds, Lookup;
    match ev
    case Go(r) =>
      if r < |reqs| && Advance(reqs, w, r).shop != w.shop {
        ChangeIsCommit(reqs, base, w, r);
        CommitExtends(w.shop, reqs[r], w.pc[r].draft);
      }
    case Stop(_) =>
    case Other(op) =>
      NoKeyTouched(w.shop, op);
      if Unkeyed(op) { OtherFrame(w.shop, op, Rows.UniqueKey(0)); }
  }

  /**
   * However many sale requests share a key, and however they interleave with each other, with
   * failures and with everything else the shop does: together they change the shop once, by the
   * movements and the charge of one sale, the one under the key; or never, if the key was taken.
   */
  lemma OneSetOfEffects(reqs: seq<Request>, base: State, events: seq<Event>, r: nat, p: Id, c: Id)
    requires WellFormed(reqs) && ShopInvariant.Inv(base) && r < |reqs| && reqs[r].SaleOf?
    ensures
      var shop := Concurrency.Run(reqs, base, events).shop;
      var changes := Changes(reqs, base, events, reqs[r]);
      && |changes| == (if Lookup(base, reqs[r]).None? && Lookup(shop, reqs[r]).Some? then 1 else 0)
      && (|changes| == 1 ==>
            var sale := shop.sales[Lookup(shop, reqs[r]).value];
            OneSale(changes[0].0, changes[0].1, sale.(status := Completed), p, c))
  {
    hide ShopInvariant.Inv, Lookup, WellFormed, Concurrency.Run, Changes;
    ChangesAtMostOnce(reqs, base, events, reqs[r]);
    if |Changes(reqs, base, events, reqs[r])| == 1 {
      ChangeIsThatSale(reqs, base, events, reqs[r], p, c);
      ChangedToCompleted(reqs, base, events, reqs[r]);
    }
  }

  lemma {:induction false} ChangedToCompleted(reqs: seq<Request>, base: State, events: seq<Event>, probe: Request)
    requires WellFormed(reqs) && ShopInvariant.Inv(base) && probe.SaleOf? && |Changes(reqs, base, events, probe)| == 1
    ensures
      var (a, b) := Changes(reqs, base, events, probe)[0];
      |b.sales| == |a.sales| + 1 && b.sales[|a.sales|].status == Completed
  {
    hide ShopInvariant.Inv, Lookup, Inv, Advance, WellFormed, SameKey, Untouched, Touches, Shop.Step;
    var before, ev := events[..|events| - 1], events[|events| - 1];
    ChangesAtMostOnce(reqs, base, before, probe);
    ChangesAtMostOnce(reqs, base, events, probe);
    EveryRunKeepsInv(reqs, base, before);
    if |Changes(reqs, base, before, probe)| == 1 {
      ChangedToCompleted(reqs, base, before, probe);
    } else {
      var w := Concurrency.Run(reqs, base, before);
      KindOfKey(probe, reqs[ev.request]);
      ChangeIsCommit(reqs, base, w, ev.request);
      CommittedSale(w.shop, reqs[ev.request], w.pc[ev.request].draft);
    }
  }

  lemma CommittedSale(st: State, req: Request, draft: Draft)
    requires req.SaleOf? && DraftHolds(st, req, draft) && Commit(st, req, draft).Ok?
    ensures
      var b := Commit(st, req, draft).value;
      |b.sales| == |st.sales| + 1 && b.sales[|st.sales|].status == Completed
  {
    hide RecordSale, PriceSale;
    ShopTheorems.RecordedRow(st, draft.sale);
  }
}
