/** What every interleaving of receipt operations keeps. */
module ReceiptTheorems {
  import opened Prelude
  import opened Receipts
  import Inventory
  import Shop
  import ShopInvariant
  import ShopRuns
  import ShopTheorems

  // --- the invariant ------------------------------------------------------------------------------

  /** At most one extraction of a receipt runs, and only while it is PROCESSING or CANCELLED. */
  predicate RunningOk(w: World) {
    forall r: nat :: r in w.running ==> RunningAt(w, r)
  }

  predicate RunningAt(w: World, r: nat) {
    w.running[r] == 1 && r < |w.receipts| && (w.receipts[r].status == Processing || w.receipts[r].status == Cancelled)
  }

  /** An applied line points at the RESTOCK movement that carries its product, quantity and cost. */
  predicate LineOk(movements: seq<Inventory.Movement>, line: Line) {
    line.Applied? ==>
      && line.movement < |movements|
      && var m := movements[line.movement];
         m.product == line.product && m.kind == Inventory.Restocked && m.delta == line.quantity
           && m.unitCost == Some(line.unitCost)
  }

  /** Lines are undecided until the receipt is CONFIRMED, and decided from then on. */
  predicate ReceiptOk(movements: seq<Inventory.Movement>, receipt: Receipt) {
    forall i :: 0 <= i < |receipt.lines| ==>
      (receipt.lines[i].Pending? <==> receipt.status != Confirmed) && LineOk(movements, receipt.lines[i])
  }

  predicate ReceiptsOk(w: World) {
    forall r :: 0 <= r < |w.receipts| ==> ReceiptOk(w.shop.stock.movements, w.receipts[r])
  }

  /** No movement is claimed by two lines. */
  ghost predicate MovementsOnce(receipts: seq<Receipt>) {
    forall r, s, i, j ::
      (Claims(receipts, r, i) && Claims(receipts, s, j)
        && receipts[r].lines[i].movement == receipts[s].lines[j].movement)
      ==> r == s && i == j
  }

  predicate Claims(receipts: seq<Receipt>, r: int, i: int) {
    0 <= r < |receipts| && 0 <= i < |receipts[r].lines| && receipts[r].lines[i].Applied?
  }

  ghost predicate Inv(w: World) {
    RunningOk(w) && ReceiptsOk(w) && MovementsOnce(w.receipts) && ShopInvariant.Inv(w.shop)
  }

  // --- confirming ---------------------------------------------------------------------------------

  /** The outcome of deciding the first n lines, as the ledger and the lines show it. */
  ghost predicate Decided(
    st: Inventory.Stock, lines: seq<Line>, decisions: map<nat, Decision>, n: nat, st': Inventory.Stock,
    lines': seq<Line>) {
    && st.movements <= st'.movements && |lines'| == |lines|
    && (forall i :: n <= i < |lines| ==> lines'[i] == lines[i])
    && (forall i :: 0 <= i < n && i < |lines| ==>
          && LineOk(st'.movements, lines'[i])
          && if i !in decisions then lines'[i] == Skipped
             else lines'[i].Applied? && lines'[i].movement >= |st.movements|
                  && lines'[i] == Applied(decisions[i].product, decisions[i].quantity, decisions[i].unitCost,
                    lines'[i].movement))
    && (forall i, j :: 0 <= i < j < n && j < |lines| && lines'[i].Applied? && lines'[j].Applied? ==>
      lines'[i].movement < lines'[j].movement)
  }

  lemma DecideNext(
    st: Inventory.Stock, lines: seq<Line>, decisions: map<nat, Decision>, n: nat, before: Inventory.Stock,
    decided: seq<Line>)
    requires n < |lines| && n in decisions && Decided(st, lines, decisions, n, before, decided)
    requires var d := decisions[n]; Inventory.Restock(before, d.product, d.quantity, d.unitCost, d.updateCost).Ok?
    ensures
      var d := decisions[n];
      var after := Inventory.Restock(before, d.product, d.quantity, d.unitCost, d.updateCost).value;
      Decided(st, lines, decisions, n + 1, after,
        decided[n := Applied(d.product, d.quantity, d.unitCost, |before.movements|)])
  {
    var d := decisions[n];
    var after := Inventory.Restock(before, d.product, d.quantity, d.unitCost, d.updateCost).value;
    assert before.movements <= after.movements;
    assert forall i :: 0 <= i < n ==> LineOk(after.movements, decided[i]);
  }

  lemma {:induction false} ConfirmLinesDecides(
    st: Inventory.Stock, lines: seq<Line>, decisions: map<nat, Decision>, n: nat)
    requires n <= |lines| && ConfirmLines(st, lines, decisions, n).Ok?
    ensures
      var (st', lines') := ConfirmLines(st, lines, decisions, n).value;
      Decided(st, lines, decisions, n, st', lines')
  {
    hide Inventory.Restock;
    if n > 0 {
      ConfirmLinesDecides(st, lines, decisions, n - 1);
      var (before, decided) := ConfirmLines(st, lines, decisions, n - 1).value;
      if n - 1 in decisions { DecideNext(st, lines, decisions, n - 1, before, decided); }
    }
  }

  lemma RestockAdds(st: Inventory.Stock, d: Decision, p: Id)
    requires Inventory.Restock(st, d.product, d.quantity, d.unitCost, d.updateCost).Ok?
    ensures Inventory.Ledger(Inventory.Restock(st, d.product, d.quantity, d.unitCost, d.updateCost).value.movements, p)
         == Inventory.Ledger(st.movements, p) + (if d.product == p then d.quantity else 0)
  {
    var after := Inventory.Restock(st, d.product, d.quantity, d.unitCost, d.updateCost).value;
    SumAppend(st.movements, after.movements[|st.movements|], Inventory.DeltaOf(p));
  }

  /** The stock gains exactly what the applied lines say, product by product. */
  lemma {:induction false} ConfirmLinesAdds(
    st: Inventory.Stock, lines: seq<Line>, decisions: map<nat, Decision>, n: nat, p: Id)
    requires n <= |lines| && ConfirmLines(st, lines, decisions, n).Ok?
    requires forall i :: 0 <= i < |lines| ==> lines[i] == Pending
    ensures
      var (st', lines') := ConfirmLines(st, lines, decisions, n).value;
      Inventory.Ledger(st'.movements, p) == Inventory.Ledger(st.movements, p) + AppliedTotal(lines', p)
  {
    hide Inventory.Restock, Sum;
    if n == 0 {
      SumZero(lines, AppliedOf(p));
    } else {
      ConfirmLinesAdds(st, lines, decisions, n - 1, p);
      ConfirmLinesDecides(st, lines, decisions, n - 1);
      var (before, decided) := ConfirmLines(st, lines, decisions, n - 1).value;
      var (after, decided') := ConfirmLines(st, lines, decisions, n).value;
      SumUpdate(decided, n - 1, decided'[n - 1], AppliedOf(p));
      if n - 1 in decisions {
        RestockAdds(before, decisions[n - 1], p);
      }
    }
  }

  lemma {:induction false} ConfirmLinesKeepsShop(
    shop: Shop.State, lines: seq<Line>, decisions: map<nat, Decision>, n: nat)
    requires n <= |lines| && ConfirmLines(shop.stock, lines, decisions, n).Ok? && ShopInvariant.Inv(shop)
    ensures ShopInvariant.Inv(shop.(stock := ConfirmLines(shop.stock, lines, decisions, n).value.0))
  {
    hide Inventory.Restock, ShopInvariant.Inv;
    if n == 0 {
      assert shop.(stock := shop.stock) == shop;
    } else {
      ConfirmLinesKeepsShop(shop, lines, decisions, n - 1);
      var before := ConfirmLines(shop.stock, lines, decisions, n - 1).value.0;
      if n - 1 in decisions {
        var d := decisions[n - 1];
        ShopRuns.RestockKeepsInv(shop.(stock := before), d.product, d.quantity, d.unitCost, d.updateCost);
      }
    }
  }

  // --- every step keeps the invariant -------------------------------------------------------------

  lemma ConfirmKeepsInv(w: World, r: nat, decisions: map<nat, Decision>)
    requires Inv(w) && ConfirmReceipt(w, r, decisions).Ok?
    ensures Inv(ConfirmReceipt(w, r, decisions).value)
    ensures w.shop.stock.movements <= ConfirmReceipt(w, r, decisions).value.shop.stock.movements
  {
    hide ConfirmLines, ShopInvariant.Inv;
    var lines := w.receipts[r].lines;
    var w' := ConfirmReceipt(w, r, decisions).value;
    ConfirmLinesDecides(w.shop.stock, lines, decisions, |lines|);
    ConfirmLinesKeepsShop(w.shop, lines, decisions, |lines|);
    assert Decided(w.shop.stock, lines, decisions, |lines|, w'.shop.stock, w'.receipts[r].lines);
    MoreMovements(w.receipts, w.shop.stock.movements, w'.shop.stock.movements);
    forall s, j | Claims(w.receipts, s, j) ensures w.receipts[s].lines[j].movement < |w.shop.stock.movements| {
      assert ReceiptOk(w.shop.stock.movements, w.receipts[s]);
    }
    assert forall s, j :: Claims(w'.receipts, s, j) && s != r ==> Claims(w.receipts, s, j);
  }

  lemma MoreMovements(receipts: seq<Receipt>, before: seq<Inventory.Movement>, after: seq<Inventory.Movement>)
    requires before <= after
    requires forall r :: 0 <= r < |receipts| ==> ReceiptOk(before, receipts[r])
    ensures forall r :: 0 <= r < |receipts| ==> ReceiptOk(after, receipts[r])
  {
    forall r | 0 <= r < |receipts| ensures ReceiptOk(after, receipts[r]) {
      assert ReceiptOk(before, receipts[r]);
    }
  }

  predicate Undecided(receipt: Receipt) {
    receipt.status != Confirmed && forall i :: 0 <= i < |receipt.lines| ==> receipt.lines[i] == Pending
  }

  lemma ReplaceKeepsReceipts(w: World, r: nat, receipt: Receipt)
    requires ReceiptsOk(w) && MovementsOnce(w.receipts) && r < |w.receipts| && Undecided(receipt)
    ensures var w' := w.(receipts := w.receipts[r := receipt]); ReceiptsOk(w') && MovementsOnce(w'.receipts)
  {
    var receipts' := w.receipts[r := receipt];
    assert forall s, i :: Claims(receipts', s, i) ==> Claims(w.receipts, s, i) && receipts'[s] == w.receipts[s];
  }

  lemma UploadKeepsReceipts(w: World)
    requires ReceiptsOk(w) && MovementsOnce(w.receipts)
    ensures var w' := w.(receipts := w.receipts + [Receipt(Uploaded, [])]); ReceiptsOk(w') && MovementsOnce(w'.receipts)
  {
    var receipts' := w.receipts + [Receipt(Uploaded, [])];
    assert forall s, i :: Claims(receipts', s, i) ==> Claims(w.receipts, s, i) && receipts'[s] == w.receipts[s];
  }

  lemma UnconfirmedIsUndecided(w: World, r: nat)
    requires ReceiptsOk(w) && r < |w.receipts| && w.receipts[r].status != Confirmed
    ensures Undecided(w.receipts[r])
  {
    assert ReceiptOk(w.shop.stock.movements, w.receipts[r]);
  }

  /** Receipt steps other than a confirmation leave decided lines and the shop alone. */
  lemma LifecycleKeepsReceipts(w: World, ev: Event)
    requires Inv(w) && !ev.Confirm? && !ev.Other?
    ensures var w' := Step(w, ev); ReceiptsOk(w') && MovementsOnce(w'.receipts) && w'.shop == w.shop
  {
    hide ShopInvariant.Inv, Shop.Step, ReceiptOk, Claims, MovementsOnce, Undecided;
    var w' := Step(w, ev);
    if ev == Upload {
      UploadKeepsReceipts(w);
    } else {
      var r := ev.receipt;
      if r < |w.receipts| && w'.receipts != w.receipts {
        UnconfirmedIsUndecided(w, r);
        StillUndecided(w.receipts[r], w'.receipts[r]);
        ReplaceKeepsReceipts(w, r, w'.receipts[r]);
        assert w'.receipts == w.receipts[r := w'.receipts[r]];
      }
    }
  }

  lemma StillUndecided(before: Receipt, after: Receipt)
    requires Undecided(before) && after.status != Confirmed
    requires after.lines == before.lines || after.lines == seq(|after.lines|, _ => Pending)
    ensures Undecided(after)
  {
    assert forall i :: 0 <= i < |after.lines| ==> after.lines[i] == Pending;
  }

  lemma LifecycleKeepsRunningAt(w: World, ev: Event, r: nat)
    requires (r in w.running ==> RunningAt(w, r)) && !ev.Confirm? && !ev.Other? && r in Step(w, ev).running
    ensures RunningAt(Step(w, ev), r)
  {
    hide Shop.Step, ConfirmReceipt;
  }

  lemma LifecycleKeepsRunning(w: World, ev: Event)
    requires RunningOk(w) && !ev.Confirm? && !ev.Other?
    ensures RunningOk(Step(w, ev))
  {
    hide Step, RunningAt;
    forall r: nat | r in Step(w, ev).running ensures RunningAt(Step(w, ev), r) {
      LifecycleKeepsRunningAt(w, ev, r);
    }
  }

  lemma StepKeepsInv(w: World, ev: Event)
    requires Inv(w)
    ensures Inv(Step(w, ev)) && w.shop.stock.movements <= Step(w, ev).shop.stock.movements
  {
    hide ShopInvariant.Inv, Shop.Step, ConfirmReceipt;
    match ev
    case Confirm(r, decisions) => if ConfirmReceipt(w, r, decisions).Ok? { ConfirmKeepsInv(w, r, decisions); }
    case Other(op) =>
      ShopRuns.StepKeepsInv(w.shop, op);
      ShopTheorems.LedgersAppendOnly(w.shop, op);
      MoreMovements(w.receipts, w.shop.stock.movements, Shop.Step(w.shop, op).stock.movements);
    case _ =>
      LifecycleKeepsReceipts(w, ev);
      LifecycleKeepsRunning(w, ev);
  }

  lemma EmptyInv()
    ensures Inv(EMPTY)
  {
    ShopRuns.EmptyInv();
  }

  lemma {:induction false} EveryRunKeepsInv(w: World, events: seq<Event>)
    requires Inv(w)
    ensures Inv(Run(w, events))
  {
    hide Inv, Step;
    if events != [] {
      EveryRunKeepsInv(w, events[..|events| - 1]);
      StepKeepsInv(Run(w, events[..|events| - 1]), events[|events| - 1]);
    }
  }

  // --- confirmed is final -------------------------------------------------------------------------

  lemma ConfirmedStays(w: World, ev: Event, r: nat)
    requires Inv(w) && r < |w.receipts| && w.receipts[r].status == Confirmed
    ensures r < |Step(w, ev).receipts| && Step(w, ev).receipts[r] == w.receipts[r]
  {
    hide ConfirmLines, Shop.Step, ShopInvariant.Inv, ReceiptsOk, MovementsOnce;
  }

  /** Although a failing extraction overwrites the status unchecked, CONFIRMED is never left. */
  lemma {:induction false} ConfirmedIsFinal(w: World, events: seq<Event>, r: nat)
    requires Inv(w) && r < |w.receipts| && w.receipts[r].status == Confirmed
    ensures r < |Run(w, events).receipts| && Run(w, events).receipts[r] == w.receipts[r]
  {
    hide Inv, Step;
    if events != [] {
      EveryRunKeepsInv(w, events[..|events| - 1]);
      ConfirmedIsFinal(w, events[..|events| - 1], r);
      ConfirmedStays(Run(w, events[..|events| - 1]), events[|events| - 1], r);
    }
  }

  /** In every reachable state at most one extraction per receipt runs, and only while PROCESSING or CANCELLED. */
  lemma OneExtraction(events: seq<Event>, r: nat)
    ensures
      var w := Run(EMPTY, events);
      w.running[r] <= 1 && (w.running[r] == 1 ==>
        r < |w.receipts| && (w.receipts[r].status == Processing || w.receipts[r].status == Cancelled))
  {
    EmptyInv();
    EveryRunKeepsInv(EMPTY, events);
    var w := Run(EMPTY, events);
    assert r in w.running ==> RunningAt(w, r);
  }

  // --- stock is added once ------------------------------------------------------------------------

  function LinesOf(w: World, r: nat): seq<Line> { if r < |w.receipts| then w.receipts[r].lines else [] }

  lemma UnconfirmedAddsNothing(w: World, r: nat, p: Id)
    requires Inv(w) && r < |w.receipts| && w.receipts[r].status != Confirmed
    ensures AppliedTotal(w.receipts[r].lines, p) == 0
  {
    assert ReceiptOk(w.shop.stock.movements, w.receipts[r]);
    SumZero(w.receipts[r].lines, AppliedOf(p));
  }

  lemma StepAdds(w: World, ev: Event, r: nat, p: Id)
    requires Inv(w)
    ensures
      var w' := Step(w, ev);
      AppliedTotal(LinesOf(w', r), p) - AppliedTotal(LinesOf(w, r), p)
      == if ev.Confirm? && ev.receipt == r
         then Inventory.Ledger(w'.shop.stock.movements, p) - Inventory.Ledger(w.shop.stock.movements, p) else 0
  {
    hide ConfirmLines, Shop.Step, ShopInvariant.Inv, Sum;
    StepKeepsInv(w, ev);
    var w' := Step(w, ev);
    if r < |w.receipts| {
      if ev.Confirm? && ev.receipt == r && ConfirmReceipt(w, r, ev.decisions).Ok? {
        assert ReceiptOk(w.shop.stock.movements, w.receipts[r]);
        ConfirmLinesAdds(w.shop.stock, w.receipts[r].lines, ev.decisions, |w.receipts[r].lines|, p);
        UnconfirmedAddsNothing(w, r, p);
      } else if w.receipts[r].status == Confirmed {
        ConfirmedStays(w, ev, r);
      } else if w'.receipts[r] != w.receipts[r] {
        UnconfirmedAddsNothing(w, r, p);
        UnconfirmedAddsNothing(w', r, p);
      }
    } else if r < |w'.receipts| {
      NoLines(p);
    }
  }

  lemma NoLines(p: Id)
    ensures AppliedTotal([], p) == 0
  {
  }

  /**
   * Over every run, whatever else happens to the stock: what confirming a receipt added to a
   * product's ledger is exactly the sum of the receipt's APPLIED lines.
   */
  lemma {:induction false} AddedIsApplied(events: seq<Event>, r: nat, p: Id)
    ensures AddedBy(events, r, p) == AppliedTotal(LinesOf(Run(EMPTY, events), r), p)
  {
    hide Inv, Step, AppliedTotal, Inventory.Ledger;
    if events == [] {
      NoLines(p);
    } else {
      var before := events[..|events| - 1];
      AddedIsApplied(before, r, p);
      EmptyInv();
      EveryRunKeepsInv(EMPTY, before);
      StepAdds(Run(EMPTY, before), events[|events| - 1], r, p);
    }
  }

  predicate IsConfirmed(w: World, r: nat) { r < |w.receipts| && w.receipts[r].status == Confirmed }

  lemma ConfirmConfirms(w: World, r: nat, s: nat, decisions: map<nat, Decision>)
    requires ConfirmReceipt(w, s, decisions).Ok?
    ensures IsConfirmed(ConfirmReceipt(w, s, decisions).value, r) <==> r == s || IsConfirmed(w, r)
    ensures !IsConfirmed(w, s)
  {
    hide ConfirmLines;
  }

  lemma LifecycleConfirms(w: World, ev: Event, r: nat)
    requires (r in w.running ==> RunningAt(w, r)) && !ev.Confirm? && !ev.Other?
    ensures IsConfirmed(Step(w, ev), r) == IsConfirmed(w, r)
  {
    hide ConfirmReceipt, Shop.Step;
  }

  lemma StepConfirms(w: World, ev: Event, r: nat)
    requires Inv(w)
    ensures
      if ev.Confirm? && ev.receipt == r && Attempt(w, ev).Ok?
      then !IsConfirmed(w, r) && IsConfirmed(Step(w, ev), r)
      else IsConfirmed(Step(w, ev), r) == IsConfirmed(w, r)
  {
    hide ConfirmReceipt, Shop.Step, ShopInvariant.Inv, ReceiptsOk, MovementsOnce, StartProcessing, FinishProcessing,
      Fail, CancelReceipt, RunningAt;
    match ev
    case Confirm(s, decisions) => if ConfirmReceipt(w, s, decisions).Ok? { ConfirmConfirms(w, r, s, decisions); }
    case Other(_) =>
    case _ => LifecycleConfirms(w, ev, r);
  }

  /** A receipt is confirmed, and so restocks, at most once: exactly when it ends CONFIRMED. */
  lemma {:induction false} ConfirmedAtMostOnce(events: seq<Event>, r: nat)
    ensures TimesConfirmed(events, r) == if IsConfirmed(Run(EMPTY, events), r) then 1 else 0
  {
    hide Inv, Step, Attempt;
    if events != [] {
      var before := events[..|events| - 1];
      ConfirmedAtMostOnce(before, r);
      EmptyInv();
      EveryRunKeepsInv(EMPTY, before);
      StepConfirms(Run(EMPTY, before), events[|events| - 1], r);
    }
  }

  /** In every run an applied line names its own RESTOCK movement, and no two lines share one. */
  lemma AppliedLinesInEveryRun(events: seq<Event>)
    ensures ReceiptsOk(Run(EMPTY, events)) && MovementsOnce(Run(EMPTY, events).receipts)
  {
    EmptyInv();
    EveryRunKeepsInv(EMPTY, events);
  }

  // --- cancelled is not final ---------------------------------------------------------------------

  lemma CancelledStep(w: World, ev: Event, r: nat)
    requires Inv(w) && r < |w.receipts| && w.receipts[r].status == Cancelled && r !in w.running
    ensures r < |Step(w, ev).receipts| && Step(w, ev).receipts[r].status == Cancelled && r !in Step(w, ev).running
  {
    hide ConfirmLines, Shop.Step, ShopInvariant.Inv;
  }

  lemma {:induction false} CancelledForGood(w: World, events: seq<Event>, r: nat)
    requires Inv(w) && r < |w.receipts| && w.receipts[r].status == Cancelled && r !in w.running
    ensures var w' := Run(w, events); r < |w'.receipts| && w'.receipts[r].status == Cancelled && r !in w'.running
  {
    hide Inv, Step;
    if events != [] {
      EveryRunKeepsInv(w, events[..|events| - 1]);
      CancelledForGood(w, events[..|events| - 1], r);
      CancelledStep(Run(w, events[..|events| - 1]), events[|events| - 1], r);
    }
  }

  ghost predicate StaysCancelled(w: World, events: seq<Event>, r: nat) {
    var w' := Run(w, events); r < |w'.receipts| && w'.receipts[r].status == Cancelled
  }

  /** A cancelled receipt stays cancelled in every continuation exactly when no extraction of it is running. */
  lemma CancelledIsFinalIff(w: World, r: nat)
    requires Inv(w) && r < |w.receipts| && w.receipts[r].status == Cancelled
    ensures (forall events :: StaysCancelled(w, events, r)) <==> r !in w.running
  {
    if r in w.running {
      assert RunningAt(w, r);
      RunOne(w, ExtractionFailed(r));
      assert Step(w, ExtractionFailed(r)).receipts[r].status == Failed;
      assert !StaysCancelled(w, [ExtractionFailed(r)], r);
    } else {
      forall events ensures StaysCancelled(w, events, r) { CancelledForGood(w, events, r); }
    }
  }

  lemma RunOne(w: World, ev: Event)
    ensures Run(w, [ev]) == Step(w, ev)
  {
    assert [ev][..0] == [];
  }

  lemma RunNext(w: World, events: seq<Event>, k: nat)
    requires k < |events|
    ensures Run(w, events[..k + 1]) == Step(Run(w, events[..k]), events[k])
  {
    assert events[..k + 1][..k] == events[..k];
  }

  const CANCELLED_AND_RETRIED :=
    [Upload, Process(0, true), Cancel(0), ExtractionFailed(0), Process(0, true), Extracted(0, 1)]

  lemma CancelledThenFailed(shop: Shop.State)
    ensures Run(World([], multiset{}, shop), CANCELLED_AND_RETRIED[..4])
      == World([Receipt(Failed, [])], multiset{}, shop)
  {
    hide Run, ConfirmReceipt, Shop.Step;
    var w, e := World([], multiset{}, shop), CANCELLED_AND_RETRIED;
    RunOne(w, Upload);
    assert Run(w, e[..1]) == World([Receipt(Uploaded, [])], multiset{}, shop) by { assert e[..1] == [Upload]; }
    RunNext(w, e, 1);
    assert Run(w, e[..2]) == World([Receipt(Processing, [])], multiset{0}, shop);
    RunNext(w, e, 2);
    assert Run(w, e[..3]) == World([Receipt(Cancelled, [])], multiset{0}, shop);
    RunNext(w, e, 3);
  }

  /** A receipt cancelled during its extraction, failed by it, and retried: it is open for review again. */
  lemma CancelledThenReady(shop: Shop.State)
    ensures Run(World([], multiset{}, shop), CANCELLED_AND_RETRIED)
      == World([Receipt(Ready, [Pending])], multiset{}, shop)
  {
    hide Run, ConfirmReceipt, Shop.Step;
    var w, e := World([], multiset{}, shop), CANCELLED_AND_RETRIED;
    CancelledThenFailed(shop);
    RunNext(w, e, 4);
    assert Run(w, e[..5]) == World([Receipt(Processing, [])], multiset{0}, shop);
    RunNext(w, e, 5);
    assert seq(1, _ => Pending) == [Pending];
    assert e[..6] == e;
  }

  /** ... and can be confirmed after all. */
  lemma CancelledThenConfirmed(shop: Shop.State, d: Decision)
    requires Inventory.Restock(shop.stock, d.product, d.quantity, d.unitCost, d.updateCost).Ok?
    ensures
      var w := Run(World([], multiset{}, shop), CANCELLED_AND_RETRIED + [Confirm(0, map[0 := d])]);
      w.receipts == [Receipt(Confirmed, [Applied(d.product, d.quantity, d.unitCost, |shop.stock.movements|)])]
  {
    hide Run, Inventory.Restock, ConfirmLines;
    var w, e := World([], multiset{}, shop), CANCELLED_AND_RETRIED + [Confirm(0, map[0 := d])];
    CancelledThenReady(shop);
    assert e[..6] == CANCELLED_AND_RETRIED && e[..7] == e;
    RunNext(w, e, 6);
    assert 0 in map[0 := d] && forall k :: k in map[0 := d] ==> k == 0;
    AppliesOne(shop.stock, d);
  }

  lemma AppliesOne(st: Inventory.Stock, d: Decision)
    requires Inventory.Restock(st, d.product, d.quantity, d.unitCost, d.updateCost).Ok?
    ensures ConfirmLines(st, [Pending], map[0 := d], 1)
         == Ok((Inventory.Restock(st, d.product, d.quantity, d.unitCost, d.updateCost).value,
           [Applied(d.product, d.quantity, d.unitCost, |st.movements|)]))
  {
    assert [Pending][0 := Applied(d.product, d.quantity, d.unitCost, |st.movements|)]
      == [Applied(d.product, d.quantity, d.unitCost, |st.movements|)];
  }
}
