/** What each receipt transaction does: exactly when it is accepted, what it writes, and that nothing else changes. */
module ReceiptOutcomes {
  import opened Prelude
  import opened Receipts
  import opened ReceiptTheorems
  import Inventory
  import ShopInvariant

  /** The receipt as it is but for its status. */
  function Restatus(w: World, r: nat, status: Status): seq<Receipt>
    requires r < |w.receipts|
  {
    w.receipts[r := Receipt(status, w.receipts[r].lines)]
  }

  lemma UploadOutcome(w: World)
    ensures Step(w, Upload) == World(w.receipts + [Receipt(Uploaded, [])], w.running, w.shop)
  {
  }

  /** Only an UPLOADED or FAILED receipt can be processed, and only with an extraction provider. */
  lemma ProcessOutcome(w: World, r: nat, configured: bool)
    ensures
      Attempt(w, Process(r, configured)).Ok?
      <==> (r < |w.receipts| && (w.receipts[r].status == Uploaded || w.receipts[r].status == Failed) && configured)
    ensures
      Step(w, Process(r, configured))
      == if Attempt(w, Process(r, configured)).Ok?
         then World(Restatus(w, r, Processing), w.running + multiset{r}, w.shop) else w
  {
  }

  /** A delivered extraction opens the receipt for review if it is still PROCESSING, and ends in any case. */
  lemma ExtractedOutcome(w: World, r: nat, lines: pos)
    requires r in w.running && r < |w.receipts|
    ensures
      var w' := Step(w, Extracted(r, lines));
      && w'.running == w.running - multiset{r} && w'.shop == w.shop
      && if w.receipts[r].status != Processing then w'.receipts == w.receipts
         else
           && |w'.receipts| == |w.receipts| && w'.receipts[r].status == Ready && |w'.receipts[r].lines| == lines
           && (forall i :: 0 <= i < lines ==> w'.receipts[r].lines[i] == Pending)
           && (forall s :: 0 <= s < |w.receipts| && s != r ==> w'.receipts[s] == w.receipts[s])
  {
  }

  /** A failed extraction, or one without lines, marks the receipt FAILED whatever its status was. */
  lemma FailedOutcome(w: World, r: nat)
    requires r in w.running && r < |w.receipts|
    ensures Step(w, ExtractionFailed(r)) == World(Restatus(w, r, Failed), w.running - multiset{r}, w.shop)
    ensures Step(w, Extracted(r, 0)) == World(Restatus(w, r, Failed), w.running - multiset{r}, w.shop)
  {
  }

  /** A server that stops leaves the receipt PROCESSING without an extraction. */
  lemma CrashOutcome(w: World, r: nat)
    ensures Step(w, Crash(r)) == World(w.receipts, w.running - multiset{r}, w.shop)
  {
  }

  lemma CancelOutcome(w: World, r: nat)
    ensures Attempt(w, Cancel(r)).Ok? <==> r < |w.receipts| && w.receipts[r].status != Confirmed
    ensures
      Step(w, Cancel(r))
      == if Attempt(w, Cancel(r)).Ok? then World(Restatus(w, r, Cancelled), w.running, w.shop) else w
  {
    if r < |w.receipts| && w.receipts[r].status == Cancelled {
      assert Restatus(w, r, Cancelled) == w.receipts;
    }
  }

  // --- confirming ---------------------------------------------------------------------------------

  predicate Stockable(st: Inventory.Stock, p: Id) {
    p in st.products && st.products[p].active && st.products[p].tracked
  }

  /** The first n decisions all name a product that can be restocked. */
  predicate AllStockable(st: Inventory.Stock, decisions: map<nat, Decision>, n: nat) {
    forall k :: 0 <= k < n && k in decisions ==> Stockable(st, decisions[k].product)
  }

  predicate NoneNegative(st: Inventory.Stock) {
    forall p :: p in st.products ==> st.products[p].quantity >= 0
  }

  lemma RestockSucceeds(st: Inventory.Stock, d: Decision)
    requires NoneNegative(st)
    ensures
      var r := Inventory.Restock(st, d.product, d.quantity, d.unitCost, d.updateCost);
      && (r.Ok? <==> Stockable(st, d.product))
      && (r.Ok? ==> NoneNegative(r.value) && forall p :: Stockable(r.value, p) <==> Stockable(st, p))
  {
  }

  lemma {:induction false} ConfirmLinesOkIff(
    st: Inventory.Stock, lines: seq<Line>, decisions: map<nat, Decision>, n: nat)
    requires n <= |lines| && NoneNegative(st)
    ensures
      var r := ConfirmLines(st, lines, decisions, n);
      && (r.Ok? <==> AllStockable(st, decisions, n))
      && (r.Ok? ==> NoneNegative(r.value.0) && forall p :: Stockable(r.value.0, p) <==> Stockable(st, p))
  {
    hide Inventory.Restock, NoneNegative, Stockable;
    if n > 0 {
      ConfirmLinesOkIff(st, lines, decisions, n - 1);
      if ConfirmLines(st, lines, decisions, n - 1).Ok? && n - 1 in decisions {
        RestockSucceeds(ConfirmLines(st, lines, decisions, n - 1).value.0, decisions[n - 1]);
      }
    }
  }

  lemma InvNoneNegative(w: World)
    requires Inv(w)
    ensures NoneNegative(w.shop.stock)
  {
    hide ReceiptsOk, MovementsOnce, RunningOk, ShopInvariant.SalesMatchStock, ShopInvariant.SalesMatchCredit;
    forall p | p in w.shop.stock.products ensures w.shop.stock.products[p].quantity >= 0 {
      Inventory.NeverNegative(w.shop.stock, p);
    }
  }

  /**
   * A confirmation is accepted exactly when the receipt is open for review, decides at least one line
   * and only lines it has, and every decided product can be restocked.
   */
  lemma ConfirmAcceptedIff(w: World, r: nat, decisions: map<nat, Decision>)
    requires Inv(w)
    ensures
      Attempt(w, Confirm(r, decisions)).Ok?
      <==> (r < |w.receipts| && w.receipts[r].status == Ready && decisions != map[]
            && (forall k :: k in decisions ==> k < |w.receipts[r].lines|)
            && (forall k :: k in decisions ==> Stockable(w.shop.stock, decisions[k].product)))
  {
    hide ConfirmLines, ShopInvariant.Inv, Stockable;
    InvNoneNegative(w);
    if r < |w.receipts| {
      ConfirmLinesOkIff(w.shop.stock, w.receipts[r].lines, decisions, |w.receipts[r].lines|);
    }
  }

  /** Decided lines are APPLIED with their decision, the others SKIPPED; other receipts and tables stay. */
  lemma ConfirmOutcome(w: World, r: nat, decisions: map<nat, Decision>)
    requires Attempt(w, Confirm(r, decisions)).Ok?
    ensures
      var w' := Step(w, Confirm(r, decisions));
      && r < |w.receipts| && |w'.receipts| == |w.receipts| && w'.running == w.running
      && w'.shop == w.shop.(stock := w'.shop.stock)
      && (forall s :: 0 <= s < |w.receipts| && s != r ==> w'.receipts[s] == w.receipts[s])
      && w'.receipts[r].status == Confirmed && |w'.receipts[r].lines| == |w.receipts[r].lines|
      && forall i :: 0 <= i < |w'.receipts[r].lines| ==>
           var line := w'.receipts[r].lines[i];
           if i !in decisions then line == Skipped
           else
             && line.Applied? && line.product == decisions[i].product && line.quantity == decisions[i].quantity
             && line.unitCost == decisions[i].unitCost
  {
    hide ConfirmLines;
    var lines := w.receipts[r].lines;
    ConfirmLinesDecides(w.shop.stock, lines, decisions, |lines|);
  }

  /** The cost the last of the first n decisions on p that updates it leaves behind. */
  function LastCost(decisions: map<nat, Decision>, n: nat, p: Id, before: Option<nat>): Option<nat> {
    if n == 0 then before
    else if n - 1 in decisions && decisions[n - 1].product == p && decisions[n - 1].updateCost
    then Some(decisions[n - 1].unitCost)
    else LastCost(decisions, n - 1, p, before)
  }

  /** A product's cost changes exactly by the decisions that ask for it; its other fields but the quantity stay. */
  lemma {:induction false} ConfirmLinesCosts(
    st: Inventory.Stock, lines: seq<Line>, decisions: map<nat, Decision>, n: nat, p: Id)
    requires n <= |lines| && ConfirmLines(st, lines, decisions, n).Ok? && p in st.products
    ensures
      var r := ConfirmLines(st, lines, decisions, n).value.0;
      && p in r.products
      && r.products[p]
         == st.products[p].(quantity := r.products[p].quantity, cost := LastCost(decisions, n, p, st.products[p].cost))
  {
    if n > 0 { ConfirmLinesCosts(st, lines, decisions, n - 1, p); }
  }
}
