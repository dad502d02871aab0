/** The receipt transactions as they run, each proved to be the step of the same name. */
module ReceiptDesk {
  import opened Prelude
  import opened Receipts
  import opened ReceiptTheorems
  import Inventory
  import Shop

  lemma {:induction false} ConfirmFaultSticks(
    st: Inventory.Stock, lines: seq<Line>, decisions: map<nat, Decision>, i: nat, n: nat)
    requires i <= n <= |lines| && ConfirmLines(st, lines, decisions, i).Err?
    ensures ConfirmLines(st, lines, decisions, n) == ConfirmLines(st, lines, decisions, i)
  {
    if i < n { ConfirmFaultSticks(st, lines, decisions, i, n - 1); }
  }

  class Desk {
    var receipts: seq<Receipt>
    var running: multiset<nat>
    var shop: Shop.State

    function Here(): World
      reads this
    {
      World(receipts, running, shop)
    }

    constructor ()
      ensures Here() == EMPTY && Inv(Here())
    {
      receipts, running, shop := [], multiset{}, Shop.EMPTY;
      new;
      EmptyInv();
    }

    /** First transaction of an extraction: claims the receipt. */
    method Start(r: nat, configured: bool) returns (fault: Option<Fault>)
      requires Inv(Here())
      modifies this
      ensures Inv(Here()) && Here() == Step(old(Here()), Process(r, configured))
      ensures fault == None <==> Attempt(old(Here()), Process(r, configured)).Ok?
    {
      hide Inv;
      StepKeepsInv(Here(), Process(r, configured));
      if r >= |receipts| { return Some(NotFound); }
      if receipts[r].status != Uploaded && receipts[r].status != Failed { return Some(InvalidTransition); }
      if !configured { return Some(Invalid); }
      receipts := receipts[r := receipts[r].(status := Processing)];
      running := running + multiset{r};
      return None;
    }

    /** Second transaction of an extraction that read the receipt; a receipt cancelled meanwhile is left alone. */
    method Finish(r: nat, lines: pos)
      requires Inv(Here()) && r in running
      modifies this
      ensures Inv(Here()) && Here() == Step(old(Here()), Extracted(r, lines))
    {
      hide Inv;
      StepKeepsInv(Here(), Extracted(r, lines));
      RunningExists(Here(), r);
      if receipts[r].status == Processing {
        receipts := receipts[r := Receipt(Ready, seq(lines, _ => Pending))];
      }
      running := running - multiset{r};
    }

    /** Second transaction of an extraction that did not: overwrites the status without looking at it. */
    method FailExtraction(r: nat)
      requires Inv(Here()) && r in running
      modifies this
      ensures Inv(Here()) && Here() == Step(old(Here()), ExtractionFailed(r))
    {
      hide Inv;
      StepKeepsInv(Here(), ExtractionFailed(r));
      RunningExists(Here(), r);
      receipts := receipts[r := receipts[r].(status := Failed)];
      running := running - multiset{r};
    }

    /** Applies the owner's decisions as restocks, all of them or none; returns the number of movements. */
    method ConfirmDecisions(r: nat, decisions: map<nat, Decision>) returns (movements: Result<nat, Fault>)
      requires Inv(Here())
      modifies this
      ensures Inv(Here())
      ensures
        match ConfirmReceipt(old(Here()), r, decisions)
        case Ok(w) => movements == Ok(|decisions|) && Here() == w
        case Err(e) => movements == Err(e) && Here() == old(Here())
    {
      hide Inv, Inventory.Restock;
      ghost var before := Here();
      if r >= |receipts| { return Err(NotFound); }
      if receipts[r].status == Confirmed { return Err(AlreadyExists); }
      if receipts[r].status != Ready { return Err(InvalidTransition); }
      var lines := receipts[r].lines;
      if decisions == map[] || exists k :: k in decisions && k >= |lines| { return Err(Invalid); }
      var saved := shop;
      var decided := lines;
      var count := 0;
      ghost var done: set<nat> := {};
      for i := 0 to |lines|
        invariant |decided| == |lines| && ConfirmLines(saved.stock, lines, decisions, i) == Ok((shop.stock, decided))
        invariant shop == saved.(stock := shop.stock)
        invariant count == |done| && forall k :: k in done <==> k in decisions && k < i
        invariant receipts == old(receipts) && running == old(running)
      {
        if i in decisions {
          var d := decisions[i];
          var restocked := Inventory.Restock(shop.stock, d.product, d.quantity, d.unitCost, d.updateCost);
          if restocked.Err? {
            ConfirmFaultSticks(saved.stock, lines, decisions, i + 1, |lines|);
            shop := saved;
            return Err(restocked.error);
          }
          decided := decided[i := Applied(d.product, d.quantity, d.unitCost, |shop.stock.movements|)];
          shop := shop.(stock := restocked.value);
          count := count + 1;
          done := done + {i};
        } else {
          decided := decided[i := Skipped];
        }
      }
      assert done == decisions.Keys;
      receipts := receipts[r := Receipt(Confirmed, decided)];
      ConfirmKeepsInv(before, r, decisions);
      return Ok(count);
    }

    method CancelIt(r: nat) returns (fault: Option<Fault>)
      requires Inv(Here())
      modifies this
      ensures Inv(Here()) && Here() == Step(old(Here()), Cancel(r))
      ensures fault == None <==> Attempt(old(Here()), Cancel(r)).Ok?
    {
      hide Inv;
      StepKeepsInv(Here(), Cancel(r));
      if r >= |receipts| { return Some(NotFound); }
      if receipts[r].status == Confirmed { return Some(AlreadyExists); }
      if receipts[r].status != Cancelled {
        receipts := receipts[r := receipts[r].(status := Cancelled)];
      }
      return None;
    }
  }

  lemma RunningExists(w: World, r: nat)
    requires Inv(w) && r in w.running
    ensures r < |w.receipts|
  {
    assert RunningAt(w, r);
  }
}
