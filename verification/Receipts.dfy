/**
 * Supplier receipts (backend/app/services/receipts.py): upload, extraction, review, restock.
 * An extraction runs between two transactions, so other requests may act on its receipt in the
 * meantime. Each transaction is one event; extractions under way are tracked in `running`.
 */
module Receipts {
  import opened Prelude
  import Inventory
  import Shop

  datatype Status = Uploaded | Processing | Ready | Confirmed | Failed | Cancelled

  datatype Line =
    | Pending
    | Skipped
    | Applied(product: Id, quantity: pos, unitCost: nat, movement: nat)

  datatype Receipt = Receipt(status: Status, lines: seq<Line>)

  /** Several extractions of one receipt could be running for all the type says. */
  datatype World = World(receipts: seq<Receipt>, running: multiset<nat>, shop: Shop.State)

  const EMPTY := World([], multiset{}, Shop.EMPTY)

  /** The owner's decision on one line. */
  datatype Decision = Decision(product: Id, quantity: pos, unitCost: nat, updateCost: bool)

  datatype Event =
    | Upload
    | Process(receipt: nat, configured: bool)
    | Extracted(receipt: nat, lines: nat)
    | ExtractionFailed(receipt: nat)
    | Crash(receipt: nat)                // the server stops during an extraction
    | Confirm(receipt: nat, decisions: map<nat, Decision>)
    | Cancel(receipt: nat)
    | Other(op: Shop.Op)                 // anything else the shop does

  // --- the transactions ---------------------------------------------------------------------------

  function SetStatus(w: World, r: nat, status: Status): World
    requires r < |w.receipts|
  {
    w.(receipts := w.receipts[r := w.receipts[r].(status := status)])
  }

  function StartProcessing(w: World, r: nat, configured: bool): Result<World, Fault> {
    if r >= |w.receipts| then Err(NotFound)
    else if w.receipts[r].status != Uploaded && w.receipts[r].status != Failed then Err(InvalidTransition)
    else if !configured then Err(Invalid)
    else Ok(SetStatus(w, r, Processing).(running := w.running + multiset{r}))
  }

  /** An extraction ends in failure: the status is overwritten without looking at it. */
  function Fail(w: World, r: nat): Result<World, Fault> {
    if r >= |w.receipts| || r !in w.running then Err(NotFound)
    else Ok(SetStatus(w, r, Failed).(running := w.running - multiset{r}))
  }

  /** An extraction delivers its lines, unless the receipt was cancelled meanwhile. */
  function FinishProcessing(w: World, r: nat, lines: nat): Result<World, Fault> {
    if r >= |w.receipts| || r !in w.running then Err(NotFound)
    else if lines == 0 then Fail(w, r)
    else if w.receipts[r].status != Processing then Ok(w.(running := w.running - multiset{r}))
    else
      var ready := Receipt(Ready, seq(lines, _ => Pending));
      Ok(w.(receipts := w.receipts[r := ready], running := w.running - multiset{r}))
  }

  /** The first n lines decided, each applied one as a restock. */
  function ConfirmLines(
    st: Inventory.Stock, lines: seq<Line>, decisions: map<nat, Decision>,
    n: nat): (r: Result<(Inventory.Stock, seq<Line>), Fault>)
    requires n <= |lines|
    ensures r.Ok? ==> |r.value.1| == |lines|
  {
    if n == 0 then Ok((st, lines))
    else
      match ConfirmLines(st, lines, decisions, n - 1)
      case Err(e) => Err(e)
      case Ok((before, decided)) =>
        if n - 1 !in decisions then Ok((before, decided[n - 1 := Skipped]))
        else
          var d := decisions[n - 1];
          match Inventory.Restock(before, d.product, d.quantity, d.unitCost, d.updateCost)
          case Err(e) => Err(e)
          case Ok(after) => Ok((after,
            decided[n - 1 := Applied(d.product, d.quantity, d.unitCost, |before.movements|)]))
  }

  function ConfirmReceipt(w: World, r: nat, decisions: map<nat, Decision>): Result<World, Fault> {
    if r >= |w.receipts| then Err(NotFound)
    else if w.receipts[r].status == Confirmed then Err(AlreadyExists)
    else if w.receipts[r].status != Ready then Err(InvalidTransition)
    else if decisions == map[] || exists k :: k in decisions && k >= |w.receipts[r].lines| then Err(Invalid)
    else
      match ConfirmLines(w.shop.stock, w.receipts[r].lines, decisions, |w.receipts[r].lines|)
      case Err(e) => Err(e)
      case Ok((stock, lines)) =>
        Ok(w.(receipts := w.receipts[r := Receipt(Confirmed, lines)], shop := w.shop.(stock := stock)))
  }

  function CancelReceipt(w: World, r: nat): Result<World, Fault> {
    if r >= |w.receipts| then Err(NotFound)
    else if w.receipts[r].status == Confirmed then Err(AlreadyExists)
    else if w.receipts[r].status == Cancelled then Ok(w)
    else Ok(SetStatus(w, r, Cancelled))
  }

  function Attempt(w: World, ev: Event): Result<World, Fault> {
    match ev
    case Upload => Ok(w.(receipts := w.receipts + [Receipt(Uploaded, [])]))
    case Process(r, configured) => StartProcessing(w, r, configured)
    case Extracted(r, lines) => FinishProcessing(w, r, lines)
    case ExtractionFailed(r) => Fail(w, r)
    case Crash(r) => Ok(w.(running := w.running - multiset{r}))
    case Confirm(r, decisions) => ConfirmReceipt(w, r, decisions)
    case Cancel(r) => CancelReceipt(w, r)
    case Other(op) => Ok(w.(shop := Shop.Step(w.shop, op)))
  }

  function Step(w: World, ev: Event): World {
    match Attempt(w, ev) case Ok(w') => w' case Err(_) => w
  }

  function Run(w: World, events: seq<Event>): World {
    if events == [] then w else Step(Run(w, events[..|events| - 1]), events[|events| - 1])
  }

  // --- quantities ---------------------------------------------------------------------------------

  function AppliedOf(p: Id): Line -> int { (l: Line) => if l.Applied? && l.product == p then l.quantity else 0 }

  /** What a receipt's APPLIED lines say they added to a product. */
  function AppliedTotal(lines: seq<Line>, p: Id): int { Sum(lines, AppliedOf(p)) }

  /** What confirming receipt r added to the stock of p over a whole run, read off the ledger. */
  function AddedBy(events: seq<Event>, r: nat, p: Id): int {
    if events == [] then 0
    else
      var before := events[..|events| - 1];
      AddedBy(before, r, p) +
      (if events[|events| - 1].Confirm? && events[|events| - 1].receipt == r
       then Inventory.Ledger(Run(EMPTY, events).shop.stock.movements, p)
         - Inventory.Ledger(Run(EMPTY, before).shop.stock.movements, p)
       else 0)
  }

  /** How often receipt r was confirmed successfully over a whole run. */
  function TimesConfirmed(events: seq<Event>, r: nat): nat {
    if events == [] then 0
    else
      var before := events[..|events| - 1];
      var ev := events[|events| - 1];
      TimesConfirmed(before, r)
        + (if ev.Confirm? && ev.receipt == r && Attempt(Run(EMPTY, before), ev).Ok? then 1 else 0)
  }
}
