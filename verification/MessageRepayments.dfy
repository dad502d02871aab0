/**
 * "Record as a repayment" on an M-Pesa message (backend/app/services/mpesa.py:270-299). The message
 * is read and checked first, without a lock; the repayment runs afterwards in a transaction that
 * does not look at the message's status again. The two are separate events here, with anything
 * else the shop does in between.
 */
module MessageRepayments {
  import opened Prelude
  import opened SaleRecords
  import opened Shop
  import opened ShopInvariant
  import opened MpesaLinks
  import MpesaTheorems
  import ShopRuns
  import Inventory
  import Credit

  const REPAYMENTS: nat := 1

  /** The key of a message's repayment, derived from the message. */
  function RepaymentKey(message: nat): Key { Derived(REPAYMENTS, message) }

  /** A call that has read its message and holds the request it is about to send. */
  datatype Call = Call(message: nat, request: RepaymentRequest, ended: bool)

  datatype World = World(shop: State, calls: seq<Call>)

  const START := World(EMPTY, [])

  /** The read: only an UNMATCHED message with an amount goes on. */
  function ReadMessage(
    st: State, i: nat, customer: Id, allowOverpayment: bool, digest: nat): Result<RepaymentRequest, Fault> {
    if i >= |st.messages| then Err(NotFound)
    else
      var m := st.messages[i];
      if m.status != Unmatched || m.code.None? || m.amount == 0 then Err(InvalidTransition)
      else Ok(RepaymentRequest(customer, m.amount, Credit.Mpesa, m.code.value, allowOverpayment,
        Some(RepaymentKey(i)), digest))
  }

  /** The request asks for the message's amount under its code, exactly for an UNMATCHED message having both. */
  lemma ReadOutcome(st: State, i: nat, customer: Id, allowOverpayment: bool, digest: nat)
    ensures
      var r := ReadMessage(st, i, customer, allowOverpayment, digest);
      && (r.Ok? <==>
            i < |st.messages| && st.messages[i].status == Unmatched && st.messages[i].code.Some?
            && st.messages[i].amount > 0)
      && (r.Ok? ==>
            && r.value.customer == customer && r.value.amount == st.messages[i].amount && r.value.via == Credit.Mpesa
            && r.value.reference == st.messages[i].code.value && r.value.allowOverpayment == allowOverpayment
            && r.value.key == Some(Derived(1, i)) && r.value.digest == digest)
  {
  }

  datatype Event =
    | Read(message: nat, customer: Id, allowOverpayment: bool, digest: nat)
    | Post(call: nat)
    | CutOff(call: nat)
    | Other(op: Op)

  function Step(w: World, ev: Event): World {
    match ev
    case Read(i, customer, allow, digest) =>
      (match ReadMessage(w.shop, i, customer, allow, digest)
       case Ok(request) => w.(calls := w.calls + [Call(i, request, false)])
       case Err(_) => w)
    case Post(k) =>
      if k >= |w.calls| || w.calls[k].ended then w
      else World(Shop.Step(w.shop, Repay(w.calls[k].request)), w.calls[k := w.calls[k].(ended := true)])
    case CutOff(k) => if k < |w.calls| then w.(calls := w.calls[k := w.calls[k].(ended := true)]) else w
    case Other(op) => w.(shop := Shop.Step(w.shop, op))
  }

  function Run(w: World, events: seq<Event>): World {
    if events == [] then w else Step(Run(w, events[..|events| - 1]), events[|events| - 1])
  }

  // --- what every run keeps -----------------------------------------------------------------------

  /** Messages are never removed, and never change their code or amount. */
  predicate SameTexts(a: seq<Message>, b: seq<Message>) {
    |a| <= |b| && forall i :: 0 <= i < |a| ==> b[i].code == a[i].code && b[i].amount == a[i].amount
  }

  lemma {:induction false} LinkKeepsTexts(messages: seq<Message>, sale: nat, payments: seq<Payment>, n: nat)
    requires n <= |payments|
    ensures SameTexts(messages, LinkTenders(messages, sale, payments, n))
  {
    if n > 0 { LinkKeepsTexts(messages, sale, payments, n - 1); }
  }

  lemma {:induction false} UnlinkKeepsTexts(messages: seq<Message>, sale: nat, payments: seq<Payment>, n: nat)
    requires n <= |payments|
    ensures SameTexts(messages, UnlinkTenders(messages, sale, payments, n))
  {
    if n > 0 { UnlinkKeepsTexts(messages, sale, payments, n - 1); }
  }

  lemma SellKeepsTexts(st: State, req: SaleRequest)
    requires CreateSale(st, req).Ok?
    ensures SameTexts(st.messages, CreateSale(st, req).value.state.messages)
  {
    hide SellItems, PriceSale, ChargeSale, LinkTenders;
    if FindSaleKey(st.sales, req.key).None? {
      var sale := PriceSale(st, req).value;
      LinkKeepsTexts(st.messages, |st.sales|, sale.payments, |sale.payments|);
    }
  }

  lemma VoidKeepsTexts(st: State, id: nat)
    requires VoidSale(st, id).Ok?
    ensures SameTexts(st.messages, VoidSale(st, id).value.messages)
  {
    hide ReverseMovements, MovementsOf, ReverseCharge, UnlinkTenders;
    UnlinkKeepsTexts(st.messages, id, st.sales[id].payments, |st.sales[id].payments|);
  }

  lemma StepKeepsTexts(st: State, op: Op)
    ensures SameTexts(st.messages, Shop.Step(st, op).messages)
  {
    hide CreateSale, VoidSale, LinkExisting, Credit.Record, Inventory.Repaired, Inventory.CreateProduct,
      Inventory.UpdateProduct, Inventory.Restock, Inventory.Adjust, Inventory.SetInitialStock;
    if op.Sell? && CreateSale(st, op.sale).Ok? {
      SellKeepsTexts(st, op.sale);
    } else if op.Void? && VoidSale(st, op.id).Ok? {
      VoidKeepsTexts(st, op.id);
    }
  }

  /** A call asks for its message's amount under its message's code and key. */
  predicate CallOk(messages: seq<Message>, call: Call) {
    && call.message < |messages| && messages[call.message].code == Some(call.request.reference)
    && messages[call.message].amount == call.request.amount
    && call.request.via == Credit.Mpesa && call.request.key == Some(RepaymentKey(call.message))
  }

  ghost predicate WorldInv(w: World) {
    Inv(w.shop) && forall k :: 0 <= k < |w.calls| ==> CallOk(w.shop.messages, w.calls[k])
  }

  lemma ShopStepKeepsInv(w: World, op: Op)
    requires WorldInv(w)
    ensures WorldInv(w.(shop := Shop.Step(w.shop, op)))
  {
    hide Inv, Shop.Step;
    ShopRuns.StepKeepsInv(w.shop, op);
    StepKeepsTexts(w.shop, op);
  }

  lemma StepKeepsInv(w: World, ev: Event)
    requires WorldInv(w)
    ensures WorldInv(Step(w, ev))
  {
    hide Inv, Shop.Step;
    match ev
    case Post(k) => if k < |w.calls| { ShopStepKeepsInv(w, Repay(w.calls[k].request)); }
    case Other(op) => ShopStepKeepsInv(w, op);
    case _ =>
  }

  lemma {:induction false} EveryRunKeepsInv(events: seq<Event>)
    ensures WorldInv(Run(START, events))
  {
    hide WorldInv, Step;
    if events == [] {
      StartInv();
    } else {
      EveryRunKeepsInv(events[..|events| - 1]);
      StepKeepsInv(Run(START, events[..|events| - 1]), events[|events| - 1]);
    }
  }

  lemma StartInv()
    ensures WorldInv(START)
  {
    ShopRuns.EmptyInv();
  }

  // --- what the transaction does ------------------------------------------------------------------

  /** The transaction posts an entry: the customer exists, the key is new, and the balance allows it. */
  ghost predicate Posts(st: State, request: RepaymentRequest) {
    && request.key.Some? && Credit.FindKey(st.book.entries, request.key.value).None?
    && request.customer in st.book.customers
    && (request.allowOverpayment || st.book.customers[request.customer].balance >= request.amount)
  }

  lemma RepayStep(st: State, i: nat, request: RepaymentRequest)
    requires Inv(st) && CallOk(st.messages, Call(i, request, false))
    ensures
      var st' := Shop.Step(st, Repay(request));
      if Posts(st, request) then
        && |st'.book.entries| == |st.book.entries| + 1 && st.book.entries <= st'.book.entries
        && var e := st'.book.entries[|st.book.entries|];
           && e.amount == -(st.messages[i].amount as int) && e.key == Some(RepaymentKey(i))
           && request.customer in st'.book.customers
           && st'.book.customers[request.customer].balance
             == st.book.customers[request.customer].balance - st.messages[i].amount
           && st'.messages == (
                if st.messages[i].status == Unmatched
                then st.messages[i := MarkMatched(st.messages[i], None, Some(|st.book.entries|))] else st.messages)
      else st' == st
  {
    hide Inventory.StockInv, Credit.CreditInv, SalesMatchStock, SalesMatchCredit, SalesReconcile, LinkReference;
    MpesaTheorems.CodeNormalised(request.reference);
    if st.messages[i].status == Unmatched {
      MpesaTheorems.LinksOnlyThatMessage(st.messages, i, |st.book.entries|);
    } else {
      LinksNothing(st.messages, i, |st.book.entries|);
    }
  }

  /** The hook finds no other message: codes are unique. */
  lemma LinksNothing(messages: seq<Message>, i: nat, e: nat)
    requires OneToOne(messages) && i < |messages| && messages[i].status != Unmatched && messages[i].code.Some?
    ensures LinkReference(messages, messages[i].code.value, None, Some(e)) == messages
  {
    MpesaTheorems.CodeNormalised(messages[i].code.value);
    forall j | 0 <= j < |messages| ensures !LinkHits(messages[j], messages[i].code.value) {
      assert j < i ==> messages[j].code.Some? ==> messages[j].code != messages[i].code;
      assert i < j ==> messages[i].code != messages[j].code;
    }
  }

  /**
   * In every run, when a call's transaction comes: it posts one entry for the message's amount if
   * the key is new and the balance allows it, and the entry is linked to its message, and to no
   * other, exactly when the message is still UNMATCHED at that moment; otherwise nothing changes.
   */
  lemma LinkedIffStillUnmatched(events: seq<Event>, k: nat)
    requires var w := Run(START, events); k < |w.calls| && !w.calls[k].ended
    ensures
      var w := Run(START, events);
      var w' := Step(w, Post(k));
      var i, e := w.calls[k].message, |w.shop.book.entries|;
      && i < |w.shop.messages|
      && (Posts(w.shop, w.calls[k].request) ==>
            && |w'.shop.book.entries| == e + 1
            && w'.shop.book.entries[e].amount == -(w.shop.messages[i].amount as int)
            && w'.shop.book.entries[e].key == Some(RepaymentKey(i))
            && i < |w'.shop.messages|
            && (w'.shop.messages[i].repayment == Some(e) <==> w.shop.messages[i].status == Unmatched)
            && (forall j :: 0 <= j < |w.shop.messages| && j != i ==> w'.shop.messages[j] == w.shop.messages[j]))
      && (!Posts(w.shop, w.calls[k].request) ==> w'.shop == w.shop)
  {
    hide Run, Shop.Step, Inv, Posts;
    EveryRunKeepsInv(events);
    var w := Run(START, events);
    var call := w.calls[k];
    RepayStep(w.shop, call.message, call.request);
    NotYetLinked(w.shop, call.message);
  }

  lemma NotYetLinked(st: State, i: nat)
    requires Inv(st) && i < |st.messages|
    ensures st.messages[i].repayment != Some(|st.book.entries|)
  {
  }

  /** In every run a message has at most one repayment, however often it is recorded. */
  lemma OneRepaymentPerMessage(events: seq<Event>, m: nat, i: nat, j: nat)
    requires
      var entries := Run(START, events).shop.book.entries;
      && i < |entries| && entries[i].key == Some(RepaymentKey(m))
      && j < |entries| && entries[j].key == Some(RepaymentKey(m))
    ensures i == j
  {
    hide Run;
    EveryRunKeepsInv(events);
    UniqueKeys(Run(START, events).shop);
  }

  lemma UniqueKeys(st: State)
    requires Inv(st)
    ensures Credit.KeysUnique(st.book.entries)
  {
  }
}
