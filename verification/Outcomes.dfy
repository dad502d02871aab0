/**
 * What each operation of the shop does, in the request's own terms: exactly when it is accepted,
 * what it writes, and that nothing else changes. A refused operation changes nothing.
 */
module Outcomes {
  import opened Prelude
  import opened SaleRecords
  import opened Shop
  import Text
  import Inventory
  import Credit
  import MpesaLinks
  import MpesaTheorems
  import SaleConditions
  import ShopInvariant
  import ShopRuns

  lemma RefusedChangesNothing(st: State, op: Op)
    ensures Attempt(st, op).Err? ==> Step(st, op) == st
    ensures Attempt(st, op).Ok? ==> Step(st, op) == Attempt(st, op).value
  {
    hide Attempt;
  }

  // --- stock ------------------------------------------------------------------------------------------

  /** The product can be handled by hand: it exists, is not archived, and is tracked. */
  predicate Stockable(st: State, p: Id) {
    p in st.stock.products && st.stock.products[p].active && st.stock.products[p].tracked
  }

  predicate EverMoved(st: State, p: Id) {
    exists i :: 0 <= i < |st.stock.movements| && st.stock.movements[i].product == p
  }

  lemma AddProductOutcome(
    st: State, p: Id, tracked: bool, price: nat, cost: Option<nat>, opening: Option<pos>, openingCost: Option<nat>)
    ensures
      var r := Attempt(st, AddProduct(p, tracked, price, cost, opening, openingCost));
      var quantity: nat := if opening.Some? then opening.value else 0;
      var paid := if openingCost.Some? then openingCost else cost;
      && (r.Ok? <==> p !in st.stock.products && (opening.Some? ==> tracked))
      && (r.Ok? ==> r.value == st.(stock := Inventory.Stock(
            st.stock.products[p := Inventory.Product(tracked, true, quantity, price, cost)],
            st.stock.movements
              + if opening.None? then []
                else [Inventory.Movement(p, Inventory.Initial, quantity, quantity, paid, None)])))
  {
  }

  lemma EditProductOutcome(st: State, p: Id, tracked: bool, active: bool, price: nat, cost: Option<nat>)
    ensures
      var r := Attempt(st, EditProduct(p, tracked, active, price, cost));
      && (r.Ok? <==>
            && p in st.stock.products
            && (tracked || !st.stock.products[p].tracked || (st.stock.products[p].quantity == 0 && !EverMoved(st, p))))
      && (r.Ok? ==>
            var product := Inventory.Product(tracked, active, st.stock.products[p].quantity, price, cost);
            r.value == st.(stock := Inventory.Stock(st.stock.products[p := product], st.stock.movements)))
  {
  }

  /** The stock of p moved by delta, with the movement that says so, and nothing else. */
  predicate Moved(
    st: State, st': State, p: Id, kind: Inventory.MovementKind, delta: int, unitCost: Option<nat>, newCost: Option<nat>)
    requires p in st.stock.products
  {
    var after := st.stock.products[p].quantity + delta;
    st' == st.(stock := Inventory.Stock(
      st.stock.products[p := st.stock.products[p].(quantity := after, cost := newCost)],
      st.stock.movements + [Inventory.Movement(p, kind, delta, after, unitCost, None)]))
  }

  lemma RestockOutcome(st: State, p: Id, quantity: pos, unitCost: nat, updateCost: bool)
    ensures
      var r := Attempt(st, Restock(p, quantity, unitCost, updateCost));
      && (r.Ok? <==> Stockable(st, p) && st.stock.products[p].quantity + quantity >= 0)
      && (r.Ok? ==>
            var newCost := if updateCost then Some(unitCost) else st.stock.products[p].cost;
            Moved(st, r.value, p, Inventory.Restocked, quantity, Some(unitCost), newCost))
  {
  }

  lemma AdjustStockOutcome(st: State, p: Id, delta: int)
    ensures
      var r := Attempt(st, AdjustStock(p, delta));
      && (r.Ok? <==> Stockable(st, p) && st.stock.products[p].quantity + delta >= 0)
      && (r.Ok? ==> Moved(st, r.value, p, Inventory.Adjusted, delta, None, st.stock.products[p].cost))
  {
  }

  lemma InitialStockOutcome(st: State, p: Id, quantity: pos, unitCost: nat)
    ensures
      var r := Attempt(st, InitialStock(p, quantity, unitCost));
      && (r.Ok? <==> Stockable(st, p) && !EverMoved(st, p) && st.stock.products[p].quantity + quantity >= 0)
      && (r.Ok? ==> Moved(st, r.value, p, Inventory.Initial, quantity, Some(unitCost), st.stock.products[p].cost))
  {
  }

  // --- credit -----------------------------------------------------------------------------------------

  lemma PutCustomerOutcome(st: State, c: Id, active: bool, limit: Option<nat>)
    ensures
      var st' := Step(st, PutCustomer(c, active, limit));
      var balance := if c in st.book.customers then st.book.customers[c].balance else 0;
      st' == st.(book := Credit.Book(st.book.customers[c := Credit.Customer(active, balance, limit)], st.book.entries))
  {
  }

  /** No entry has the key yet; a request without a key is always new. */
  predicate KeyIsNew(st: State, key: Option<Key>) {
    key.Some? ==> forall i :: 0 <= i < |st.book.entries| ==> st.book.entries[i].key != key
  }

  /** The balance moved by this amount, with the one entry that says so; other accounts and tables stay. */
  predicate Posted(st: State, st': State, c: Id, amount: int)
    requires c in st.book.customers
  {
    && st'.stock == st.stock && st'.sales == st.sales
    && st'.book.customers
       == st.book.customers[c := st.book.customers[c].(balance := st.book.customers[c].balance + amount)]
    && |st'.book.entries| == |st.book.entries| + 1 && st.book.entries <= st'.book.entries
    && var e := st'.book.entries[|st.book.entries|];
       e.customer == c && e.amount == amount && e.after == st.book.customers[c].balance + amount && e.sale == None
  }

  lemma AdjustCreditOutcome(st: State, c: Id, signed: int, key: Option<Key>, digest: nat)
    requires KeyIsNew(st, key)
    ensures
      var r := Attempt(st, AdjustCredit(c, signed, key, digest));
      && (r.Ok? <==> c in st.book.customers && signed != 0 && st.book.customers[c].balance + signed >= 0)
      && (r.Ok? ==>
            && Posted(st, r.value, c, signed) && r.value.messages == st.messages
            && var e := r.value.book.entries[|st.book.entries|];
               e.kind == Credit.Adjustment && e.key == key && e.digest == digest && e.via == None && e.reference == "")
  {
  }

  lemma RepayOutcome(st: State, req: RepaymentRequest)
    requires KeyIsNew(st, req.key)
    ensures
      var r := Attempt(st, Repay(req));
      var c := req.customer;
      && (r.Ok? <==> c in st.book.customers && (req.allowOverpayment || st.book.customers[c].balance >= req.amount))
      && (r.Ok? ==>
            && Posted(st, r.value, c, -(req.amount as int))
            && (var e := r.value.book.entries[|st.book.entries|];
                && e.kind == Credit.Repayment && e.via == Some(req.via) && e.reference == Text.Trim(req.reference)
                && e.key == req.key && e.digest == req.digest)
            && (req.via == Credit.Cash || Text.Trim(req.reference) == "" ==> r.value.messages == st.messages))
  {
    hide MpesaLinks.LinkReference, Text.Trim;
  }

  /** Under a key that is taken, the same payload changes nothing, and another is refused. */
  lemma TakenKeyOutcome(st: State, req: RepaymentRequest, i: nat)
    requires Credit.KeysUnique(st.book.entries) && req.key.Some?
    requires i < |st.book.entries| && st.book.entries[i].key == req.key && req.customer in st.book.customers
    ensures
      Attempt(st, Repay(req)) == if st.book.entries[i].digest == req.digest then Ok(st) else Err(IdempotencyConflict)
  {
    assert Credit.FindKey(st.book.entries, req.key.value) == Some(i);
  }

  lemma TakenKeyAdjustment(st: State, c: Id, signed: int, key: Key, digest: nat, i: nat)
    requires Credit.KeysUnique(st.book.entries) && c in st.book.customers
    requires i < |st.book.entries| && st.book.entries[i].key == Some(key)
    ensures
      Attempt(st, AdjustCredit(c, signed, Some(key), digest))
      == if st.book.entries[i].digest == digest then Ok(st) else Err(IdempotencyConflict)
  {
    assert Credit.FindKey(st.book.entries, key) == Some(i);
  }

  /** A sale under a taken key: the same payload names the first sale and changes nothing, another is refused. */
  lemma TakenKeySale(st: State, req: SaleRequest, i: nat)
    requires SchemaOk(req) && i < |st.sales| && st.sales[i].key == req.key
    requires forall j, k :: 0 <= j < k < |st.sales| ==> st.sales[j].key != st.sales[k].key
    ensures
      CreateSale(st, req)
      == if st.sales[i].digest == req.digest then Ok(Created(st, i, false)) else Err(IdempotencyConflict)
  {
    hide PriceSale, RecordSale;
    assert FindSaleKey(st.sales, req.key) == Some(i);
  }

  /** The ledger gains one entry of this kind and amount that names the sale, and the balance follows it. */
  predicate PostedForSale(book: Credit.Book, book': Credit.Book, c: Id, kind: Credit.EntryKind, amount: int, sale: nat)
    requires c in book.customers
  {
    var after := book.customers[c].balance + amount;
    && book'.customers == book.customers[c := book.customers[c].(balance := after)]
    && book'.entries == book.entries + [Credit.Entry(c, kind, amount, after, Some(sale), None, "", None, 0)]
  }

  /** A newly created sale posts one CHARGE of its CREDIT tenders, or nothing if it has none. */
  lemma NewSalePosts(st: State, req: SaleRequest)
    requires CreateSale(st, req).Ok? && CreateSale(st, req).value.created
    ensures
      var st' := CreateSale(st, req).value.state;
      var charge := Sum(req.payments, SaleConditions.OnAccount());
      if charge > 0 && req.customer.Some? then
        && req.customer.value in st.book.customers
        && PostedForSale(st.book, st'.book, req.customer.value, Credit.Charge, charge, |st.sales|)
      else st'.book == st.book
  {
    hide PriceSale, SellItems, MpesaLinks.LinkTenders, Sum, Charged;
    SaleConditions.ChargedAsSent(st, req);
  }

  /** A void posts one REVERSAL of what the sale charged, whatever the balance, or nothing. */
  lemma VoidPosts(st: State, id: nat)
    requires VoidSale(st, id).Ok?
    ensures
      var sale := st.sales[id];
      var charge := Sum(sale.payments, CreditAmount());
      if charge > 0 && sale.customer.Some? then
        && sale.customer.value in st.book.customers
        && PostedForSale(st.book, VoidSale(st, id).value.book, sale.customer.value, Credit.Reversal, -charge, id)
      else VoidSale(st, id).value.book == st.book
  {
    hide MovementsOf, ReverseMovements, MpesaLinks.UnlinkTenders, Sum;
  }

  // --- messages -----------------------------------------------------------------------------------------

  /** An M-Pesa tender of a COMPLETED sale. */
  predicate EligibleTender(st: State, ref: MpesaLinks.PaymentRef) {
    && ref.sale < |st.sales| && st.sales[ref.sale].status == Completed
    && ref.index < |st.sales[ref.sale].payments| && st.sales[ref.sale].payments[ref.index].tender == Mpesa
  }

  /** A repayment received by M-Pesa. */
  predicate EligibleEntry(st: State, e: nat) {
    && e < |st.book.entries| && st.book.entries[e].kind == Credit.Repayment
    && st.book.entries[e].via == Some(Credit.Mpesa)
  }

  predicate TenderIsFree(st: State, ref: MpesaLinks.PaymentRef) {
    forall i :: 0 <= i < |st.messages| ==> st.messages[i].payment != Some(ref)
  }

  predicate EntryIsFree(st: State, e: nat) {
    forall i :: 0 <= i < |st.messages| ==> st.messages[i].repayment != Some(e)
  }

  /** Only message i differs: it is MATCHED, with this link and no other; its code and amount stay. */
  predicate Linked(st: State, st': State, i: nat, payment: Option<MpesaLinks.PaymentRef>, repayment: Option<nat>)
    requires i < |st.messages|
  {
    var m := st.messages[i];
    st' == st.(messages :=
      st.messages[i := MpesaLinks.Message(m.code, m.amount, MpesaLinks.Matched, payment, repayment)])
  }

  lemma MatchOutcome(st: State, i: nat, target: MpesaLinks.Target)
    ensures
      var r := Attempt(st, MatchMessage(i, target));
      && (r.Ok? <==>
            && i < |st.messages| && st.messages[i].status == MpesaLinks.Unmatched
            && match target
               case ToTender(ref) => EligibleTender(st, ref) && TenderIsFree(st, ref)
               case ToRepayment(e) => EligibleEntry(st, e) && EntryIsFree(st, e))
      && (r.Ok? ==>
            match target
            case ToTender(ref) => Linked(st, r.value, i, Some(ref), None)
            case ToRepayment(e) => Linked(st, r.value, i, None, Some(e)))
  {
  }

  lemma IgnoreOutcome(st: State, i: nat)
    ensures
      var r := Attempt(st, IgnoreMessage(i));
      && (r.Ok? <==> i < |st.messages| && st.messages[i].status != MpesaLinks.Matched)
      && (r.Ok? ==>
            var m := st.messages[i];
            r.value == st.(messages := st.messages[i :=
              MpesaLinks.Message(m.code, m.amount, MpesaLinks.Ignored, m.payment, m.repayment)]))
  {
    hide MpesaLinks.MarkMatched;
  }

  /** An unlinked tender whose stored reference spells the code. */
  predicate TenderWaits(st: State, ref: MpesaLinks.PaymentRef, code: Text.Code) {
    && EligibleTender(st, ref) && TenderIsFree(st, ref)
    && Text.CodeOf(st.sales[ref.sale].payments[ref.index].reference) == code
  }

  predicate EntryWaits(st: State, e: nat, code: Text.Code) {
    EligibleEntry(st, e) && EntryIsFree(st, e) && Text.CodeOf(st.book.entries[e].reference) == code
  }

  /** No waiting tender was recorded before this one. */
  ghost predicate FirstTender(st: State, ref: MpesaLinks.PaymentRef, code: Text.Code) {
    && TenderWaits(st, ref, code)
    && forall q: MpesaLinks.PaymentRef ::
         q.sale < ref.sale || (q.sale == ref.sale && q.index < ref.index) ==> !TenderWaits(st, q, code)
  }

  ghost predicate FirstEntry(st: State, e: nat, code: Text.Code) {
    EntryWaits(st, e, code) && forall k: nat :: k < e ==> !EntryWaits(st, k, code)
  }

  lemma PasteUnreadOutcome(st: State, amount: pos)
    ensures
      Step(st, PasteMessage(None, amount))
      == st.(messages := st.messages + [MpesaLinks.Message(None, 0, MpesaLinks.Unparsed, None, None)])
  {
  }

  lemma WaitingMeans(st: State, code: Text.Code)
    ensures forall ref: MpesaLinks.PaymentRef ::
      TenderWaits(st, ref, code)
      <==> MpesaLinks.TenderCarries(st.sales, ref, code) && !MpesaLinks.TenderLinked(st.messages, ref)
    ensures forall e: nat ::
      EntryWaits(st, e, code)
      <==> MpesaLinks.RepaymentCarries(st.book.entries, e, code) && !MpesaLinks.RepaymentLinked(st.messages, e)
  {
  }

  lemma FoundMeans(st: State, code: Text.Code)
    ensures
      var tender := MpesaLinks.FindTender(st.sales, st.messages, code, 0, 0);
      if tender.Some? then FirstTender(st, tender.value, code)
      else forall ref: MpesaLinks.PaymentRef :: !TenderWaits(st, ref, code)
    ensures
      var entry := MpesaLinks.FindRepayment(st.book.entries, st.messages, code, 0);
      if entry.Some? then FirstEntry(st, entry.value, code) else forall e: nat :: !EntryWaits(st, e, code)
  {
    hide TenderWaits, EntryWaits, MpesaLinks.FindTender, MpesaLinks.FindRepayment, MpesaLinks.TenderCarries,
      MpesaLinks.RepaymentCarries, MpesaLinks.TenderLinked, MpesaLinks.RepaymentLinked;
    WaitingMeans(st, code);
  }

  /**
   * A known code changes nothing. A new one becomes one message, linked to the first waiting tender if
   * there is one, else to the first waiting repayment if there is one, and else UNMATCHED.
   */
  lemma PasteCodeOutcome(st: State, code: Text.Code, amount: pos)
    ensures
      var st' := Step(st, PasteMessage(Some(code), amount));
      && st' == st.(messages := st'.messages)
      && if exists i :: 0 <= i < |st.messages| && st.messages[i].code == Some(code) then st' == st
         else
           && |st'.messages| == |st.messages| + 1 && st.messages <= st'.messages
           && var m := st'.messages[|st.messages|];
              && m.code == Some(code) && m.amount == amount
              && (m.payment.None? ==> forall ref: MpesaLinks.PaymentRef :: !TenderWaits(st, ref, code))
              && (m.payment.Some? ==> FirstTender(st, m.payment.value, code) && m.repayment.None?)
              && (m.payment.None? && m.repayment.None? ==> forall e: nat :: !EntryWaits(st, e, code))
              && (m.repayment.Some? ==> FirstEntry(st, m.repayment.value, code))
              && m.status == (if m.payment.Some? || m.repayment.Some? then MpesaLinks.Matched else MpesaLinks.Unmatched)
  {
    hide MpesaLinks.FindTender, MpesaLinks.FindRepayment, TenderWaits, EntryWaits, FirstTender, FirstEntry;
    FoundMeans(st, code);
  }

  /** What valid links mean: exactly one link on a MATCHED message, to an eligible record. */
  lemma LinkedAreEligible(st: State, i: nat)
    requires MpesaLinks.LinksValid(st.messages, st.sales, st.book.entries) && i < |st.messages|
    ensures st.messages[i].payment.Some? ==> EligibleTender(st, st.messages[i].payment.value)
    ensures st.messages[i].repayment.Some? ==> EligibleEntry(st, st.messages[i].repayment.value)
    ensures st.messages[i].status == MpesaLinks.Matched <==>
      (st.messages[i].payment.Some? && st.messages[i].repayment.None?)
      || (st.messages[i].payment.None? && st.messages[i].repayment.Some?)
  {
  }

  // --- links written by records ---------------------------------------------------------------------------

  /** The first tender among the first n that is M-Pesa and whose reference spells the message's code. */
  function FirstSpelling(payments: seq<Payment>, n: nat, code: Option<Text.Code>): (r: Option<nat>)
    requires n <= |payments|
    ensures r.Some? ==> r.value < n
  {
    if n == 0 then None
    else
      var earlier := FirstSpelling(payments, n - 1, code);
      if earlier.Some? then earlier
      else if code.Some? && payments[n - 1].tender == Mpesa && Text.Normalised(payments[n - 1].reference) == code.value
      then Some(n - 1) else None
  }

  /** A sale links an UNMATCHED message to its first tender that spells the code, and changes no other message. */
  lemma {:induction false} SaleLinksExactly(
    messages: seq<MpesaLinks.Message>, sale: nat, payments: seq<Payment>, n: nat, i: nat)
    requires n <= |payments| && i < |messages|
    ensures
      var m := messages[i];
      var k := FirstSpelling(payments, n, m.code);
      MpesaLinks.LinkTenders(messages, sale, payments, n)[i]
      == if m.status == MpesaLinks.Unmatched && k.Some?
         then MpesaLinks.Message(m.code, m.amount, MpesaLinks.Matched, Some(MpesaLinks.PaymentRef(sale, k.value)), None)
         else m
  {
    if n > 0 {
      SaleLinksExactly(messages, sale, payments, n - 1, i);
      BlankSpellsNothing(payments[n - 1].reference, messages[i].code);
    }
  }

  /** What a newly created sale does to each message. */
  lemma NewSaleLinks(st: State, req: SaleRequest, i: nat)
    requires CreateSale(st, req).Ok? && CreateSale(st, req).value.created && i < |st.messages|
    ensures
      var st' := CreateSale(st, req).value.state;
      && |st'.sales| == |st.sales| + 1 && |st'.messages| == |st.messages|
      && var m, payments := st.messages[i], st'.sales[|st.sales|].payments;
         var k := FirstSpelling(payments, |payments|, m.code);
         st'.messages[i]
         == if m.status == MpesaLinks.Unmatched && k.Some?
            then MpesaLinks.Message(
              m.code, m.amount, MpesaLinks.Matched, Some(MpesaLinks.PaymentRef(|st.sales|, k.value)), None)
            else m
  {
    hide PriceSale, SellItems, ChargeSale, MpesaLinks.LinkTenders;
    SaleConditions.SaleRowAdded(st, req);
    var sale := PriceSale(st, req).value;
    SaleLinksExactly(st.messages, |st.sales|, sale.payments, |sale.payments|, i);
  }

  lemma BlankSpellsNothing(reference: string, code: Option<Text.Code>)
    ensures code.Some? && Text.Normalised(reference) == code.value ==>
              reference != "" && Text.Normalised(reference) != ""
  {
  }

  /** A repayment by M-Pesa links the UNMATCHED message its reference spells, and leaves every other message alone. */
  lemma RepayLinksExactly(st: State, req: RepaymentRequest, i: nat)
    requires KeyIsNew(st, req.key) && Attempt(st, Repay(req)).Ok? && i < |st.messages|
    ensures
      var m := st.messages[i];
      var st' := Attempt(st, Repay(req)).value;
      && |st'.messages| == |st.messages|
      && st'.messages[i]
         == if req.via == Credit.Mpesa && m.status == MpesaLinks.Unmatched && m.code.Some?
               && m.code.value == Text.Normalised(Text.Trim(req.reference))
            then MpesaLinks.Message(m.code, m.amount, MpesaLinks.Matched, None, Some(|st.book.entries|))
            else m
  {
    hide Text.Trim, Text.Normalised;
    BlankSpellsNothing(Text.Trim(req.reference), st.messages[i].code);
  }

  /** In every run a MATCHED message has exactly one link, to an eligible record. */
  lemma LinksInEveryRun(ops: seq<Op>, i: nat)
    requires i < |Run(EMPTY, ops).messages|
    ensures
      var st := Run(EMPTY, ops);
      var m := st.messages[i];
      && (m.payment.Some? ==> EligibleTender(st, m.payment.value))
      && (m.repayment.Some? ==> EligibleEntry(st, m.repayment.value))
      && (m.status == MpesaLinks.Matched <==> m.payment.Some? != m.repayment.Some?)
      && !(m.payment.Some? && m.repayment.Some?)
  {
    hide Run;
    MpesaTheorems.LinksInEveryRun(ops);
    LinkedAreEligible(Run(EMPTY, ops), i);
  }

  // --- voiding ----------------------------------------------------------------------------------------------

  /** A void writes, for each movement of the sale in order, its mirror image, and nothing else to the stock ledger. */
  lemma VoidMirrors(st: State, id: nat)
    requires ShopInvariant.Inv(st) && id < |st.sales| && st.sales[id].status == Completed
    ensures VoidSale(st, id).Ok?
    ensures
      var ms := MovementsOf(st.stock.movements, id);
      var after := VoidSale(st, id).value.stock.movements;
      && |after| == |st.stock.movements| + |ms| && st.stock.movements <= after
      && forall k :: 0 <= k < |ms| ==>
           var m := after[|st.stock.movements| + k];
           && m.product == ms[k].product && m.kind == Inventory.SaleReversed && m.delta == -ms[k].delta
           && m.unitCost == ms[k].unitCost && m.sale == Some(id)
  {
    hide ReverseMovements, MovementsOf, ReverseCharge, MpesaLinks.UnlinkTenders, Credit.CreditInv,
      ShopInvariant.SalesMatchCredit, MpesaLinks.MpesaInv, ShopInvariant.SalesReconcile;
    var ms := MovementsOf(st.stock.movements, id);
    ShopRuns.VoidSucceeds(st, id);
    ShopInvariant.CompletedIsReversible(st, id);
    forall k | 0 <= k < |ms| ensures ms[k].kind == Inventory.Sold { assert ms[k] in ms; }
    SaleConditions.ReversalsMirror(st.stock, ms, |ms|, id);
  }

  /** The movements of a sale are all of its movements, once each, in posting order: a filter of the ledger. */
  lemma {:induction false} MovementsOfIsFilter(
    before: seq<Inventory.Movement>, after: seq<Inventory.Movement>, m: Inventory.Movement, sale: nat)
    ensures MovementsOf(before + after, sale) == MovementsOf(before, sale) + MovementsOf(after, sale)
    ensures MovementsOf([], sale) == [] && MovementsOf([m], sale) == if m.sale == Some(sale) then [m] else []
  {
    if after == [] {
      assert before + after == before;
    } else {
      var front, last := after[..|after| - 1], after[|after| - 1];
      MovementsOfIsFilter(before, front, m, sale);
      assert (before + after)[..|before + after| - 1] == before + front;
      assert (before + after)[|before + after| - 1] == last;
    }
  }

  /** A link to one of the sale's first n tenders, of those that are M-Pesa. */
  predicate LinkedToSale(m: MpesaLinks.Message, sale: nat, payments: seq<Payment>, n: nat)
    requires n <= |payments|
  {
    && m.status == MpesaLinks.Matched && m.payment.Some? && m.payment.value.sale == sale
    && m.payment.value.index < n && payments[m.payment.value.index].tender == Mpesa
  }

  lemma {:induction false} UnlinksExactly(
    messages: seq<MpesaLinks.Message>, sale: nat, payments: seq<Payment>, n: nat, i: nat)
    requires n <= |payments| && i < |messages|
    ensures
      var m := messages[i];
      MpesaLinks.UnlinkTenders(messages, sale, payments, n)[i]
      == if LinkedToSale(m, sale, payments, n)
         then MpesaLinks.Message(m.code, m.amount, MpesaLinks.Unmatched, None, m.repayment) else m
  {
    if n > 0 { UnlinksExactly(messages, sale, payments, n - 1, i); }
  }

  /** A void returns each message linked to the sale to UNMATCHED, with its code and amount, and no other message. */
  lemma VoidUnlinksExactly(st: State, id: nat, i: nat)
    requires MpesaLinks.LinksValid(st.messages, st.sales, st.book.entries) && VoidSale(st, id).Ok? && i < |st.messages|
    ensures
      var m, st' := st.messages[i], VoidSale(st, id).value;
      && |st'.messages| == |st.messages|
      && st'.messages[i]
         == if m.payment.Some? && m.payment.value.sale == id
            then MpesaLinks.Message(m.code, m.amount, MpesaLinks.Unmatched, None, None) else m
  {
    hide MovementsOf, ReverseMovements, ReverseCharge, MpesaLinks.UnlinkTenders;
    var payments := st.sales[id].payments;
    UnlinksExactly(st.messages, id, payments, |payments|, i);
    assert MpesaLinks.WellLinked(st.messages[i]);
  }
}
