/** The M-Pesa links over whole runs: finality, completeness, and independence of order. */
module MpesaTheorems {
  import opened Prelude
  import opened SaleRecords
  import opened Shop
  import opened ShopInvariant
  import opened ShopRuns
  import opened MpesaLinks
  import Text
  import Inventory
  import Credit

  // --- IGNORED is final -------------------------------------------------------------------------

  predicate IgnoredKept(a: seq<Message>, b: seq<Message>) {
    |a| <= |b| && forall i :: 0 <= i < |a| && a[i].status == Ignored ==> b[i] == a[i]
  }

  lemma {:induction false} LinkTendersKeepsIgnored(messages: seq<Message>, sale: nat, payments: seq<Payment>, n: nat)
    requires n <= |payments|
    ensures IgnoredKept(messages, LinkTenders(messages, sale, payments, n))
  {
    if n > 0 { LinkTendersKeepsIgnored(messages, sale, payments, n - 1); }
  }

  lemma {:induction false} UnlinkTendersKeepsIgnored(messages: seq<Message>, sale: nat, payments: seq<Payment>, n: nat)
    requires n <= |payments|
    ensures IgnoredKept(messages, UnlinkTenders(messages, sale, payments, n))
  {
    if n > 0 { UnlinkTendersKeepsIgnored(messages, sale, payments, n - 1); }
  }

  lemma SellKeepsIgnored(st: State, req: SaleRequest)
    requires CreateSale(st, req).Ok?
    ensures IgnoredKept(st.messages, CreateSale(st, req).value.state.messages)
  {
    hide SellItems, PriceSale, ChargeSale, LinkTenders;
    if FindSaleKey(st.sales, req.key).None? {
      var sale := PriceSale(st, req).value;
      LinkTendersKeepsIgnored(st.messages, |st.sales|, sale.payments, |sale.payments|);
    }
  }

  lemma VoidKeepsIgnored(st: State, id: nat)
    requires VoidSale(st, id).Ok?
    ensures IgnoredKept(st.messages, VoidSale(st, id).value.messages)
  {
    hide ReverseMovements, MovementsOf, ReverseCharge, UnlinkTenders;
    UnlinkTendersKeepsIgnored(st.messages, id, st.sales[id].payments, |st.sales[id].payments|);
  }

  lemma StepKeepsIgnored(st: State, op: Op)
    ensures IgnoredKept(st.messages, Step(st, op).messages)
  {
    hide CreateSale, VoidSale, LinkExisting, Credit.Record, Inventory.Repaired, Inventory.CreateProduct,
      Inventory.UpdateProduct, Inventory.Restock, Inventory.Adjust, Inventory.SetInitialStock;
    if op.Sell? && CreateSale(st, op.sale).Ok? {
      SellKeepsIgnored(st, op.sale);
    } else if op.Void? && VoidSale(st, op.id).Ok? {
      VoidKeepsIgnored(st, op.id);
    }
  }

  /** Once ignored, a message never changes again, over any run. */
  lemma {:induction false} IgnoredIsFinal(st: State, ops: seq<Op>, i: nat)
    requires i < |st.messages| && st.messages[i].status == Ignored
    ensures i < |Run(st, ops).messages| && Run(st, ops).messages[i] == st.messages[i]
  {
    if ops != [] {
      IgnoredIsFinal(st, ops[..|ops| - 1], i);
      StepKeepsIgnored(Run(st, ops[..|ops| - 1]), ops[|ops| - 1]);
    }
  }

  /** The one-to-one links hold in every state a run can reach. */
  lemma LinksInEveryRun(ops: seq<Op>)
    ensures
      var st := Run(EMPTY, ops);
      LinksValid(st.messages, st.sales, st.book.entries) && OneToOne(st.messages)
  {
    EveryRunKeepsInv(ops);
  }

  // --- nothing is left unlinked that could be linked ----------------------------------------------

  /** Every eligible record carrying the code is already linked to some message. */
  ghost predicate Served(messages: seq<Message>, sales: seq<Sale>, entries: seq<Credit.Entry>, code: Text.Code) {
    && (forall ref :: TenderCarries(sales, ref, code) ==> TenderLinked(messages, ref))
    && (forall e :: RepaymentCarries(entries, e, code) ==> RepaymentLinked(messages, e))
  }

  /** No UNMATCHED message coexists with an unlinked record carrying its code. */
  ghost predicate NoOrphans(messages: seq<Message>, sales: seq<Sale>, entries: seq<Credit.Entry>) {
    forall i :: 0 <= i < |messages| && messages[i].status == Unmatched && messages[i].code.Some? ==>
      Served(messages, sales, entries, messages[i].code.value)
  }

  ghost predicate NoOrphansIn(st: State) { NoOrphans(st.messages, st.sales, st.book.entries) }

  /** Messages may become matched and links may be added, nothing else. */
  predicate OnlyLinks(a: seq<Message>, b: seq<Message>) {
    && |a| == |b|
    && forall i :: 0 <= i < |a| ==>
      b[i] == a[i] || (a[i].status == Unmatched && b[i].status == Matched && b[i].code == a[i].code
        && a[i].payment.None? && a[i].repayment.None?)
  }

  lemma OnlyLinksKeepsLinks(a: seq<Message>, b: seq<Message>)
    requires OnlyLinks(a, b)
    ensures forall ref :: TenderLinked(a, ref) ==> TenderLinked(b, ref)
    ensures forall e :: RepaymentLinked(a, e) ==> RepaymentLinked(b, e)
  {
    forall ref | TenderLinked(a, ref) ensures TenderLinked(b, ref) {
      var i :| 0 <= i < |a| && a[i].payment == Some(ref);
      assert b[i].payment == Some(ref);
    }
    forall e: nat | RepaymentLinked(a, e) ensures RepaymentLinked(b, e) {
      var i :| 0 <= i < |a| && a[i].repayment == Some(e);
      assert b[i].repayment == Some(e);
    }
  }

  predicate UnmatchedUnlinked(messages: seq<Message>) {
    forall i :: 0 <= i < |messages| && messages[i].status == Unmatched ==>
      messages[i].payment.None? && messages[i].repayment.None?
  }

  /** The tender's reference normalises to the message's code. */
  predicate Announces(p: Payment, m: Message) {
    && p.tender == Mpesa && p.reference != "" && Text.Normalised(p.reference) != ""
    && m.code.Some? && m.code.value == Text.Normalised(p.reference)
  }

  lemma {:induction false} LinkTendersOnlyLinks(messages: seq<Message>, sale: nat, payments: seq<Payment>, n: nat)
    requires n <= |payments| && UnmatchedUnlinked(messages)
    ensures OnlyLinks(messages, LinkTenders(messages, sale, payments, n))
    ensures forall i, k :: 0 <= i < |messages| && 0 <= k < n && Announces(payments[k], messages[i]) ==>
      LinkTenders(messages, sale, payments, n)[i].status != Unmatched
  {
    if n > 0 { LinkTendersOnlyLinks(messages, sale, payments, n - 1); }
  }

  lemma CodeIsNormalised(reference: string, code: Text.Code)
    requires Text.Trim(reference) == reference && Text.CodeOf(reference) == code
    ensures reference != "" && Text.Normalised(reference) == code
  {
    Text.StoredCodesAgree(reference);
  }

  /** A new sale links every waiting message whose code it carries. */
  lemma SaleLeavesNoOrphans(
    messages: seq<Message>, sales: seq<Sale>, entries: seq<Credit.Entry>, entries': seq<Credit.Entry>, sale: Sale)
    requires NoOrphans(messages, sales, entries) && UnmatchedUnlinked(messages) && SaleReconciles(sale)
    requires forall e, code: Text.Code :: RepaymentCarries(entries', e, code) ==> RepaymentCarries(entries, e, code)
    ensures NoOrphans(LinkTenders(messages, |sales|, sale.payments, |sale.payments|), sales + [sale], entries')
  {
    var linked := LinkTenders(messages, |sales|, sale.payments, |sale.payments|);
    LinkTendersOnlyLinks(messages, |sales|, sale.payments, |sale.payments|);
    OnlyLinksKeepsLinks(messages, linked);
    forall i | 0 <= i < |linked| && linked[i].status == Unmatched && linked[i].code.Some?
      ensures Served(linked, sales + [sale], entries', linked[i].code.value)
    {
      var code := linked[i].code.value;
      assert Served(messages, sales, entries, code);
      forall ref | TenderCarries(sales + [sale], ref, code) ensures TenderLinked(linked, ref) {
        if ref.sale < |sales| {
          assert TenderCarries(sales, ref, code);
        } else {
          CodeIsNormalised(sale.payments[ref.index].reference, code);
          assert false;
        }
      }
    }
  }

  lemma RepaymentLeavesNoOrphans(messages: seq<Message>, sales: seq<Sale>, entries: seq<Credit.Entry>, e: Credit.Entry)
    requires NoOrphans(messages, sales, entries) && UnmatchedUnlinked(messages)
    requires e.kind == Credit.Repayment && e.via == Some(Credit.Mpesa) && Text.Trim(e.reference) == e.reference
    requires e.reference != ""
    ensures NoOrphans(LinkReference(messages, e.reference, None, Some(|entries|)), sales, entries + [e])
  {
    var linked := LinkReference(messages, e.reference, None, Some(|entries|));
    assert OnlyLinks(messages, linked);
    OnlyLinksKeepsLinks(messages, linked);
    forall i | 0 <= i < |linked| && linked[i].status == Unmatched && linked[i].code.Some?
      ensures Served(linked, sales, entries + [e], linked[i].code.value)
    {
      var code := linked[i].code.value;
      assert Served(messages, sales, entries, code);
      forall k: nat | RepaymentCarries(entries + [e], k, code) ensures RepaymentLinked(linked, k) {
        if k < |entries| {
          assert RepaymentCarries(entries, k, code);
        } else {
          CodeIsNormalised(e.reference, code);
          assert LinkHits(messages[i], code);
          assert false;
        }
      }
    }
  }

  lemma MoreLinksKeepServed(
    a: seq<Message>, b: seq<Message>, sales: seq<Sale>, entries: seq<Credit.Entry>, code: Text.Code)
    requires Served(a, sales, entries, code) && |a| <= |b|
    requires forall i :: 0 <= i < |a| && (a[i].payment.Some? || a[i].repayment.Some?) ==>
      b[i].payment == a[i].payment && b[i].repayment == a[i].repayment
    ensures Served(b, sales, entries, code)
  {
    forall ref | TenderCarries(sales, ref, code) ensures TenderLinked(b, ref) {
      var i :| 0 <= i < |a| && a[i].payment == Some(ref);
      assert b[i].payment == Some(ref);
    }
    forall e: nat | RepaymentCarries(entries, e, code) ensures RepaymentLinked(b, e) {
      var i :| 0 <= i < |a| && a[i].repayment == Some(e);
      assert b[i].repayment == Some(e);
    }
  }

  lemma PasteLeavesNoOrphans(
    messages: seq<Message>, sales: seq<Sale>, entries: seq<Credit.Entry>, parsed: Option<Text.Code>, amount: nat)
    requires NoOrphans(messages, sales, entries)
    ensures NoOrphans(Paste(messages, sales, entries, parsed, amount), sales, entries)
  {
    var r := Paste(messages, sales, entries, parsed, amount);
    forall i | 0 <= i < |r| && r[i].status == Unmatched && r[i].code.Some?
      ensures Served(r, sales, entries, r[i].code.value)
    {
      var code := r[i].code.value;
      if i < |messages| {
        assert r[i] == messages[i];
        assert Served(messages, sales, entries, code);
      } else {
        assert FindTender(sales, messages, code, 0, 0).None? && FindRepayment(entries, messages, code, 0).None?;
        assert Served(messages, sales, entries, code);
      }
      MoreLinksKeepServed(messages, r, sales, entries, code);
    }
  }

  lemma UpdateLeavesNoOrphans(messages: seq<Message>, sales: seq<Sale>, entries: seq<Credit.Entry>, i: nat, m: Message)
    requires NoOrphans(messages, sales, entries) && i < |messages|
    requires messages[i].payment.None? && messages[i].repayment.None? && m.status != Unmatched
    ensures NoOrphans(messages[i := m], sales, entries)
  {
    var r := messages[i := m];
    forall j | 0 <= j < |r| && r[j].status == Unmatched && r[j].code.Some?
      ensures Served(r, sales, entries, r[j].code.value)
    {
      assert r[j] == messages[j];
      MoreLinksKeepServed(messages, r, sales, entries, r[j].code.value);
    }
  }

  lemma InvUnmatched(st: State)
    requires Inv(st)
    ensures UnmatchedUnlinked(st.messages)
  {
  }

  lemma ChargeIsNoRepayment(st: State, sale: Sale, id: nat)
    requires sale.customer.Some? ==> sale.customer.value in st.book.customers
    requires ChargeSale(st.book, sale, id).Ok?
    ensures forall e: nat, code: Text.Code ::
      RepaymentCarries(ChargeSale(st.book, sale, id).value.entries, e, code) ==>
        RepaymentCarries(st.book.entries, e, code)
  {
  }

  lemma SellLeavesNoOrphans(st: State, req: SaleRequest)
    requires Inv(st) && NoOrphansIn(st) && CreateSale(st, req).Ok?
    ensures NoOrphansIn(CreateSale(st, req).value.state)
  {
    hide SellItems, PriceSale, ChargeSale, LinkTenders, NoOrphans, Inv;
    if FindSaleKey(st.sales, req.key).None? {
      var sale := PriceSale(st, req).value;
      InvUnmatched(st);
      PricedSaleReconciles(st, req);
      ChargeIsNoRepayment(st, sale, |st.sales|);
      SaleLeavesNoOrphans(st.messages, st.sales, st.book.entries, ChargeSale(st.book, sale, |st.sales|).value.entries,
        sale);
    }
  }

  /** An entry that is not an M-Pesa repayment with a code adds nothing to link. */
  lemma SilentEntryLeavesNoOrphans(
    messages: seq<Message>, sales: seq<Sale>, entries: seq<Credit.Entry>, e: Credit.Entry)
    requires NoOrphans(messages, sales, entries)
    requires e.kind != Credit.Repayment || e.via != Some(Credit.Mpesa) || e.reference == ""
    ensures NoOrphans(messages, sales, entries + [e])
  {
    forall i | 0 <= i < |messages| && messages[i].status == Unmatched && messages[i].code.Some?
      ensures Served(messages, sales, entries + [e], messages[i].code.value)
    {
      var code := messages[i].code.value;
      assert Served(messages, sales, entries, code);
      forall k: nat | RepaymentCarries(entries + [e], k, code) ensures RepaymentLinked(messages, k) {
        assert k == |entries| ==> |Text.CodeOf("")| == 0;
        assert RepaymentCarries(entries, k, code);
      }
    }
  }

  lemma RepayLeavesNoOrphans(st: State, req: RepaymentRequest)
    requires Inv(st) && NoOrphansIn(st) && RecordRepayment(st, req).Ok?
    ensures NoOrphansIn(RecordRepayment(st, req).value)
  {
    hide Inv, NoOrphans, LinkReference, Text.Trim;
    var reference := Text.Trim(req.reference);
    var entry := EntryOf(req);
    var r := Credit.Record(st.book, entry, req.allowOverpayment).value;
    if r.created {
      var e := r.book.entries[|st.book.entries|];
      if req.via == Credit.Mpesa && reference != "" {
        InvUnmatched(st);
        Text.TrimKeeps(reference);
        RepaymentLeavesNoOrphans(st.messages, st.sales, st.book.entries, e);
      } else {
        SilentEntryLeavesNoOrphans(st.messages, st.sales, st.book.entries, e);
      }
    }
  }

  lemma AdjustLeavesNoOrphans(st: State, c: Id, signed: int, key: Option<Key>, digest: nat)
    requires NoOrphansIn(st) && RecordAdjustment(st, c, signed, key, digest).Ok?
    ensures NoOrphansIn(RecordAdjustment(st, c, signed, key, digest).value)
  {
    hide NoOrphans;
    var r := Credit.Record(st.book, Credit.AdjustmentEntry(c, signed, key, digest), false).value;
    if r.created {
      SilentEntryLeavesNoOrphans(st.messages, st.sales, st.book.entries, r.book.entries[|st.book.entries|]);
    }
  }

  lemma StepLeavesNoOrphans(st: State, op: Op)
    requires Inv(st) && NoOrphansIn(st) && !op.Void?
    ensures NoOrphansIn(Step(st, op))
  {
    hide NoOrphans, CreateSale, RecordRepayment, RecordAdjustment, Paste, Inv, Inventory.Repaired,
      Inventory.CreateProduct, Inventory.UpdateProduct, Inventory.Restock, Inventory.Adjust,
      Inventory.SetInitialStock;
    InvUnmatched(st);
    if Attempt(st, op).Ok? {
      match op
      case Sell(req) => SellLeavesNoOrphans(st, req);
      case Repay(req) => RepayLeavesNoOrphans(st, req);
      case AdjustCredit(c, signed, key, digest) => AdjustLeavesNoOrphans(st, c, signed, key, digest);
      case PasteMessage(parsed, amount) => PasteLeavesNoOrphans(st.messages, st.sales, st.book.entries, parsed, amount);
      case MatchMessage(i, target) =>
        UpdateLeavesNoOrphans(st.messages, st.sales, st.book.entries, i, Step(st, op).messages[i]);
      case IgnoreMessage(i) =>
        if st.messages[i].status != Ignored {
          UnlinkedUnlessMatched(st, i);
          UpdateLeavesNoOrphans(st.messages, st.sales, st.book.entries, i, Step(st, op).messages[i]);
        }
      case _ =>
    }
  }

  lemma UnlinkedUnlessMatched(st: State, i: nat)
    requires Inv(st) && i < |st.messages| && st.messages[i].status != Matched
    ensures st.messages[i].payment.None? && st.messages[i].repayment.None?
  {
  }

  /**
   * In every run without voids, no UNMATCHED message coexists with an unlinked eligible record
   * carrying its code: whichever side comes second makes the link.
   */
  lemma {:induction false} NoOrphansWithoutVoids(ops: seq<Op>)
    requires forall i :: 0 <= i < |ops| ==> !ops[i].Void?
    ensures NoOrphansIn(Run(EMPTY, ops))
  {
    if ops != [] {
      NoOrphansWithoutVoids(ops[..|ops| - 1]);
      EveryRunKeepsInv(ops[..|ops| - 1]);
      StepLeavesNoOrphans(Run(EMPTY, ops[..|ops| - 1]), ops[|ops| - 1]);
    }
  }

  // --- voids --------------------------------------------------------------------------------------

  predicate LinkedToSale(m: Message, id: nat) { m.payment.Some? && m.payment.value.sale == id }

  lemma {:induction false} UnlinkTendersAt(
    messages: seq<Message>, sales: seq<Sale>, entries: seq<Credit.Entry>, id: nat, n: nat, i: nat)
    requires MpesaInv(messages, sales, entries) && id < |sales| && n <= |sales[id].payments| && i < |messages|
    ensures UnlinkTenders(messages, id, sales[id].payments, n)[i]
         == if LinkedToSale(messages[i], id) && messages[i].payment.value.index < n
            then messages[i].(status := Unmatched, payment := None) else messages[i]
  {
    if n > 0 { UnlinkTendersAt(messages, sales, entries, id, n - 1, i); }
  }

  lemma VoidUnlinksExactly(messages: seq<Message>, sales: seq<Sale>, entries: seq<Credit.Entry>, id: nat, i: nat)
    requires MpesaInv(messages, sales, entries) && id < |sales| && i < |messages|
    ensures UnlinkTenders(messages, id, sales[id].payments, |sales[id].payments|)[i]
         == if LinkedToSale(messages[i], id) then messages[i].(status := Unmatched, payment := None) else messages[i]
  {
    UnlinkTendersAt(messages, sales, entries, id, |sales[id].payments|, i);
  }

  /** No unlinked record other than the sale's own tenders carries the code. */
  ghost predicate ServedBesides(
    messages: seq<Message>, sales: seq<Sale>, entries: seq<Credit.Entry>, code: Text.Code, id: nat) {
    && (forall ref: PaymentRef :: ref.sale != id && TenderCarries(sales, ref, code) ==> TenderLinked(messages, ref))
    && (forall e :: RepaymentCarries(entries, e, code) ==> RepaymentLinked(messages, e))
  }

  /** Every message the void would free has no other record waiting for it. */
  ghost predicate FreesNoClaim(messages: seq<Message>, sales: seq<Sale>, entries: seq<Credit.Entry>, id: nat) {
    forall i :: 0 <= i < |messages| && LinkedToSale(messages[i], id) && messages[i].code.Some? ==>
      ServedBesides(messages, sales, entries, messages[i].code.value, id)
  }

  lemma ServedAcrossVoid(messages: seq<Message>, sales: seq<Sale>, entries: seq<Credit.Entry>, id: nat, code: Text.Code)
    requires MpesaInv(messages, sales, entries) && id < |sales|
    ensures
      var r := UnlinkTenders(messages, id, sales[id].payments, |sales[id].payments|);
      var sales' := sales[id := sales[id].(status := Voided)];
      Served(r, sales', entries, code) <==> ServedBesides(messages, sales, entries, code, id)
  {
    hide UnlinkTenders, MpesaInv;
    var r := UnlinkTenders(messages, id, sales[id].payments, |sales[id].payments|);
    var sales' := sales[id := sales[id].(status := Voided)];
    forall i | 0 <= i < |messages|
      ensures r[i] == if LinkedToSale(messages[i], id) then messages[i].(status := Unmatched, payment := None)
        else messages[i]
    { VoidUnlinksExactly(messages, sales, entries, id, i); }
    forall ref: PaymentRef ensures TenderCarries(sales', ref, code)
      <==> ref.sale != id && TenderCarries(sales, ref, code) {}
    forall ref: PaymentRef | ref.sale != id ensures TenderLinked(r, ref) <==> TenderLinked(messages, ref) {}
    forall e: nat ensures RepaymentLinked(r, e) <==> RepaymentLinked(messages, e) {}
  }

  /**
   * A void keeps the property exactly when no message it frees has another record waiting:
   * the freed message goes back to UNMATCHED and is not offered to that record.
   */
  lemma VoidOrphansIff(messages: seq<Message>, sales: seq<Sale>, entries: seq<Credit.Entry>, id: nat)
    requires MpesaInv(messages, sales, entries) && NoOrphans(messages, sales, entries) && id < |sales|
    ensures
      NoOrphans(UnlinkTenders(messages, id, sales[id].payments, |sales[id].payments|),
        sales[id := sales[id].(status := Voided)], entries)
      <==> FreesNoClaim(messages, sales, entries, id)
  {
    hide UnlinkTenders, Served, ServedBesides, MpesaInv;
    var r := UnlinkTenders(messages, id, sales[id].payments, |sales[id].payments|);
    var sales' := sales[id := sales[id].(status := Voided)];
    forall i | 0 <= i < |messages|
      ensures r[i] == if LinkedToSale(messages[i], id) then messages[i].(status := Unmatched, payment := None)
        else messages[i]
    { VoidUnlinksExactly(messages, sales, entries, id, i); }
    forall i | 0 <= i < |messages| && messages[i].code.Some?
      ensures Served(r, sales', entries, messages[i].code.value)
        <==> ServedBesides(messages, sales, entries, messages[i].code.value, id)
      ensures Served(messages, sales, entries, messages[i].code.value) ==>
        ServedBesides(messages, sales, entries, messages[i].code.value, id)
    {
      ServedAcrossVoid(messages, sales, entries, id, messages[i].code.value);
      ServedIsEnough(messages, sales, entries, messages[i].code.value, id);
    }
    if !FreesNoClaim(messages, sales, entries, id) {
      var i :| 0 <= i < |messages| && LinkedToSale(messages[i], id) && messages[i].code.Some?
               && !ServedBesides(messages, sales, entries, messages[i].code.value, id);
      assert r[i].status == Unmatched && r[i].code == messages[i].code;
    }
  }

  lemma ServedIsEnough(messages: seq<Message>, sales: seq<Sale>, entries: seq<Credit.Entry>, code: Text.Code, id: nat)
    ensures Served(messages, sales, entries, code) ==> ServedBesides(messages, sales, entries, code, id)
  {
  }

  /** Whether a successful void at this point of a run would free a message that another record waits for. */
  ghost predicate VoidIsClean(st: State, op: Op) {
    op.Void? && VoidSale(st, op.id).Ok? ==> FreesNoClaim(st.messages, st.sales, st.book.entries, op.id)
  }

  lemma VoidStepIff(st: State, op: Op)
    requires Inv(st) && NoOrphansIn(st) && op.Void?
    ensures NoOrphansIn(Step(st, op)) <==> VoidIsClean(st, op)
  {
    hide NoOrphans, FreesNoClaim, Inv, ReverseMovements, MovementsOf, UnlinkTenders;
    if VoidSale(st, op.id).Ok? {
      InvLinks(st);
      VoidLeavesRepayments(st, op.id);
      VoidOrphansIff(st.messages, st.sales, st.book.entries, op.id);
      var st' := VoidSale(st, op.id).value;
      SameRepaymentsSameOrphans(st'.messages, st'.sales, st.book.entries, st'.book.entries);
    }
  }

  predicate SameRepayments(a: seq<Credit.Entry>, b: seq<Credit.Entry>) {
    a <= b && forall e :: |a| <= e < |b| ==> b[e].kind != Credit.Repayment
  }

  lemma VoidLeavesRepayments(st: State, id: nat)
    requires VoidSale(st, id).Ok?
    ensures SameRepayments(st.book.entries, VoidSale(st, id).value.book.entries)
  {
    hide ReverseMovements, MovementsOf, UnlinkTenders, Charged;
  }

  lemma SameRepaymentsSameOrphans(messages: seq<Message>, sales: seq<Sale>, a: seq<Credit.Entry>, b: seq<Credit.Entry>)
    requires SameRepayments(a, b)
    ensures NoOrphans(messages, sales, a) <==> NoOrphans(messages, sales, b)
  {
    forall code: Text.Code ensures Served(messages, sales, a, code) <==> Served(messages, sales, b, code) {
      assert forall e: nat :: RepaymentCarries(a, e, code) <==> RepaymentCarries(b, e, code);
    }
  }

  /**
   * Over every run: no UNMATCHED message ever coexists with an unlinked record carrying its code
   * exactly when every void of the run freed only messages that no other record waited for.
   */
  lemma NoOrphansEverIff(ops: seq<Op>)
    ensures (forall k :: 0 <= k <= |ops| ==> NoOrphansIn(Run(EMPTY, ops[..k])))
       <==> (forall k :: 0 <= k < |ops| ==> VoidIsClean(Run(EMPTY, ops[..k]), ops[k]))
  {
    hide NoOrphans, VoidIsClean, Step;
    if forall k :: 0 <= k <= |ops| ==> NoOrphansIn(Run(EMPTY, ops[..k])) {
      forall k | 0 <= k < |ops| ensures VoidIsClean(Run(EMPTY, ops[..k]), ops[k]) {
        assert NoOrphansIn(Run(EMPTY, ops[..k + 1])) && NoOrphansIn(Run(EMPTY, ops[..k]));
        NextState(ops, k);
        NoOrphansNext(ops, k);
      }
    }
    if forall k :: 0 <= k < |ops| ==> VoidIsClean(Run(EMPTY, ops[..k]), ops[k]) {
      forall k | 0 <= k <= |ops| ensures NoOrphansIn(Run(EMPTY, ops[..k])) {
        CleanRunLeavesNoOrphans(ops, k);
      }
    }
  }

  lemma NextState(ops: seq<Op>, k: nat)
    requires k < |ops|
    ensures Run(EMPTY, ops[..k + 1]) == Step(Run(EMPTY, ops[..k]), ops[k])
  {
    assert ops[..k + 1][..k] == ops[..k];
  }

  lemma NoOrphansNext(ops: seq<Op>, k: nat)
    requires k < |ops| && NoOrphansIn(Run(EMPTY, ops[..k]))
    ensures NoOrphansIn(Step(Run(EMPTY, ops[..k]), ops[k])) <==> VoidIsClean(Run(EMPTY, ops[..k]), ops[k])
  {
    hide NoOrphans, Step, Inv, Run;
    EveryRunKeepsInv(ops[..k]);
    if ops[k].Void? {
      VoidStepIff(Run(EMPTY, ops[..k]), ops[k]);
    } else {
      StepLeavesNoOrphans(Run(EMPTY, ops[..k]), ops[k]);
    }
  }

  lemma {:induction false} CleanRunLeavesNoOrphans(ops: seq<Op>, k: nat)
    requires k <= |ops| && forall j :: 0 <= j < |ops| ==> VoidIsClean(Run(EMPTY, ops[..j]), ops[j])
    ensures NoOrphansIn(Run(EMPTY, ops[..k]))
  {
    hide NoOrphans, VoidIsClean, Step;
    if k == 0 {
      assert ops[..0] == [];
      NothingOrphaned();
    } else {
      CleanRunLeavesNoOrphans(ops, k - 1);
      NextState(ops, k - 1);
      NoOrphansNext(ops, k - 1);
    }
  }

  lemma NothingOrphaned()
    ensures NoOrphansIn(EMPTY)
  {
  }

  lemma CodeOfCode(code: Text.Code)
    ensures Text.CodeOf(code) == code
  {
    Text.SqlTrimKeeps(code);
  }

  // --- order does not matter ------------------------------------------------------------------------

  lemma {:induction false} LinkTendersSplits(
    a: seq<Message>, b: seq<Message>, sale: nat, payments: seq<Payment>, n: nat)
    requires n <= |payments|
    ensures LinkTenders(a + b, sale, payments, n)
      == LinkTenders(a, sale, payments, n) + LinkTenders(b, sale, payments, n)
  {
    if n > 0 { LinkTendersSplits(a, b, sale, payments, n - 1); }
  }

  predicate Spells(p: Payment, code: Text.Code) {
    p.tender == Mpesa && p.reference != "" && Text.Normalised(p.reference) == code
  }

  /** Payment k is the only tender whose reference spells the code. */
  predicate OnlyCarrier(payments: seq<Payment>, code: Text.Code, k: nat) {
    && k < |payments|
    && forall j :: 0 <= j < |payments| ==> (Spells(payments[j], code) <==> j == k)
  }

  lemma {:induction false} LinkFresh(m: Message, sale: nat, payments: seq<Payment>, n: nat, code: Text.Code, k: nat)
    requires OnlyCarrier(payments, code, k) && n <= |payments| && m.code == Some(code) && m.status == Unmatched
    ensures LinkTenders([m], sale, payments, n)
      == [if k < n then MarkMatched(m, Some(PaymentRef(sale, k)), None) else m]
  {
    if n > 0 { LinkFresh(m, sale, payments, n - 1, code, k); }
  }

  /** The hooks change no code, and link a tender only to a message its reference spells. */
  lemma {:induction false} LinkTendersKeepsCodes(
    messages: seq<Message>, sale: nat, payments: seq<Payment>, n: nat, i: nat, k: nat)
    requires n <= |payments| && i < |messages| && k < |payments|
    ensures
      var r := LinkTenders(messages, sale, payments, n);
      && r[i].code == messages[i].code
      && (r[i].payment == Some(PaymentRef(sale, k)) ==>
            messages[i].payment == r[i].payment
              || (r[i].code.Some? && r[i].code.value == Text.Normalised(payments[k].reference)))
  {
    if n > 0 { LinkTendersKeepsCodes(messages, sale, payments, n - 1, i, k); }
  }

  /** No message and no eligible record carries the code. */
  ghost predicate CodeUnused(st: State, code: Text.Code) {
    && (forall i :: 0 <= i < |st.messages| ==> st.messages[i].code != Some(code))
    && (forall ref :: !TenderCarries(st.sales, ref, code))
    && (forall e :: !RepaymentCarries(st.book.entries, e, code))
  }

  /** Pasting after the sale finds exactly the sale's tender. */
  lemma PasteFindsTender(st: State, sale: Sale, entries: seq<Credit.Entry>, code: Text.Code, k: nat)
    requires MpesaInv(st.messages, st.sales, st.book.entries) && CodeUnused(st, code) && SaleReconciles(sale)
    requires sale.status == Completed
    requires OnlyCarrier(sale.payments, code, k)
    ensures FindTender(st.sales + [sale], LinkTenders(st.messages, |st.sales|, sale.payments, |sale.payments|), code,
      0, 0)
         == Some(PaymentRef(|st.sales|, k))
  {
    var id := |st.sales|;
    var sales := st.sales + [sale];
    var linked := LinkTenders(st.messages, id, sale.payments, |sale.payments|);
    forall i | 0 <= i < |linked| ensures linked[i].payment != Some(PaymentRef(id, k)) {
      LinkTendersKeepsCodes(st.messages, id, sale.payments, |sale.payments|, i, k);
    }
    Text.StoredCodesAgree(sale.payments[k].reference);
    assert TenderCarries(sales, PaymentRef(id, k), code);
    assert !TenderLinked(linked, PaymentRef(id, k));
    var found := FindTender(sales, linked, code, 0, 0);
    assert found.Some?;
    assert found.value.sale < id ==> TenderCarries(st.sales, found.value, code);
    CodeIsNormalised(sale.payments[found.value.index].reference, code);
  }

  lemma SaleIgnoresMessages(st: State, req: SaleRequest, messages: seq<Message>)
    requires CreateSale(st, req).Ok? && CreateSale(st, req).value.created
    ensures
      var sale := PriceSale(st, req).value;
      var sold := CreateSale(st, req).value.state;
      && sold.sales == st.sales + [sale]
      && sold.messages == LinkTenders(st.messages, |st.sales|, sale.payments, |sale.payments|)
      && CreateSale(st.(messages := messages), req)
         == Ok(Created(sold.(messages := LinkTenders(messages, |st.sales|, sale.payments, |sale.payments|)),
           |st.sales|, true))
  {
    hide SellItems, LinkTenders, Items, LineTotals, Payments, Charged;
    assert PriceSale(st.(messages := messages), req) == PriceSale(st, req);
  }

  /** The sale recorded and the message linked to its k-th tender. */
  ghost function SoldAndLinked(st: State, req: SaleRequest, code: Text.Code, amount: pos, k: nat): State
    requires CreateSale(st, req).Ok?
  {
    var sold := CreateSale(st, req).value.state;
    sold.(messages := sold.messages + [Message(Some(code), amount, Matched, Some(PaymentRef(|st.sales|, k)), None)])
  }

  /** Paste first: the message waits, then the sale's hook links it. */
  lemma PasteThenSell(st: State, req: SaleRequest, code: Text.Code, amount: pos, k: nat)
    requires CreateSale(st, req).Ok? && CreateSale(st, req).value.created
    requires SchemaOk(req) && PriceSale(st, req).Ok?
    requires CodeUnused(st, code) && OnlyCarrier(PriceSale(st, req).value.payments, code, k)
    ensures Step(Step(st, PasteMessage(Some(code), amount)), Sell(req)) == SoldAndLinked(st, req, code, amount, k)
  {
    hide LinkTenders, PriceSale, CreateSale, FindTender, FindRepayment;
    var sale := PriceSale(st, req).value;
    var m := Message(Some(code), amount, Unmatched, None, None);
    PasteFindsNothing(st, code);
    assert Step(st, PasteMessage(Some(code), amount)) == st.(messages := st.messages + [m]);
    SaleIgnoresMessages(st, req, st.messages + [m]);
    LinkTendersSplits(st.messages, [m], |st.sales|, sale.payments, |sale.payments|);
    LinkFresh(m, |st.sales|, sale.payments, |sale.payments|, code, k);
  }

  /** Sale first: the paste finds the tender. */
  lemma SellThenPaste(st: State, req: SaleRequest, code: Text.Code, amount: pos, k: nat)
    requires Inv(st) && CreateSale(st, req).Ok? && CreateSale(st, req).value.created
    requires SchemaOk(req) && PriceSale(st, req).Ok?
    requires CodeUnused(st, code) && OnlyCarrier(PriceSale(st, req).value.payments, code, k)
    ensures Step(Step(st, Sell(req)), PasteMessage(Some(code), amount)) == SoldAndLinked(st, req, code, amount, k)
  {
    hide LinkTenders, PriceSale, CreateSale, Inv, FindTender, FindRepayment;
    var sale := PriceSale(st, req).value;
    var sold := CreateSale(st, req).value.state;
    SaleIgnoresMessages(st, req, st.messages);
    PricedSaleReconciles(st, req);
    InvLinks(st);
    PasteFindsTender(st, sale, sold.book.entries, code, k);
    forall i | 0 <= i < |sold.messages| ensures sold.messages[i].code != Some(code) {
      LinkTendersKeepsCodes(st.messages, |st.sales|, sale.payments, |sale.payments|, i, k);
    }
  }

  /**
   * For a code carried by exactly one tender of the sale and by nothing else, pasting the
   * message and recording the sale can be done in either order with the same result: the
   * message is MATCHED to that tender.
   */
  lemma PasteAndSaleCommute(st: State, req: SaleRequest, code: Text.Code, amount: pos, k: nat)
    requires Inv(st) && CreateSale(st, req).Ok? && CreateSale(st, req).value.created
    requires SchemaOk(req) && PriceSale(st, req).Ok?
    requires CodeUnused(st, code) && OnlyCarrier(PriceSale(st, req).value.payments, code, k)
    ensures
      var pasteFirst := Step(Step(st, PasteMessage(Some(code), amount)), Sell(req));
      var saleFirst := Step(Step(st, Sell(req)), PasteMessage(Some(code), amount));
      && pasteFirst == saleFirst
      && saleFirst.messages == CreateSale(st, req).value.state.messages
                               + [Message(Some(code), amount, Matched, Some(PaymentRef(|st.sales|, k)), None)]
  {
    hide PriceSale, CreateSale, Inv, Step, CodeUnused, OnlyCarrier;
    PasteThenSell(st, req, code, amount, k);
    SellThenPaste(st, req, code, amount, k);
  }

  lemma InvLinks(st: State)
    requires Inv(st)
    ensures MpesaInv(st.messages, st.sales, st.book.entries)
  {
  }

  /** With no record carrying the code, a paste stays UNMATCHED. */
  lemma PasteFindsNothing(st: State, code: Text.Code)
    requires CodeUnused(st, code)
    ensures FindTender(st.sales, st.messages, code, 0, 0).None?
    ensures FindRepayment(st.book.entries, st.messages, code, 0).None?
  {
  }

  lemma RepaymentIgnoresMessages(st: State, req: RepaymentRequest, messages: seq<Message>)
    requires RecordRepayment(st, req).Ok? && |RecordRepayment(st, req).value.book.entries| > |st.book.entries|
    requires req.via == Credit.Mpesa && Text.Trim(req.reference) != ""
    ensures
      var paid := RecordRepayment(st, req).value;
      && paid.sales == st.sales && paid.stock == st.stock
      && paid.book.entries == st.book.entries + [paid.book.entries[|st.book.entries|]]
      && paid.book.entries[|st.book.entries|].kind == Credit.Repayment
      && paid.book.entries[|st.book.entries|].via == Some(Credit.Mpesa)
      && paid.book.entries[|st.book.entries|].reference == Text.Trim(req.reference)
      && RecordRepayment(st.(messages := messages), req)
         == Ok(paid.(messages := LinkReference(messages, Text.Trim(req.reference), None, Some(|st.book.entries|))))
  {
    hide LinkReference, Text.Trim;
  }

  /** The same for a repayment carrying the code. */
  lemma PasteAndRepaymentCommute(st: State, req: RepaymentRequest, code: Text.Code, amount: pos)
    requires Inv(st) && RecordRepayment(st, req).Ok?
    requires |RecordRepayment(st, req).value.book.entries| > |st.book.entries|
    requires CodeUnused(st, code) && req.via == Credit.Mpesa && Text.Normalised(req.reference) == code
    ensures
      var pasteFirst := Step(Step(st, PasteMessage(Some(code), amount)), Repay(req));
      var repayFirst := Step(Step(st, Repay(req)), PasteMessage(Some(code), amount));
      && pasteFirst == repayFirst
      && repayFirst.messages == st.messages + [Message(Some(code), amount, Matched, None, Some(|st.book.entries|))]
  {
    hide Inv, FindTender, FindRepayment, RecordRepayment, Text.Trim, Text.CodeOf, Text.Normalised, CodeUnused;
    var m := Message(Some(code), amount, Unmatched, None, None);
    var reference := Text.Trim(req.reference);
    var e := |st.book.entries|;
    PasteFindsNothing(st, code);
    UnusedCode(st, code);
    InvLinks(st);
    Text.StoredCodesAgree(req.reference);
    CodeIsNonEmpty(req.reference, code);
    assert Step(st, PasteMessage(Some(code), amount)) == st.(messages := st.messages + [m]);
    RepaymentIgnoresMessages(st, req, st.messages + [m]);
    RepaymentIgnoresMessages(st, req, st.messages);
    LinkReferenceFresh(st.messages, m, reference, code, e);
    var paid := RecordRepayment(st, req).value;
    assert paid.messages == st.messages;
    PasteFindsRepayment(st, paid.book.entries, code);
  }

  lemma UnusedCode(st: State, code: Text.Code)
    requires CodeUnused(st, code)
    ensures forall i :: 0 <= i < |st.messages| ==> st.messages[i].code != Some(code)
    ensures FindTender(st.sales, st.messages, code, 0, 0).None?
  {
  }

  lemma CodeIsNonEmpty(raw: string, code: Text.Code)
    requires Text.Normalised(raw) == code
    ensures Text.Trim(raw) != ""
  {
  }

  lemma LinkReferenceFresh(messages: seq<Message>, m: Message, reference: string, code: Text.Code, e: nat)
    requires forall i :: 0 <= i < |messages| ==> messages[i].code != Some(code)
    requires Text.Normalised(reference) == code && m.code == Some(code) && m.status == Unmatched
    ensures LinkReference(messages, reference, None, Some(e)) == messages
    ensures LinkReference(messages + [m], reference, None, Some(e)) == messages + [MarkMatched(m, None, Some(e))]
  {
  }

  lemma PasteFindsRepayment(st: State, entries: seq<Credit.Entry>, code: Text.Code)
    requires MpesaInv(st.messages, st.sales, st.book.entries) && CodeUnused(st, code)
    requires |entries| == |st.book.entries| + 1 && st.book.entries <= entries
    requires RepaymentCarries(entries, |st.book.entries|, code)
    ensures FindRepayment(entries, st.messages, code, 0) == Some(|st.book.entries|)
  {
    var e := |st.book.entries|;
    assert !RepaymentLinked(st.messages, e);
    var found := FindRepayment(entries, st.messages, code, 0);
    assert found.Some? && (found.value < e ==> RepaymentCarries(st.book.entries, found.value, code));
  }

  // --- recording a message as a repayment -----------------------------------------------------------

  lemma CodeNormalised(code: Text.Code)
    ensures Text.Trim(code) == code && Text.Normalised(code) == code
  {
    Text.TrimKeeps(code);
  }

  lemma LinksOnlyThatMessage(messages: seq<Message>, i: nat, e: nat)
    requires OneToOne(messages) && i < |messages| && messages[i].status == Unmatched && messages[i].code.Some?
    ensures LinkReference(messages, messages[i].code.value, None, Some(e))
      == messages[i := MarkMatched(messages[i], None, Some(e))]
  {
    CodeNormalised(messages[i].code.value);
    forall j | 0 <= j < |messages| && j != i ensures !LinkHits(messages[j], messages[i].code.value) {
      UpdatesHitAtMostOneRow(messages, i, j, messages[i].code.value, PaymentRef(0, 0));
    }
  }
}
