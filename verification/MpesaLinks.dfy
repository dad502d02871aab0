/**
 * Pasted M-Pesa messages and their links (backend/app/services/mpesa.py,
 * backend/app/repositories/mpesa.py). A message is linked to the tender of a sale or to the
 * repayment that carries its transaction code, from whichever side is recorded second.
 */
module MpesaLinks {
  import opened Prelude
  import opened Text
  import opened SaleRecords
  import Credit

  datatype MessageStatus = Unparsed | Unmatched | Matched | Ignored

  /** A tender line: the index-th payment of a sale. */
  datatype PaymentRef = PaymentRef(sale: nat, index: nat)

  datatype Message = Message(
    code: Option<Code>, amount: nat, status: MessageStatus, payment: Option<PaymentRef>, repayment: Option<nat>)

  // --- eligible records ---------------------------------------------------------------------

  /** An M-Pesa tender of a COMPLETED sale (repositories/mpesa.py:85-100). */
  predicate IsTender(sales: seq<Sale>, ref: PaymentRef) {
    && ref.sale < |sales| && sales[ref.sale].status == Completed
    && ref.index < |sales[ref.sale].payments| && sales[ref.sale].payments[ref.index].tender == Mpesa
  }

  predicate TenderCarries(sales: seq<Sale>, ref: PaymentRef, code: Code) {
    IsTender(sales, ref) && CodeOf(sales[ref.sale].payments[ref.index].reference) == code
  }

  /** An M-Pesa repayment entry (repositories/mpesa.py:115-134). */
  predicate IsRepayment(entries: seq<Credit.Entry>, e: nat) {
    e < |entries| && entries[e].kind == Credit.Repayment && entries[e].via == Some(Credit.Mpesa)
  }

  predicate RepaymentCarries(entries: seq<Credit.Entry>, e: nat, code: Code) {
    IsRepayment(entries, e) && CodeOf(entries[e].reference) == code
  }

  predicate TenderLinked(messages: seq<Message>, ref: PaymentRef) {
    exists i :: 0 <= i < |messages| && messages[i].payment == Some(ref)
  }

  predicate RepaymentLinked(messages: seq<Message>, e: nat) {
    exists i :: 0 <= i < |messages| && messages[i].repayment == Some(e)
  }

  predicate RecordedBefore(a: PaymentRef, b: PaymentRef) { a.sale < b.sale || (a.sale == b.sale && a.index < b.index) }

  /** The first unlinked tender carrying the code, in recording order, from (s, i) on. */
  function FindTender(sales: seq<Sale>, messages: seq<Message>, code: Code, s: nat, i: nat): (r: Option<PaymentRef>)
    requires s <= |sales| && (s < |sales| ==> i <= |sales[s].payments|)
    ensures r.Some? ==> TenderCarries(sales, r.value, code) && !TenderLinked(messages, r.value)
    ensures r.Some? ==> forall ref: PaymentRef ::
      (ref.sale > s || (ref.sale == s && ref.index >= i)) && RecordedBefore(ref, r.value) ==>
      !TenderCarries(sales, ref, code) || TenderLinked(messages, ref)
    ensures r.None? ==> forall ref: PaymentRef :: ref.sale > s || (ref.sale == s && ref.index >= i) ==>
      !TenderCarries(sales, ref, code) || TenderLinked(messages, ref)
    decreases |sales| - s, if s < |sales| then |sales[s].payments| - i else 0
  {
    if s == |sales| then None
    else if i == |sales[s].payments| then FindTender(sales, messages, code, s + 1, 0)
    else if TenderCarries(sales, PaymentRef(s, i), code) && !TenderLinked(messages, PaymentRef(s, i))
      then Some(PaymentRef(s, i))
    else FindTender(sales, messages, code, s, i + 1)
  }

  function FindRepayment(entries: seq<Credit.Entry>, messages: seq<Message>, code: Code, e: nat): (r: Option<nat>)
    requires e <= |entries|
    ensures r.Some? ==> RepaymentCarries(entries, r.value, code) && !RepaymentLinked(messages, r.value)
    ensures r.Some? ==> forall k :: e <= k < r.value ==>
      !RepaymentCarries(entries, k, code) || RepaymentLinked(messages, k)
    ensures r.None? ==> forall k :: k >= e ==> !RepaymentCarries(entries, k, code) || RepaymentLinked(messages, k)
    decreases |entries| - e
  {
    if e == |entries| then None
    else if RepaymentCarries(entries, e, code) && !RepaymentLinked(messages, e) then Some(e)
    else FindRepayment(entries, messages, code, e + 1)
  }

  // --- operations ---------------------------------------------------------------------------

  function MarkMatched(m: Message, payment: Option<PaymentRef>, repayment: Option<nat>): Message {
    m.(status := Matched, payment := payment, repayment := repayment)
  }

  function FindCode(messages: seq<Message>, code: Code): (r: Option<nat>)
    ensures r.Some? ==> r.value < |messages| && messages[r.value].code == Some(code)
    ensures r.None? ==> forall i :: 0 <= i < |messages| ==> messages[i].code != Some(code)
  {
    if messages == [] then None
    else if messages[|messages| - 1].code == Some(code) then Some(|messages| - 1)
    else FindCode(messages[..|messages| - 1], code)
  }

  /** Rules (a) and (b) at paste time: the record came first. */
  function LinkExisting(
    m: Message, code: Code, messages: seq<Message>, sales: seq<Sale>, entries: seq<Credit.Entry>): Message {
    var tender := FindTender(sales, messages, code, 0, 0);
    if tender.Some? then MarkMatched(m, tender, None)
    else
      var repayment := FindRepayment(entries, messages, code, 0);
      if repayment.Some? then MarkMatched(m, None, repayment) else m
  }

  /** A pasted text: unreadable ones are kept, a known code replays, a new code is linked if it can be. */
  function Paste(
    messages: seq<Message>, sales: seq<Sale>, entries: seq<Credit.Entry>, parsed: Option<Code>,
    amount: nat): seq<Message> {
    match parsed
    case None => messages + [Message(None, 0, Unparsed, None, None)]
    case Some(code) =>
      if FindCode(messages, code).Some? then messages
      else messages + [LinkExisting(Message(Some(code), amount, Unmatched, None, None), code, messages, sales, entries)]
  }

  datatype Target = ToTender(ref: PaymentRef) | ToRepayment(entry: nat)

  function Match(
    messages: seq<Message>, sales: seq<Sale>, entries: seq<Credit.Entry>, i: nat,
    target: Target): Result<seq<Message>, Fault> {
    if i >= |messages| then Err(NotFound)
    else if messages[i].status != Unmatched then Err(InvalidTransition)
    else
      match target
      case ToTender(ref) =>
        if !IsTender(sales, ref) || TenderLinked(messages, ref) then Err(NotFound)
        else Ok(messages[i := MarkMatched(messages[i], Some(ref), None)])
      case ToRepayment(e) =>
        if !IsRepayment(entries, e) || RepaymentLinked(messages, e) then Err(NotFound)
        else Ok(messages[i := MarkMatched(messages[i], None, Some(e))])
  }

  function Ignore(messages: seq<Message>, i: nat): Result<seq<Message>, Fault> {
    if i >= |messages| then Err(NotFound)
    else if messages[i].status == Ignored then Ok(messages)
    else if messages[i].status == Matched then Err(InvalidTransition)
    else Ok(messages[i := messages[i].(status := Ignored)])
  }

  /** The rows `link_by_code` updates (repositories/mpesa.py:230-236). */
  predicate LinkHits(m: Message, code: string) {
    m.code.Some? && m.code.value == code && m.status == Unmatched
  }

  /** UPDATE ... SET status = MATCHED WHERE code = :code AND status = UNMATCHED. */
  function LinkByCode(
    messages: seq<Message>, code: string, payment: Option<PaymentRef>, repayment: Option<nat>): (r: seq<Message>)
    ensures |r| == |messages|
  {
    seq(|messages|, i requires 0 <= i < |messages| =>
      if LinkHits(messages[i], code) then MarkMatched(messages[i], payment, repayment) else messages[i])
  }

  /** The reverse hook run when a record with an M-Pesa reference is written. */
  function LinkReference(
    messages: seq<Message>, reference: string, payment: Option<PaymentRef>, repayment: Option<nat>): (r: seq<Message>)
    ensures |r| == |messages|
  {
    if Normalised(reference) == "" then messages else LinkByCode(messages, Normalised(reference), payment, repayment)
  }

  /** The hook run for the first n tenders of a new sale, in order. */
  function LinkTenders(messages: seq<Message>, sale: nat, payments: seq<Payment>, n: nat): (r: seq<Message>)
    requires n <= |payments|
    ensures |r| == |messages|
  {
    if n == 0 then messages
    else
      var before := LinkTenders(messages, sale, payments, n - 1);
      if payments[n - 1].tender == Mpesa && payments[n - 1].reference != ""
      then LinkReference(before, payments[n - 1].reference, Some(PaymentRef(sale, n - 1)), None)
      else before
  }

  /** The rows `unlink_payment` updates (repositories/mpesa.py:253-259). */
  predicate UnlinkHits(m: Message, ref: PaymentRef) {
    m.payment == Some(ref) && m.status == Matched
  }

  function UnlinkTender(messages: seq<Message>, ref: PaymentRef): (r: seq<Message>)
    ensures |r| == |messages|
  {
    seq(|messages|, i requires 0 <= i < |messages| =>
      if UnlinkHits(messages[i], ref) then messages[i].(status := Unmatched, payment := None) else messages[i])
  }

  /** A void unlinks every M-Pesa tender of the sale. */
  function UnlinkTenders(messages: seq<Message>, sale: nat, payments: seq<Payment>, n: nat): (r: seq<Message>)
    requires n <= |payments|
    ensures |r| == |messages|
  {
    if n == 0 then messages
    else
      var before := UnlinkTenders(messages, sale, payments, n - 1);
      if payments[n - 1].tender == Mpesa then UnlinkTender(before, PaymentRef(sale, n - 1)) else before
  }

  // --- what the links keep --------------------------------------------------------------------

  /** MATCHED exactly when one of the two links is set; only unread texts lack a code. */
  predicate WellLinked(m: Message) {
    && (m.status == Matched <==> (m.payment.Some? || m.repayment.Some?))
    && !(m.payment.Some? && m.repayment.Some?)
    && (m.status == Unparsed ==> m.code.None?)
    && (m.status == Unmatched || m.status == Matched ==> m.code.Some?)
  }

  predicate LinksValid(messages: seq<Message>, sales: seq<Sale>, entries: seq<Credit.Entry>) {
    forall i :: 0 <= i < |messages| ==>
      && WellLinked(messages[i])
      && (messages[i].payment.Some? ==> IsTender(sales, messages[i].payment.value))
      && (messages[i].repayment.Some? ==> IsRepayment(entries, messages[i].repayment.value))
  }

  predicate OneToOne(messages: seq<Message>) {
    forall i, j :: 0 <= i < j < |messages| ==>
      && (messages[i].payment.Some? ==> messages[i].payment != messages[j].payment)
      && (messages[i].repayment.Some? ==> messages[i].repayment != messages[j].repayment)
      && (messages[i].code.Some? ==> messages[i].code != messages[j].code)
  }

  ghost predicate MpesaInv(messages: seq<Message>, sales: seq<Sale>, entries: seq<Credit.Entry>) {
    LinksValid(messages, sales, entries) && OneToOne(messages)
  }

  /** So the `one_or_none` of the two UPDATEs never meets a second row. */
  lemma UpdatesHitAtMostOneRow(messages: seq<Message>, i: nat, j: nat, code: string, ref: PaymentRef)
    requires OneToOne(messages) && i < |messages| && j < |messages|
    ensures LinkHits(messages[i], code) && LinkHits(messages[j], code) ==> i == j
    ensures UnlinkHits(messages[i], ref) && UnlinkHits(messages[j], ref) ==> i == j
  {
    if i < j {
      assert messages[i].code.Some? ==> messages[i].code != messages[j].code;
    } else if j < i {
      assert messages[j].code.Some? ==> messages[j].code != messages[i].code;
    }
  }

  lemma LinkByCodeKeepsInv(
    messages: seq<Message>, sales: seq<Sale>, entries: seq<Credit.Entry>, code: string, payment: Option<PaymentRef>,
    repayment: Option<nat>)
    requires MpesaInv(messages, sales, entries)
    requires payment.Some? != repayment.Some?
    requires payment.Some? ==> IsTender(sales, payment.value) && !TenderLinked(messages, payment.value)
    requires repayment.Some? ==> IsRepayment(entries, repayment.value) && !RepaymentLinked(messages, repayment.value)
    ensures MpesaInv(LinkByCode(messages, code, payment, repayment), sales, entries)
  {
    var linked := LinkByCode(messages, code, payment, repayment);
    forall i, j | 0 <= i < j < |linked|
      ensures linked[i].payment.Some? ==> linked[i].payment != linked[j].payment
      ensures linked[i].repayment.Some? ==> linked[i].repayment != linked[j].repayment
      ensures linked[i].code.Some? ==> linked[i].code != linked[j].code
    {
      UpdatesHitAtMostOneRow(messages, i, j, code, PaymentRef(0, 0));
    }
  }

  lemma UnlinkKeepsInv(messages: seq<Message>, sales: seq<Sale>, entries: seq<Credit.Entry>, ref: PaymentRef)
    requires MpesaInv(messages, sales, entries)
    ensures MpesaInv(UnlinkTender(messages, ref), sales, entries)
    ensures !TenderLinked(UnlinkTender(messages, ref), ref)
  {
  }

  ghost predicate TenderWaits(messages: seq<Message>, sales: seq<Sale>, code: Code) {
    exists ref: PaymentRef :: TenderCarries(sales, ref, code) && !TenderLinked(messages, ref)
  }

  ghost predicate RepaymentWaits(messages: seq<Message>, entries: seq<Credit.Entry>, code: Code) {
    exists e: nat :: RepaymentCarries(entries, e, code) && !RepaymentLinked(messages, e)
  }

  /**
   * A new code becomes one new message: linked to a tender exactly when an unlinked one carries the
   * code, else to a repayment exactly when one does, else waiting. A known code adds nothing.
   */
  lemma PasteOutcome(messages: seq<Message>, sales: seq<Sale>, entries: seq<Credit.Entry>, code: Code, amount: nat)
    ensures
      var r := Paste(messages, sales, entries, Some(code), amount);
      var known := exists i :: 0 <= i < |messages| && messages[i].code == Some(code);
      if known then r == messages
      else
        && |r| == |messages| + 1 && r[..|messages|] == messages
        && var m := r[|messages|];
           && m.code == Some(code) && m.amount == amount
           && (m.status == Matched || m.status == Unmatched)
           && (m.payment.Some? <==> TenderWaits(messages, sales, code))
           && (m.repayment.Some? <==> !TenderWaits(messages, sales, code) && RepaymentWaits(messages, entries, code))
           && (m.status == Matched <==> m.payment.Some? || m.repayment.Some?)
  {
    var tender := FindTender(sales, messages, code, 0, 0);
    var repayment := FindRepayment(entries, messages, code, 0);
    assert tender.None? ==> !TenderWaits(messages, sales, code);
    assert repayment.None? ==> !RepaymentWaits(messages, entries, code);
  }

  lemma PasteKeepsInv(
    messages: seq<Message>, sales: seq<Sale>, entries: seq<Credit.Entry>, parsed: Option<Code>, amount: nat)
    requires MpesaInv(messages, sales, entries)
    ensures MpesaInv(Paste(messages, sales, entries, parsed, amount), sales, entries)
  {
    var r := Paste(messages, sales, entries, parsed, amount);
    if |r| > |messages| {
      var m := r[|messages|];
      assert forall i :: 0 <= i < |messages| ==> r[i] == messages[i];
      assert m.payment.Some? ==> !TenderLinked(messages, m.payment.value);
      assert m.repayment.Some? ==> !RepaymentLinked(messages, m.repayment.value);
    }
  }

  lemma MatchKeepsInv(messages: seq<Message>, sales: seq<Sale>, entries: seq<Credit.Entry>, i: nat, target: Target)
    requires MpesaInv(messages, sales, entries) && Match(messages, sales, entries, i, target).Ok?
    ensures MpesaInv(Match(messages, sales, entries, i, target).value, sales, entries)
  {
  }

  lemma IgnoreKeepsInv(messages: seq<Message>, sales: seq<Sale>, entries: seq<Credit.Entry>, i: nat)
    requires MpesaInv(messages, sales, entries) && Ignore(messages, i).Ok?
    ensures MpesaInv(Ignore(messages, i).value, sales, entries)
  {
  }

  /** Rows are only appended to the other tables, so links stay valid. */
  lemma TablesGrow(
    messages: seq<Message>, sales: seq<Sale>, entries: seq<Credit.Entry>, sales': seq<Sale>,
    entries': seq<Credit.Entry>)
    requires MpesaInv(messages, sales, entries) && sales <= sales' && entries <= entries'
    ensures MpesaInv(messages, sales', entries')
  {
  }

  predicate NotYetLinked(messages: seq<Message>, sale: nat, n: nat) {
    forall i :: 0 <= i < |messages| && messages[i].payment.Some? && messages[i].payment.value.sale == sale ==>
      messages[i].payment.value.index < n
  }

  lemma {:induction false} LinkTendersKeepsInv(
    messages: seq<Message>, sales: seq<Sale>, entries: seq<Credit.Entry>, sale: nat, n: nat)
    requires MpesaInv(messages, sales, entries) && NotYetLinked(messages, sale, 0)
    requires sale < |sales| && sales[sale].status == Completed && n <= |sales[sale].payments|
    ensures MpesaInv(LinkTenders(messages, sale, sales[sale].payments, n), sales, entries)
    ensures NotYetLinked(LinkTenders(messages, sale, sales[sale].payments, n), sale, n)
  {
    if n > 0 {
      LinkTendersKeepsInv(messages, sales, entries, sale, n - 1);
      var payments := sales[sale].payments;
      var before := LinkTenders(messages, sale, payments, n - 1);
      var ref := PaymentRef(sale, n - 1);
      if payments[n - 1].tender == Mpesa {
        assert !TenderLinked(before, ref);
        LinkByCodeKeepsInv(before, sales, entries, Normalised(payments[n - 1].reference), Some(ref), None);
      }
    }
  }

  lemma {:induction false} UnlinkTendersKeepsInv(
    messages: seq<Message>, sales: seq<Sale>, entries: seq<Credit.Entry>, sale: nat, n: nat)
    requires MpesaInv(messages, sales, entries) && sale < |sales| && n <= |sales[sale].payments|
    ensures
      var r := UnlinkTenders(messages, sale, sales[sale].payments, n);
      && MpesaInv(r, sales, entries)
      && (forall k :: 0 <= k < n ==> !TenderLinked(r, PaymentRef(sale, k)))
  {
    if n > 0 {
      UnlinkTendersKeepsInv(messages, sales, entries, sale, n - 1);
      var payments := sales[sale].payments;
      var before := UnlinkTenders(messages, sale, payments, n - 1);
      UnlinkKeepsInv(before, sales, entries, PaymentRef(sale, n - 1));
    }
  }

  /** Once its tenders are unlinked, a sale can be voided without leaving a dangling link. */
  lemma VoidKeepsInv(messages: seq<Message>, sales: seq<Sale>, entries: seq<Credit.Entry>, sale: nat)
    requires MpesaInv(messages, sales, entries) && sale < |sales|
    ensures MpesaInv(UnlinkTenders(messages, sale, sales[sale].payments, |sales[sale].payments|),
      sales[sale := sales[sale].(status := Voided)], entries)
  {
    UnlinkTendersKeepsInv(messages, sales, entries, sale, |sales[sale].payments|);
    var r := UnlinkTenders(messages, sale, sales[sale].payments, |sales[sale].payments|);
    forall i | 0 <= i < |r| && r[i].payment.Some? ensures r[i].payment.value.sale != sale {
      assert TenderLinked(r, r[i].payment.value);
    }
  }
}
