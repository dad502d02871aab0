/** Concrete runs from the empty shop that show what the code lets happen. */
module Scenarios {
  import opened Prelude
  import opened SaleRecords
  import opened Shop
  import opened MpesaLinks
  import opened MpesaTheorems
  import Calls = MessageRepayments
  import Desk = CopilotShop
  import Protocol = Copilot
  import Requests = Concurrency
  import Text
  import Money
  import Inventory
  import Credit

  /** An untracked product at one shilling, and a sale of one unit of it paid by M-Pesa. */
  const SOAP := Inventory.Product(false, true, 0, 100, None)

  const ADD_SOAP: Op := AddProduct(0, false, 100, None, None, None)

  /** One bar of soap, sold to this customer and paid in this way. */
  function SoapFor(customer: Option<Id>, tender: Tender, key: Key, reference: string): SaleRequest {
    SaleRequest(
      key, 0, customer, [Line(0, 1000, None)], [TenderLine(tender, 100, reference)], 0, Credit.Owner, false,
      None, 0, 0)
  }

  function SoapSaleFor(customer: Option<Id>, tender: Tender, key: Key, reference: string): Sale {
    Sale(
      customer, key, 0, Completed, 100, 0, 100, 0, [Item(0, 1000, 100, None, 100, 0)],
      [Payment(tender, 100, Text.Trim(reference))])
  }

  function SoapRequest(key: Key, reference: string): SaleRequest { SoapFor(None, Mpesa, key, reference) }

  function SoapSale(key: Key, reference: string): Sale { SoapSaleFor(None, Mpesa, key, reference) }

  lemma SumOfOne<T>(x: T, f: T -> int)
    ensures Sum([x], f) == f(x)
  {
    assert [x][..0] == [];
  }

  /** The customer may be sold to: active, and without a credit limit. */
  predicate Welcome(book: Credit.Book, customer: Option<Id>) {
    customer.Some? ==>
      && customer.value in book.customers
      && book.customers[customer.value].active && book.customers[customer.value].limit.None?
  }

  lemma SoapPriced(st: State, customer: Option<Id>, tender: Tender, key: Key, reference: string)
    requires 0 in st.stock.products && st.stock.products[0] == SOAP && Welcome(st.book, customer)
    requires tender == OnCredit ==> customer.Some?
    ensures SchemaOk(SoapFor(customer, tender, key, reference))
    ensures
      PriceSale(st, SoapFor(customer, tender, key, reference)) == Ok(SoapSaleFor(customer, tender, key, reference))
  {
    var req := SoapFor(customer, tender, key, reference);
    var totals := LineTotals(st.stock.products, req.lines);
    assert totals == [100];
    SumOfOne(totals[0], Money.Cents());
    var payments := Payments(req.payments);
    assert payments == [Payment(tender, 100, Text.Trim(reference))];
    SumOfOne(payments[0], TenderAmount());
    SumOfOne(payments[0], CreditAmount());
    assert Money.Allocation(0, totals) == [0];
    assert Items(st.stock.products, req.lines, [0]) == SoapSaleFor(customer, tender, key, reference).items;
  }

  /** Such a sale leaves both ledgers alone and only adds itself and its links. */
  lemma SoapSold(st: State, key: Key, reference: string)
    requires 0 in st.stock.products && st.stock.products[0] == SOAP && FindSaleKey(st.sales, key).None?
    ensures
      var sale := SoapSale(key, reference);
      CreateSale(st, SoapRequest(key, reference))
      == Ok(Created(
          st.(sales := st.sales + [sale], messages := LinkTenders(st.messages, |st.sales|, sale.payments, 1)),
          |st.sales|, true))
  {
    hide PriceSale, LinkTenders;
    SoapPriced(st, None, Mpesa, key, reference);
    var sale := SoapSale(key, reference);
    SumOfOne(sale.payments[0], CreditAmount());
    assert SellItems(st.stock, sale.items, 0, |st.sales|) == Ok(st.stock);
    assert SellItems(st.stock, sale.items, 1, |st.sales|) == Ok(st.stock);
  }

  lemma RunNext(st: State, ops: seq<Op>, k: nat)
    requires k < |ops|
    ensures Run(st, ops[..k + 1]) == Step(Run(st, ops[..k]), ops[k])
  {
    assert ops[..k + 1][..k] == ops[..k];
  }

  lemma RunNone(st: State, ops: seq<Op>)
    ensures Run(st, ops[..0]) == st
  {
  }

  function WithSoap(sales: seq<Sale>, messages: seq<Message>): State {
    State(Inventory.Stock(map[0 := SOAP], []), Credit.Book(map[], []), sales, messages)
  }

  lemma SoapAdded()
    ensures Step(EMPTY, ADD_SOAP) == WithSoap([], [])
  {
  }

  // --- a void that leaves a message beside a record with its code -------------------------------------

  function TwoSalesOneCode(code: Text.Code): seq<Op> {
    [ADD_SOAP, Sell(SoapRequest(Client(0), code)), Sell(SoapRequest(Client(1), code)), PasteMessage(Some(code), 100),
      Op.Void(0)]
  }

  lemma SoapCarries(sales: seq<Sale>, s: nat, code: Text.Code)
    requires s < |sales| && sales[s].status == Completed && sales[s].payments == [Payment(Mpesa, 100, Text.Trim(code))]
    ensures TenderCarries(sales, PaymentRef(s, 0), code)
  {
    CodeNormalised(code);
    CodeOfCode(code);
  }

  lemma SoapSoldTo(sales: seq<Sale>, key: Key, code: Text.Code)
    requires FindSaleKey(sales, key).None?
    ensures Step(WithSoap(sales, []), Sell(SoapRequest(key, code))) == WithSoap(sales + [SoapSale(key, code)], [])
  {
    hide CreateSale;
    SoapSold(WithSoap(sales, []), key, code);
    var payments := SoapSale(key, code).payments;
    assert LinkTenders([], |sales|, payments, 1) == [];
  }

  lemma FirstIsLinked(sales: seq<Sale>, code: Text.Code)
    requires sales != [] && sales[0].status == Completed && sales[0].payments == [Payment(Mpesa, 100, Text.Trim(code))]
    ensures Step(WithSoap(sales, []), PasteMessage(Some(code), 100))
         == WithSoap(sales, [Message(Some(code), 100, Matched, Some(PaymentRef(0, 0)), None)])
  {
    SoapCarries(sales, 0, code);
    assert !TenderLinked([], PaymentRef(0, 0));
    assert FindTender(sales, [], code, 0, 0) == Some(PaymentRef(0, 0));
  }

  lemma FirstIsVoided(sales: seq<Sale>, code: Text.Code)
    requires sales != [] && sales[0] == SoapSale(Client(0), code)
    ensures Step(WithSoap(sales, [Message(Some(code), 100, Matched, Some(PaymentRef(0, 0)), None)]), Op.Void(0))
         == WithSoap(sales[0 := sales[0].(status := Voided)], [Message(Some(code), 100, Unmatched, None, None)])
  {
    var messages := [Message(Some(code), 100, Matched, Some(PaymentRef(0, 0)), None)];
    SumOfOne(sales[0].payments[0], CreditAmount());
    assert UnlinkTenders(messages, 0, sales[0].payments, 1) == [Message(Some(code), 100, Unmatched, None, None)];
  }

  /** Two sales carry one code, the message is linked to the first, and the first is voided. */
  lemma VoidCanOrphan(code: Text.Code)
    ensures
      var st := Run(EMPTY, TwoSalesOneCode(code));
      && |st.messages| == 1 && st.messages[0].status == Unmatched && st.messages[0].code == Some(code)
      && TenderCarries(st.sales, PaymentRef(1, 0), code) && !TenderLinked(st.messages, PaymentRef(1, 0))
      && !NoOrphansIn(st)
  {
    hide Run, Step, TenderCarries, FindSaleKey;
    var ops, a, b := TwoSalesOneCode(code), SoapSale(Client(0), code), SoapSale(Client(1), code);
    RunNone(EMPTY, ops);
    RunNext(EMPTY, ops, 0);
    SoapAdded();
    RunNext(EMPTY, ops, 1);
    SoapSoldTo([], Client(0), code);
    RunNext(EMPTY, ops, 2);
    SoapSoldTo([a], Client(1), code);
    RunNext(EMPTY, ops, 3);
    assert [] + [a] == [a] && [a] + [b] == [a, b];
    FirstIsLinked([a, b], code);
    RunNext(EMPTY, ops, 4);
    FirstIsVoided([a, b], code);
    assert ops[..5] == ops;
    var st := Run(EMPTY, ops);
    SoapCarries(st.sales, 1, code);
    assert !Served(st.messages, st.sales, st.book.entries, code);
  }

  // --- a message matched between the read and the repayment -------------------------------------------

  /** The state reached: one sale without a code, customer 0 at this balance with these entries, one message. */
  function Meanwhile(balance: int, entries: seq<Credit.Entry>, messages: seq<Message>): State {
    State(Inventory.Stock(map[0 := SOAP], []), Credit.Book(map[0 := Credit.Customer(true, balance, None)], entries),
          [SoapSale(Client(0), "")], messages)
  }

  function Waiting(code: Text.Code): Message { Message(Some(code), 100, Unmatched, None, None) }

  function Linked(code: Text.Code): Message { Message(Some(code), 100, Matched, Some(PaymentRef(0, 0)), None) }

  function MessageRequest(code: Text.Code): RepaymentRequest {
    RepaymentRequest(0, 100, Credit.Mpesa, code, true, Some(Calls.RepaymentKey(0)), 0)
  }

  function MatchedMeanwhile(code: Text.Code): seq<Calls.Event> {
    [Calls.Other(ADD_SOAP), Calls.Other(Sell(SoapRequest(Client(0), ""))), Calls.Other(PutCustomer(0, true, None)),
     Calls.Other(PasteMessage(Some(code), 100)), Calls.Read(0, 0, true, 0),
     Calls.Other(MatchMessage(0, ToTender(PaymentRef(0, 0)))), Calls.Post(0)]
  }

  lemma BlankCarriesNothing(code: Text.Code, ref: PaymentRef)
    ensures !TenderCarries([SoapSale(Client(0), "")], ref, code)
  {
    assert Text.Trim("") == "" && |Text.CodeOf("")| == 0;
  }

  lemma BlankSold()
    ensures Shop.Step(WithSoap([], []), Sell(SoapRequest(Client(0), ""))) == WithSoap([SoapSale(Client(0), "")], [])
  {
    hide CreateSale;
    SoapSold(WithSoap([], []), Client(0), "");
    assert LinkTenders([], 0, SoapSale(Client(0), "").payments, 1) == [];
    assert [] + [SoapSale(Client(0), "")] == [SoapSale(Client(0), "")];
  }

  lemma CustomerPut()
    ensures Shop.Step(WithSoap([SoapSale(Client(0), "")], []), PutCustomer(0, true, None)) == Meanwhile(0, [], [])
  {
  }

  lemma PastedAndWaits(code: Text.Code)
    ensures Shop.Step(Meanwhile(0, [], []), PasteMessage(Some(code), 100)) == Meanwhile(0, [], [Waiting(code)])
  {
    hide FindTender, TenderCarries;
    var sales := [SoapSale(Client(0), "")];
    forall ref: PaymentRef ensures !TenderCarries(sales, ref, code) { BlankCarriesNothing(code, ref); }
    assert FindTender(sales, [], code, 0, 0).None?;
    assert FindRepayment([], [], code, 0).None?;
  }

  lemma MatchedByHand(code: Text.Code)
    ensures Shop.Step(Meanwhile(0, [], [Waiting(code)]), MatchMessage(0, ToTender(PaymentRef(0, 0))))
      == Meanwhile(0, [], [Linked(code)])
  {
    assert !TenderLinked([Waiting(code)], PaymentRef(0, 0));
    assert IsTender([SoapSale(Client(0), "")], PaymentRef(0, 0));
  }

  lemma PostedAfterwards(code: Text.Code)
    ensures
      var st' := Shop.Step(Meanwhile(0, [], [Linked(code)]), Repay(MessageRequest(code)));
      && st'.messages == [Linked(code)] && |st'.book.entries| == 1
      && st'.book.entries[0].amount == -100 && st'.book.entries[0].key == Some(Calls.RepaymentKey(0))
  {
    hide LinkReference;
    CodeNormalised(code);
    Calls.LinksNothing([Linked(code)], 0, 0);
  }

  lemma CallsNext(events: seq<Calls.Event>, k: nat)
    requires k < |events|
    ensures Calls.Run(Calls.START, events[..k + 1]) == Calls.Step(Calls.Run(Calls.START, events[..k]), events[k])
  {
    assert events[..k + 1][..k] == events[..k];
  }

  lemma CallsNone(events: seq<Calls.Event>)
    ensures Calls.Run(Calls.START, events[..0]) == Calls.START
  {
  }

  lemma ReadWaiting(code: Text.Code)
    ensures Calls.ReadMessage(Meanwhile(0, [], [Waiting(code)]), 0, 0, true, 0) == Ok(MessageRequest(code))
  {
  }

  /** Then the message stays linked to the tender, and a repayment for it is posted all the same. */
  lemma MatchedBetweenReadAndRepayment(code: Text.Code)
    ensures
      var st := Calls.Run(Calls.START, MatchedMeanwhile(code)).shop;
      && st.messages == [Linked(code)] && st.messages[0].payment == Some(PaymentRef(0, 0))
        && st.messages[0].repayment == None
      && |st.book.entries| == 1 && st.book.entries[0].key == Some(Calls.RepaymentKey(0))
        && st.book.entries[0].amount == -100
  {
    hide Calls.Run, Shop.Step, Calls.ReadMessage;
    var e := MatchedMeanwhile(code);
    CallsNone(e);
    CallsNext(e, 0);
    SoapAdded();
    CallsNext(e, 1);
    BlankSold();
    CallsNext(e, 2);
    CustomerPut();
    CallsNext(e, 3);
    PastedAndWaits(code);
    CallsNext(e, 4);
    ReadWaiting(code);
    assert Calls.Run(Calls.START, e[..5]).calls == [Calls.Call(0, MessageRequest(code), false)];
    CallsNext(e, 5);
    MatchedByHand(code);
    CallsNext(e, 6);
    PostedAfterwards(code);
    assert e[..7] == e;
  }

  // --- a proposal rejected between the service's commit and the mark ------------------------------------

  const ANY_PAYLOAD := Desk.SalePayload(SoapRequest(Client(0), ""))

  const REJECTED_MEANWHILE := [
    Desk.Other(ADD_SOAP), Desk.Propose(Protocol.Sales), Desk.Begin(0, ANY_PAYLOAD, false), Desk.Serve(0),
    Desk.Reject(0, false), Desk.Mark(0, false)]

  lemma DeskNext(events: seq<Desk.Event>, k: nat)
    requires k < |events|
    ensures Desk.Run(events[..k + 1]) == Desk.Step(Desk.Run(events[..k]), events[k])
  {
    assert events[..k + 1][..k] == events[..k];
  }

  lemma DeskNone(events: seq<Desk.Event>)
    ensures Desk.Run(events[..0]) == Desk.START
  {
  }

  lemma SoapServed()
    ensures
      Desk.Call(WithSoap([], []), Desk.RequestOf(ANY_PAYLOAD, 0))
      == (WithSoap([SoapSale(Protocol.ProposalKey(0), "")], []), Some(0))
  {
    hide CreateSale;
    var key := Protocol.ProposalKey(0);
    SoapSold(WithSoap([], []), key, "");
    assert LinkTenders([], 0, SoapSale(key, "").payments, 1) == [];
    assert [] + [SoapSale(key, "")] == [SoapSale(key, "")];
    assert Desk.RequestOf(ANY_PAYLOAD, 0) == Requests.SaleOf(SoapRequest(key, ""));
  }

  /** Then the proposal ends REJECTED although its sale is on the books. */
  lemma RejectedWithSale()
    ensures
      var w := Desk.Run(REJECTED_MEANWHILE);
      && |w.messages| == 1 && w.messages[0].status == Protocol.Rejected
      && Desk.RecordOf(w, 0, 0) && |w.shop.sales| == 1 && w.shop.sales[0].status == Completed
  {
    hide Desk.Run, Shop.Step, Desk.Call;
    var e := REJECTED_MEANWHILE;
    DeskNone(e);
    DeskNext(e, 0);
    SoapAdded();
    DeskNext(e, 1);
    assert Desk.Run(e[..2])
      == Desk.World(WithSoap([], []), [Protocol.Message(Protocol.Sales, Protocol.Pending, None)], []);
    DeskNext(e, 2);
    assert Desk.Run(e[..3]).confirms == [Desk.Confirm(0, ANY_PAYLOAD, Protocol.HasRead)];
    DeskNext(e, 3);
    SoapServed();
    assert Desk.Run(e[..4]).confirms == [Desk.Confirm(0, ANY_PAYLOAD, Protocol.Served(0))];
    DeskNext(e, 4);
    DeskNext(e, 5);
    assert e[..6] == e;
  }

  // --- a sale on credit to a customer who has overpaid --------------------------------------------------

  const OVERPAID: RepaymentRequest := RepaymentRequest(0, 200, Credit.Cash, "", true, None, 0)

  const CREDIT_SALE := SoapFor(Some(0), OnCredit, Client(0), "")

  const OVERPAID_THEN_CREDIT := [ADD_SOAP, PutCustomer(0, true, None), Repay(OVERPAID), Sell(CREDIT_SALE)]

  function Overpaid(entries: seq<Credit.Entry>): State {
    State(
      Inventory.Stock(map[0 := SOAP], []), Credit.Book(map[0 := Credit.Customer(true, -200, None)], entries), [], [])
  }

  lemma PaidTooMuch()
    ensures
      var st := State(
        Inventory.Stock(map[0 := SOAP], []), Credit.Book(map[0 := Credit.Customer(true, 0, None)], []), [], []);
      && Step(WithSoap([], []), PutCustomer(0, true, None)) == st
      && Step(st, Repay(OVERPAID)) == Overpaid([EntryOf(OVERPAID).(after := -200)])
  {
  }

  lemma CreditRefused(entries: seq<Credit.Entry>)
    ensures CreateSale(Overpaid(entries), CREDIT_SALE) == Err(NegativeBalance)
  {
    hide PriceSale;
    var sale := SoapSaleFor(Some(0), OnCredit, Client(0), "");
    SoapPriced(Overpaid(entries), Some(0), OnCredit, Client(0), "");
    SumOfOne(sale.payments[0], CreditAmount());
    assert SellItems(Overpaid(entries).stock, sale.items, 0, 0) == Ok(Overpaid(entries).stock);
    assert SellItems(Overpaid(entries).stock, sale.items, 1, 0) == Ok(Overpaid(entries).stock);
  }

  /** A shilling on credit is refused to a customer two shillings ahead, and nothing is recorded. */
  lemma CreditRefusedAfterOverpayment()
    ensures
      var before := Run(EMPTY, OVERPAID_THEN_CREDIT[..3]);
      && 0 in before.book.customers && before.book.customers[0].balance == -200
      && CreateSale(before, CREDIT_SALE) == Err(NegativeBalance)
      && Run(EMPTY, OVERPAID_THEN_CREDIT) == before
  {
    hide Run, CreateSale;
    var ops := OVERPAID_THEN_CREDIT;
    RunNone(EMPTY, ops);
    RunNext(EMPTY, ops, 0);
    SoapAdded();
    RunNext(EMPTY, ops, 1);
    RunNext(EMPTY, ops, 2);
    PaidTooMuch();
    RunNext(EMPTY, ops, 3);
    CreditRefused([EntryOf(OVERPAID).(after := -200)]);
    assert ops[..4] == ops;
  }
}
