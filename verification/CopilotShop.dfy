/**
 * The copilot over the whole shop: a confirm calls the sale or the repayment service with the key
 * derived from its message. Each such run is a run of the protocol in `Copilot`, so what is proved
 * there holds here. A service call is one step, which `ConcurrencyTheorems.EveryRunIsSerial` justifies.
 */
module CopilotShop {
  import opened Prelude
  import opened SaleRecords
  import opened Shop
  import opened ConcurrencyFrames
  import Protocol = Copilot
  import Requests = Concurrency
  import Keeps = ConcurrencyInvariant
  import Rows = LockOrder
  import ShopInvariant
  import ShopRuns
  import Credit
  import MpesaLinks

  /** What the owner confirmed; the key it carries is replaced by the derived one. */
  datatype Payload = SalePayload(sale: SaleRequest) | RepaymentPayload(repayment: RepaymentRequest)

  datatype Confirm = Confirm(message: nat, payload: Payload, progress: Protocol.Progress)

  datatype World = World(shop: State, messages: seq<Protocol.Message>, confirms: seq<Confirm>)

  const START := World(EMPTY, [], [])

  /** The payload is validated against the kind of the proposal. */
  predicate Fits(kind: Protocol.Kind, payload: Payload) { kind.Sales? == payload.SalePayload? }

  function Digest(payload: Payload): nat {
    if payload.SalePayload? then payload.sale.digest else payload.repayment.digest
  }

  /** The request as it goes to the service. */
  function RequestOf(payload: Payload, m: nat): Requests.Request {
    match payload
    case SalePayload(sale) => Requests.SaleOf(sale.(key := Protocol.ProposalKey(m)))
    case RepaymentPayload(repayment) => Requests.RepaymentOf(repayment.(key := Some(Protocol.ProposalKey(m))))
  }

  datatype Event =
    | Propose(kind: Protocol.Kind)
    | Begin(message: nat, payload: Payload, expired: bool)
    | Serve(confirm: nat)
    | Mark(confirm: nat, expired: bool)
    | CutOff(confirm: nat)
    | Reject(message: nat, expired: bool)
    | Other(op: Op)                          // anything else the shop does, under any keys

  predicate Open(w: World, m: nat, expired: bool) {
    m < |w.messages| && w.messages[m].status == Protocol.Pending && !expired
  }

  function WithProgress(w: World, c: nat, progress: Protocol.Progress): World
    requires c < |w.confirms|
  {
    w.(confirms := w.confirms[c := w.confirms[c].(progress := progress)])
  }

  /** The service call: the new shop, and the row it names if it succeeds. */
  function Call(st: State, req: Requests.Request): (State, Option<nat>) {
    match Requests.Atomic(st, req)
    case (st', Recorded(i)) => (st', Some(i))
    case (st', Replayed(i)) => (st', Some(i))
    case (st', _) => (st', None)
  }

  function ServeConfirm(w: World, c: nat): World
    requires c < |w.confirms|
  {
    var call := w.confirms[c];
    if call.progress != Protocol.HasRead then w
    else
      var (shop, row) := Call(w.shop, RequestOf(call.payload, call.message));
      WithProgress(w.(shop := shop), c, if row.Some? then Protocol.Served(row.value) else Protocol.Ended)
  }

  function MarkApplied(w: World, c: nat, expired: bool): World
    requires c < |w.confirms|
  {
    var call := w.confirms[c];
    if !call.progress.Served? then w
    else if !Open(w, call.message, expired) then WithProgress(w, c, Protocol.Ended)
    else
      var applied := w.messages[call.message].(status := Protocol.Applied, entity := Some(call.progress.entity));
      WithProgress(w.(messages := w.messages[call.message := applied]), c, Protocol.Ended)
  }

  function Step(w: World, ev: Event): World {
    match ev
    case Propose(kind) => w.(messages := w.messages + [Protocol.Message(kind, Protocol.Pending, None)])
    case Begin(m, payload, expired) =>
      if Open(w, m, expired) && Fits(w.messages[m].kind, payload)
      then w.(confirms := w.confirms + [Confirm(m, payload, Protocol.HasRead)]) else w
    case Serve(c) => if c < |w.confirms| then ServeConfirm(w, c) else w
    case Mark(c, expired) => if c < |w.confirms| then MarkApplied(w, c, expired) else w
    case CutOff(c) => if c < |w.confirms| then WithProgress(w, c, Protocol.Ended) else w
    case Reject(m, expired) =>
      if Open(w, m, expired) then w.(messages := w.messages[m := w.messages[m].(status := Protocol.Rejected)]) else w
    case Other(op) => w.(shop := Shop.Step(w.shop, op))
  }

  function Run(events: seq<Event>): World {
    if events == [] then START else Step(Run(events[..|events| - 1]), events[|events| - 1])
  }

  /**
   * A confirm that has read its message hands the confirmed payload to the service unchanged, under
   * the key derived from the message, and is told the row if the service succeeds.
   */
  lemma ServeIsService(w: World, c: nat)
    requires c < |w.confirms| && w.confirms[c].progress == Protocol.HasRead
    ensures
      var call := w.confirms[c];
      var w' := Step(w, Serve(c));
      var key := Derived(0, call.message);
      && w'.messages == w.messages
      && w'.shop == Shop.Step(w.shop,
           if call.payload.SalePayload? then Sell(call.payload.sale.(key := key))
           else Repay(call.payload.repayment.(key := Some(key))))
      && (call.payload.SalePayload? && CreateSale(w.shop, call.payload.sale.(key := key)).Ok? ==>
            w'.confirms[c].progress == Protocol.Served(CreateSale(w.shop, call.payload.sale.(key := key)).value.sale))
  {
    hide PriceSale, RecordSale, Credit.Record;
    CallIsStep(w.shop, RequestOf(w.confirms[c].payload, w.confirms[c].message));
  }

  /** Over the shop, too, a served confirm ends and its proposal is APPLIED if it is still open. */
  lemma MarkOutcome(w: World, c: nat, expired: bool)
    requires c < |w.confirms| && w.confirms[c].progress.Served?
    ensures
      var w' := Step(w, Mark(c, expired));
      var m, row := w.confirms[c].message, w.confirms[c].progress.entity;
      && w'.shop == w.shop && w'.confirms == w.confirms[c := w.confirms[c].(progress := Protocol.Ended)]
      && w'.messages
         == if m < |w.messages| && w.messages[m].status == Protocol.Pending && !expired
            then w.messages[m := Protocol.Message(w.messages[m].kind, Protocol.Applied, Some(row))]
            else w.messages
  {
  }

  lemma RejectOutcome(w: World, m: nat, expired: bool)
    ensures
      Step(w, Reject(m, expired))
      == if m < |w.messages| && w.messages[m].status == Protocol.Pending && !expired
         then w.(messages := w.messages[m :=
           Protocol.Message(w.messages[m].kind, Protocol.Rejected, w.messages[m].entity)])
         else w
  {
  }

  /** A confirm starts exactly for an open proposal and a payload of its kind. */
  lemma BeginOutcome(w: World, m: nat, payload: Payload, expired: bool)
    ensures
      Step(w, Begin(m, payload, expired))
      == if m < |w.messages| && w.messages[m].status == Protocol.Pending && !expired
            && (w.messages[m].kind == Protocol.Sales <==> payload.SalePayload?)
         then w.(confirms := w.confirms + [Confirm(m, payload, Protocol.HasRead)]) else w
  {
  }

  // --- the shop only adds rows ------------------------------------------------------------------------

  lemma CallIsStep(st: State, req: Requests.Request)
    ensures Call(st, req).0 == Shop.Step(st, Requests.OpOf(req))
  {
    hide Attempt, Requests.Lookup;
    if Requests.Lookup(st, req).Some? { TakenKeyChangesNothing(st, req); }
  }

  lemma StepExtends(st: State, op: Op)
    ensures Extends(st, Shop.Step(st, op))
  {
    hide CreateSale, Credit.Record, Shop.VoidSale, RecordRepayment, RecordAdjustment;
    if op.Sell? {
      if CreateSale(st, op.sale).Ok? { SellExtends(st, op.sale); }
    } else if op.Repay? || op.AdjustCredit? {
      CreditExtends(st, op);
    } else {
      Keeps.NoKeyTouched(st, op);
      OtherFrame(st, op, Rows.UniqueKey(0));
    }
  }

  lemma SellExtends(st: State, req: SaleRequest)
    requires CreateSale(st, req).Ok?
    ensures Extends(st, CreateSale(st, req).value.state)
  {
    hide PriceSale, RecordSale;
    if FindSaleKey(st.sales, req.key).None? {
      SaleExtends(st, PriceSale(st, req).value);
    }
  }

  lemma CreditExtends(st: State, op: Op)
    requires op.Repay? || op.AdjustCredit?
    ensures Extends(st, Shop.Step(st, op))
  {
    hide MpesaLinks.LinkReference;
  }

  // --- each run is a run of the protocol ----------------------------------------------------------------

  function SaleRows(sales: seq<Sale>): (r: seq<Protocol.Row>)
    ensures |r| == |sales|
  {
    seq(|sales|, i requires 0 <= i < |sales| => Protocol.Row(Some(sales[i].key), sales[i].digest))
  }

  function EntryRows(entries: seq<Credit.Entry>): (r: seq<Protocol.Row>)
    ensures |r| == |entries|
  {
    seq(|entries|, i requires 0 <= i < |entries| => Protocol.Row(entries[i].key, entries[i].digest))
  }

  function Confirms(confirms: seq<Confirm>): (r: seq<Protocol.Confirm>)
    ensures |r| == |confirms|
  {
    seq(|confirms|, i requires 0 <= i < |confirms| =>
      Protocol.Confirm(confirms[i].message, Digest(confirms[i].payload), confirms[i].progress))
  }

  function View(w: World): Protocol.World {
    Protocol.World(SaleRows(w.shop.sales), EntryRows(w.shop.book.entries), w.messages, Confirms(w.confirms))
  }

  /** The rows a step has added, seen as somebody else's. */
  function Added(a: State, b: State): Protocol.Event {
    if Extends(a, b)
    then Protocol.Foreign(SaleRows(b.sales)[|a.sales|..], EntryRows(b.book.entries)[|a.book.entries|..])
    else Protocol.Foreign([], [])
  }

  /** A sale on credit adds its charge besides itself. */
  function Besides(a: State, b: State, kind: Protocol.Kind): Protocol.Event {
    if kind.Sales? && Extends(a, b) then Protocol.Foreign([], EntryRows(b.book.entries)[|a.book.entries|..])
    else Protocol.Foreign([], [])
  }

  /** The protocol events one event of the shop stands for. */
  function Image(w: World, ev: Event): seq<Protocol.Event> {
    match ev
    case Propose(kind) => [Protocol.Propose(kind)]
    case Begin(m, payload, expired) =>
      if m < |w.messages| && Fits(w.messages[m].kind, payload)
      then [Protocol.Begin(m, Digest(payload), expired)] else []
    case Serve(c) =>
      if c >= |w.confirms| || w.confirms[c].progress != Protocol.HasRead || w.confirms[c].message >= |w.messages|
      then []
      else
        var call := w.confirms[c];
        var (shop, row) := Call(w.shop, RequestOf(call.payload, call.message));
        [Protocol.Serve(c, row.None?), Besides(w.shop, shop, w.messages[call.message].kind)]
    case Mark(c, expired) => [Protocol.Mark(c, expired)]
    case CutOff(c) => [Protocol.CutOff(c)]
    case Reject(m, expired) => [Protocol.Reject(m, expired)]
    case Other(op) => [Added(w.shop, Shop.Step(w.shop, op))]
  }

  function Images(events: seq<Event>): seq<Protocol.Event> {
    if events == [] then []
    else Images(events[..|events| - 1]) + Image(Run(events[..|events| - 1]), events[|events| - 1])
  }

  ghost predicate WorldOk(w: World) {
    && ShopInvariant.Inv(w.shop)
    && forall c :: 0 <= c < |w.confirms| ==>
         w.confirms[c].message < |w.messages| && Fits(w.messages[w.confirms[c].message].kind, w.confirms[c].payload)
  }

  lemma StepOk(w: World, ev: Event)
    requires WorldOk(w)
    ensures WorldOk(Step(w, ev))
  {
    hide ShopInvariant.Inv, Shop.Step, Call;
    match ev
    case Serve(c) =>
      if c < |w.confirms| {
        var req := RequestOf(w.confirms[c].payload, w.confirms[c].message);
        CallIsStep(w.shop, req);
        ShopRuns.StepKeepsInv(w.shop, Requests.OpOf(req));
      }
    case Other(op) => ShopRuns.StepKeepsInv(w.shop, op);
    case _ =>
  }

  lemma {:induction false} EveryRunOk(events: seq<Event>)
    ensures WorldOk(Run(events))
  {
    hide WorldOk, Step;
    if events == [] {
      StartOk();
    } else {
      EveryRunOk(events[..|events| - 1]);
      StepOk(Run(events[..|events| - 1]), events[|events| - 1]);
    }
  }

  lemma StartOk()
    ensures WorldOk(START)
  {
    ShopRuns.EmptyInv();
  }

  lemma RowsUnique(st: State)
    requires ShopInvariant.Inv(st)
    ensures Protocol.KeysUnique(SaleRows(st.sales)) && Protocol.KeysUnique(EntryRows(st.book.entries))
  {
    InvUniqueKeys(st);
  }

  lemma RowsExtend(a: State, b: State)
    requires Extends(a, b)
    ensures SaleRows(a.sales) + SaleRows(b.sales)[|a.sales|..] == SaleRows(b.sales)
    ensures EntryRows(a.book.entries) + EntryRows(b.book.entries)[|a.book.entries|..] == EntryRows(b.book.entries)
  {
  }

  lemma OtherIsForeign(w: World, op: Op)
    requires WorldOk(w)
    ensures View(Step(w, Other(op))) == Protocol.Step(View(w), Added(w.shop, Shop.Step(w.shop, op)))
  {
    hide ShopInvariant.Inv, Shop.Step, Extends, SaleRows, EntryRows, Protocol.KeysUnique;
    var shop' := Shop.Step(w.shop, op);
    StepExtends(w.shop, op);
    ShopRuns.StepKeepsInv(w.shop, op);
    RowsUnique(shop');
    RowsExtend(w.shop, shop');
  }

  lemma {:induction false} SaleLookup(sales: seq<Sale>, key: Key)
    ensures FindSaleKey(sales, key) == Protocol.Find(SaleRows(sales), key)
  {
    if sales != [] {
      SaleLookup(sales[..|sales| - 1], key);
      assert SaleRows(sales)[..|sales| - 1] == SaleRows(sales[..|sales| - 1]);
    }
  }

  lemma {:induction false} EntryLookup(entries: seq<Credit.Entry>, key: Key)
    ensures Credit.FindKey(entries, key) == Protocol.Find(EntryRows(entries), key)
  {
    if entries != [] {
      EntryLookup(entries[..|entries| - 1], key);
      assert EntryRows(entries)[..|entries| - 1] == EntryRows(entries[..|entries| - 1]);
    }
  }

  /** What a call does to the two tables: nothing, or one row under its key, with perhaps an unkeyed charge besides. */
  ghost predicate CallShows(st: State, payload: Payload, m: nat) {
    var req := RequestOf(payload, m);
    var (st', row) := Call(st, req);
    var key := Protocol.ProposalKey(m);
    var sales, sales' := SaleRows(st.sales), SaleRows(st'.sales);
    var entries, entries' := EntryRows(st.book.entries), EntryRows(st'.book.entries);
    var table := if payload.SalePayload? then sales else entries;
    if row.None? then st' == st
    else if Protocol.Find(table, key).Some? then
      st' == st && row == Protocol.Find(table, key) && table[row.value].payload == Digest(payload)
    else
      && row == Some(|table|)
      && (if payload.SalePayload?
          then sales' == sales + [Protocol.Row(Some(key), Digest(payload))]
          else sales' == sales && entries' == entries + [Protocol.Row(Some(key), Digest(payload))])
  }

  lemma CallLooksUp(st: State, payload: Payload, m: nat)
    ensures
      var table := if payload.SalePayload? then SaleRows(st.sales) else EntryRows(st.book.entries);
      Requests.Lookup(st, RequestOf(payload, m)) == Protocol.Find(table, Protocol.ProposalKey(m))
  {
    SaleLookup(st.sales, Protocol.ProposalKey(m));
    EntryLookup(st.book.entries, Protocol.ProposalKey(m));
  }

  lemma CallIsSeen(st: State, payload: Payload, m: nat)
    ensures CallShows(st, payload, m)
  {
    hide CreateSale, RecordRepayment, Protocol.Find;
    CallLooksUp(st, payload, m);
    var req := RequestOf(payload, m);
    if Requests.Lookup(st, req).None? && Attempt(st, Requests.OpOf(req)).Ok? {
      if payload.SalePayload? {
        NewSaleIsSeen(st, req.sale);
      } else {
        NewEntryIsSeen(st, req.repayment);
      }
    }
  }

  lemma NewSaleIsSeen(st: State, req: SaleRequest)
    requires FindSaleKey(st.sales, req.key).None? && CreateSale(st, req).Ok?
    ensures SaleRows(CreateSale(st, req).value.state.sales)
      == SaleRows(st.sales) + [Protocol.Row(Some(req.key), req.digest)]
  {
    hide PriceSale, RecordSale;
    var sale := PriceSale(st, req).value;
    PricedParts(st, req);
    SaleExtends(st, sale);
  }

  lemma NewEntryIsSeen(st: State, req: RepaymentRequest)
    requires req.key.Some? && Credit.FindKey(st.book.entries, req.key.value).None? && RecordRepayment(st, req).Ok?
    ensures
      var st' := RecordRepayment(st, req).value;
      && st'.sales == st.sales
      && EntryRows(st'.book.entries) == EntryRows(st.book.entries) + [Protocol.Row(req.key, req.digest)]
  {
    hide MpesaLinks.LinkReference;
  }

  lemma AddNothingElse(p: Protocol.World, extra: seq<Protocol.Row>)
    requires Protocol.KeysUnique(p.sales) && Protocol.KeysUnique(p.entries + extra)
    ensures Protocol.Step(p, Protocol.Foreign([], extra)) == p.(entries := p.entries + extra)
  {
    assert p.sales + [] == p.sales;
  }

  /** A call as the protocol sees it: the new row if there is one, then the charge besides. */
  lemma ServeThenCharge(
    p: Protocol.World, c: nat, row: Option<nat>, sales: seq<Protocol.Row>, entries: seq<Protocol.Row>,
    extra: seq<Protocol.Row>)
    requires c < |p.confirms| && p.confirms[c].progress == Protocol.HasRead && p.confirms[c].message < |p.messages|
    requires Protocol.KeysUnique(sales) && Protocol.KeysUnique(entries)
    requires
      var kind := p.messages[p.confirms[c].message].kind;
      var key := Protocol.ProposalKey(p.confirms[c].message);
      var table := Protocol.Table(p, kind);
      var written := [Protocol.Row(Some(key), p.confirms[c].payload)];
      if row.None? then sales == p.sales && entries == p.entries && extra == []
      else if Protocol.Find(table, key).Some? then
        && sales == p.sales && entries == p.entries && extra == []
        && row == Protocol.Find(table, key) && table[row.value].payload == p.confirms[c].payload
      else
        && row == Some(|table|)
        && if kind.Sales? then sales == p.sales + written && entries == p.entries + extra
           else sales == p.sales && entries == p.entries + written && extra == []
    ensures
      var progress := if row.Some? then Protocol.Served(row.value) else Protocol.Ended;
      Protocol.Step(Protocol.Step(p, Protocol.Serve(c, row.None?)), Protocol.Foreign([], extra))
      == Protocol.WithProgress(p.(sales := sales, entries := entries), c, progress)
  {
    hide Protocol.Find, Protocol.KeysUnique;
    var served := Protocol.Step(p, Protocol.Serve(c, row.None?));
    assert entries == served.entries + extra && sales == served.sales;
    AddNothingElse(served, extra);
  }

  lemma ServedView(w: World, c: nat, shop: State, progress: Protocol.Progress)
    requires c < |w.confirms|
    ensures View(WithProgress(w.(shop := shop), c, progress))
         == Protocol.WithProgress(
              View(w).(sales := SaleRows(shop.sales), entries := EntryRows(shop.book.entries)), c, progress)
  {
    var w' := WithProgress(w.(shop := shop), c, progress);
    assert Confirms(w'.confirms) == Confirms(w.confirms)[c := Confirms(w'.confirms)[c]];
  }

  lemma ServeIsServe(w: World, c: nat)
    requires WorldOk(w) && c < |w.confirms| && w.confirms[c].progress == Protocol.HasRead
    ensures
      var image := Image(w, Serve(c));
      && |image| == 2 && View(Step(w, Serve(c))) == Protocol.Step(Protocol.Step(View(w), image[0]), image[1])
  {
    hide ShopInvariant.Inv, Call, Extends, Protocol.Find, Protocol.KeysUnique, Protocol.Step, SaleRows, EntryRows,
      RequestOf, Shop.Step;
    var call := w.confirms[c];
    var req := RequestOf(call.payload, call.message);
    var (shop', row) := Call(w.shop, req);
    CallIsSeen(w.shop, call.payload, call.message);
    CallIsStep(w.shop, req);
    StepExtends(w.shop, Requests.OpOf(req));
    RowsExtend(w.shop, shop');
    ShopRuns.StepKeepsInv(w.shop, Requests.OpOf(req));
    RowsUnique(shop');
    var kind := w.messages[call.message].kind;
    var extra := if kind.Sales? then EntryRows(shop'.book.entries)[|w.shop.book.entries|..] else [];
    assert shop' == w.shop ==> extra == [];
    assert Besides(w.shop, shop', kind) == Protocol.Foreign([], extra);
    ServeThenCharge(View(w), c, row, SaleRows(shop'.sales), EntryRows(shop'.book.entries), extra);
    ServedView(w, c, shop', if row.Some? then Protocol.Served(row.value) else Protocol.Ended);
  }

  lemma RunTwo(w: Protocol.World, a: Protocol.Event, b: Protocol.Event)
    ensures Protocol.Run(w, [a, b]) == Protocol.Step(Protocol.Step(w, a), b)
    ensures Protocol.Run(w, [a]) == Protocol.Step(w, a) && Protocol.Run(w, []) == w
  {
    Protocol.RunOne(w, a);
    Protocol.RunSnoc(w, [a], b);
    assert [a] + [b] == [a, b];
  }

  lemma OneEventIsSeen(w: World, ev: Event)
    requires WorldOk(w)
    ensures View(Step(w, ev)) == Protocol.Run(View(w), Image(w, ev))
  {
    hide ShopInvariant.Inv, Shop.Step, Call, Extends, View, Protocol.Run, Protocol.Step, Besides, Added, MarkApplied;
    var image := Image(w, ev);
    var none := Protocol.Foreign([], []);
    RunTwo(View(w), if image == [] then none else image[0], if |image| < 2 then none else image[1]);
    match ev
    case Serve(c) =>
      if c < |w.confirms| && w.confirms[c].progress == Protocol.HasRead {
        ServeIsServe(w, c);
        assert image == [image[0], image[1]];
      }
    case Other(op) => OtherIsForeign(w, op);
    case _ =>
      PlainEventIsSeen(w, ev);
      assert image == [] || image == [image[0]];
  }

  lemma PlainEventIsSeen(w: World, ev: Event)
    requires WorldOk(w) && !ev.Serve? && !ev.Other?
    ensures
      var image := Image(w, ev);
      if image == [] then Step(w, ev) == w else |image| == 1 && View(Step(w, ev)) == Protocol.Step(View(w), image[0])
  {
    hide ShopInvariant.Inv, SaleRows, EntryRows, Shop.Step, Call, ServeConfirm, Protocol.ServeConfirm,
      Protocol.AddForeign;
    var w' := Step(w, ev);
    match ev
    case Begin(m, payload, expired) =>
      assert Confirms(w.confirms + [Confirm(m, payload, Protocol.HasRead)])
          == Confirms(w.confirms) + [Protocol.Confirm(m, Digest(payload), Protocol.HasRead)];
    case Mark(c, expired) =>
      if c < |w.confirms| { assert Confirms(w'.confirms) == Confirms(w.confirms)[c := Confirms(w'.confirms)[c]]; }
    case CutOff(c) =>
      if c < |w.confirms| { assert Confirms(w'.confirms) == Confirms(w.confirms)[c := Confirms(w'.confirms)[c]]; }
    case _ =>
  }

  lemma {:induction false} RunConcat(w: Protocol.World, a: seq<Protocol.Event>, b: seq<Protocol.Event>)
    ensures Protocol.Run(w, a + b) == Protocol.Run(Protocol.Run(w, a), b)
  {
    if b == [] {
      assert a + b == a;
    } else {
      var front, last := b[..|b| - 1], b[|b| - 1];
      RunConcat(w, a, front);
      assert (a + b)[..|a + b| - 1] == a + front;
    }
  }

  /** Every run of the copilot over the shop is, seen from the two keyed tables, a run of the protocol. */
  lemma {:induction false} EveryRunIsProtocolRun(events: seq<Event>)
    ensures View(Run(events)) == Protocol.Run(Protocol.EMPTY, Images(events))
  {
    hide WorldOk, Step, Image, View, Protocol.Run;
    if events == [] {
      StartIsSeen();
    } else {
      var before := events[..|events| - 1];
      EveryRunIsProtocolRun(before);
      EveryRunOk(before);
      OneEventIsSeen(Run(before), events[|events| - 1]);
      RunConcat(Protocol.EMPTY, Images(before), Image(Run(before), events[|events| - 1]));
    }
  }

  lemma StartIsSeen()
    ensures View(START) == Protocol.Run(Protocol.EMPTY, [])
  {
  }

  // --- what that means for the shop -----------------------------------------------------------------------

  /** The sale or ledger entry under the key derived from the message. */
  predicate RecordOf(w: World, m: nat, i: nat) {
    && m < |w.messages|
    && if w.messages[m].kind.Sales?
       then i < |w.shop.sales| && w.shop.sales[i].key == Protocol.ProposalKey(m)
       else i < |w.shop.book.entries| && w.shop.book.entries[i].key == Some(Protocol.ProposalKey(m))
  }

  lemma SameRecords(w: World, m: nat, i: nat)
    ensures RecordOf(w, m, i) <==> Protocol.RecordOf(View(w), m, i)
  {
  }

  /**
   * However confirms are retried, interleaved or cut off, and whatever else the shop does, one copilot
   * message of kind sale or repayment yields at most one sale or ledger entry, and an applied message
   * names it.
   */
  lemma OneRecordPerMessage(events: seq<Event>, m: nat, i: nat, j: nat)
    requires RecordOf(Run(events), m, i) && RecordOf(Run(events), m, j)
    ensures i == j
    ensures Run(events).messages[m].status == Protocol.Applied ==> Run(events).messages[m].entity == Some(i)
  {
    hide Run;
    EveryRunIsProtocolRun(events);
    SameRecords(Run(events), m, i);
    SameRecords(Run(events), m, j);
    Protocol.OneRecordPerMessage(Images(events), m, i, j);
  }

  // --- after a rejection ------------------------------------------------------------------------------------

  ghost predicate HasRecord(w: World, m: nat) { exists i: nat :: RecordOf(w, m, i) }

  /** A confirm of the message has read it and not yet called the service. */
  predicate AboutToServe(w: World, m: nat) {
    exists c :: 0 <= c < |w.confirms| && w.confirms[c].message == m && w.confirms[c].progress == Protocol.HasRead
  }

  /** The operation carries the key. */
  predicate Sends(op: Op, key: Key) {
    match op
    case Sell(sale) => sale.key == key
    case Repay(repayment) => repayment.key == Some(key)
    case AdjustCredit(_, _, k, _) => k == Some(key)
    case _ => false
  }

  /** Nobody but the copilot sends the message's key. */
  predicate KeyIsOurs(events: seq<Event>, m: nat) {
    forall k :: 0 <= k < |events| && events[k].Other? ==> !Sends(events[k].op, Protocol.ProposalKey(m))
  }

  predicate KeyUnused(st: State, kind: Protocol.Kind, key: Key) {
    if kind.Sales? then forall i :: 0 <= i < |st.sales| ==> st.sales[i].key != key
    else forall i :: 0 <= i < |st.book.entries| ==> st.book.entries[i].key != Some(key)
  }

  lemma NoRecordMeans(w: World, m: nat)
    requires m < |w.messages|
    ensures !HasRecord(w, m) <==> KeyUnused(w.shop, w.messages[m].kind, Protocol.ProposalKey(m))
  {
    if !KeyUnused(w.shop, w.messages[m].kind, Protocol.ProposalKey(m)) {
      var i :| 0 <= i
        && if w.messages[m].kind.Sales? then i < |w.shop.sales| && w.shop.sales[i].key == Protocol.ProposalKey(m)
           else i < |w.shop.book.entries| && w.shop.book.entries[i].key == Some(Protocol.ProposalKey(m));
      assert RecordOf(w, m, i);
    }
  }

  /** An operation adds no row under a key it does not carry. */
  lemma OtherKeyStaysUnused(st: State, op: Op, kind: Protocol.Kind, key: Key)
    requires !Sends(op, key) && KeyUnused(st, kind, key)
    ensures KeyUnused(Shop.Step(st, op), kind, key)
  {
    hide CreateSale, Shop.VoidSale;
    if op.Sell? {
      if CreateSale(st, op.sale).Ok? { SaleKeys(st, op.sale, kind, key); }
    } else if !op.Repay? && !op.AdjustCredit? {
      Keeps.NoKeyTouched(st, op);
      OtherFrame(st, op, Rows.UniqueKey(0));
    }
  }

  lemma SaleKeys(st: State, req: SaleRequest, kind: Protocol.Kind, key: Key)
    requires CreateSale(st, req).Ok? && req.key != key && KeyUnused(st, kind, key)
    ensures KeyUnused(CreateSale(st, req).value.state, kind, key)
  {
    hide PriceSale, RecordSale;
    if FindSaleKey(st.sales, req.key).None? {
      PricedParts(st, req);
      SaleExtends(st, PriceSale(st, req).value);
    }
  }

  lemma CallKeepsOtherKey(st: State, payload: Payload, n: nat, m: nat, kind: Protocol.Kind)
    requires n != m && KeyUnused(st, kind, Protocol.ProposalKey(m))
    ensures KeyUnused(Call(st, RequestOf(payload, n)).0, kind, Protocol.ProposalKey(m))
  {
    hide Call, Shop.Step, KeyUnused;
    CallIsStep(st, RequestOf(payload, n));
    OtherKeyStaysUnused(st, Requests.OpOf(RequestOf(payload, n)), kind, Protocol.ProposalKey(m));
  }

  /** The message is rejected, has no record, and no confirm is on its way to one. */
  predicate Clean(w: World, m: nat) {
    && m < |w.messages| && w.messages[m].status == Protocol.Rejected
    && KeyUnused(w.shop, w.messages[m].kind, Protocol.ProposalKey(m)) && !AboutToServe(w, m)
  }

  lemma CleanStep(w: World, ev: Event, m: nat)
    requires Clean(w, m) && KeyIsOurs([ev], m)
    ensures Clean(Step(w, ev), m)
  {
    hide Call, Shop.Step, KeyUnused, Sends;
    assert ev == [ev][0];
    var kind := w.messages[m].kind;
    match ev
    case Serve(c) =>
      if c < |w.confirms| && w.confirms[c].progress == Protocol.HasRead {
        assert w.confirms[c].message != m;
        CallKeepsOtherKey(w.shop, w.confirms[c].payload, w.confirms[c].message, m, kind);
      }
    case Other(op) => OtherKeyStaysUnused(w.shop, op, kind, Protocol.ProposalKey(m));
    case _ =>
  }

  lemma RunNext(events: seq<Event>, ev: Event)
    ensures Run(events + [ev]) == Step(Run(events), ev)
  {
    assert (events + [ev])[..|events|] == events;
  }

  lemma {:induction false} CleanForGood(events: seq<Event>, more: seq<Event>, m: nat)
    requires Clean(Run(events), m) && KeyIsOurs(more, m)
    ensures Clean(Run(events + more), m)
  {
    hide Run, Step, Clean;
    if more == [] {
      assert events + more == events;
    } else {
      var front, last := more[..|more| - 1], more[|more| - 1];
      CleanForGood(events, front, m);
      assert events + more == (events + front) + [last];
      RunNext(events + front, last);
      CleanStep(Run(events + front), last, m);
    }
  }

  /**
   * When the owner rejects an open proposal that has no record, and no confirm has read it and is
   * still to call the service, no record of it ever comes to exist, whatever the shop and the other
   * proposals do afterwards, as long as nobody else sends its key.
   */
  lemma RejectedStaysClean(events: seq<Event>, more: seq<Event>, m: nat)
    requires Open(Run(events), m, false) && !HasRecord(Run(events), m) && !AboutToServe(Run(events), m)
    requires KeyIsOurs(more, m)
    ensures !HasRecord(Run(events + [Reject(m, false)] + more), m)
  {
    hide Run, HasRecord, KeyUnused;
    var w := Run(events);
    NoRecordMeans(w, m);
    RunNext(events, Reject(m, false));
    assert Clean(Run(events + [Reject(m, false)]), m);
    CleanForGood(events + [Reject(m, false)], more, m);
    NoRecordMeans(Run(events + [Reject(m, false)] + more), m);
  }

  lemma CallWrites(st: State, payload: Payload, m: nat, kind: Protocol.Kind)
    requires Fits(kind, payload) && KeyUnused(st, kind, Protocol.ProposalKey(m))
    ensures
      KeyUnused(Call(st, RequestOf(payload, m)).0, kind, Protocol.ProposalKey(m))
      <==> Call(st, RequestOf(payload, m)).1.None?
  {
    hide Call, RequestOf;
    CallIsSeen(st, payload, m);
    var (st', row) := Call(st, RequestOf(payload, m));
    if row.Some? {
      var i := row.value;
      if kind.Sales? {
        assert SaleRows(st'.sales)[i].key == Some(Protocol.ProposalKey(m));
      } else {
        assert EntryRows(st'.book.entries)[i].key == Some(Protocol.ProposalKey(m));
      }
    }
  }

  /**
   * After the rejection of a proposal without a record, the service call of a confirm leaves one
   * exactly when the confirm had read this message before and the shop accepts its request.
   */
  lemma ServedAfterRejectionIff(events: seq<Event>, c: nat, m: nat)
    requires Open(Run(events), m, false) && !HasRecord(Run(events), m) && c < |Run(events).confirms|
    ensures
      var w := Run(events);
      var call := w.confirms[c];
      HasRecord(Run(events + [Reject(m, false)] + [Serve(c)]), m)
      <==> (call.message == m && call.progress == Protocol.HasRead
            && Call(w.shop, RequestOf(call.payload, m)).1.Some?)
  {
    hide Run, HasRecord, KeyUnused, Call, ShopInvariant.Inv;
    var w := Run(events);
    var call := w.confirms[c];
    EveryRunOk(events);
    NoRecordMeans(w, m);
    RunNext(events, Reject(m, false));
    RunNext(events + [Reject(m, false)], Serve(c));
    NoRecordMeans(Run(events + [Reject(m, false)] + [Serve(c)]), m);
    if call.progress == Protocol.HasRead {
      if call.message == m {
        CallWrites(w.shop, call.payload, m, w.messages[m].kind);
      } else {
        CallKeepsOtherKey(w.shop, call.payload, call.message, m, w.messages[m].kind);
      }
    }
  }
}
