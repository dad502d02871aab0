/**
 * Copilot proposals (backend/app/services/ai_actions.py). A confirm reads the message, has the
 * record written by the normal service in a transaction of its own, and only then marks the
 * message applied in another. Every one of those steps is an event here, so confirms of one
 * message may interleave, be retried, or be cut off between any two of them. Of the shop only the
 * two keyed tables are kept, and whether a service accepts a new request is left open;
 * `CopilotShop` shows that the protocol over the whole shop is an instance.
 */
module Copilot {
  import opened Prelude

  /** The table a proposal writes to. */
  datatype Kind = Sales | Entries

  datatype Status = Pending | Applied | Rejected

  datatype Message = Message(kind: Kind, status: Status, entity: Option<nat>)

  datatype Progress = HasRead | Served(entity: nat) | Ended

  /** One confirm request, with the digest of the payload the owner confirmed. */
  datatype Confirm = Confirm(message: nat, payload: nat, progress: Progress)

  /** A committed row: its idempotency key, if it has one, and its digest. */
  datatype Row = Row(key: Option<Key>, payload: nat)

  datatype World = World(sales: seq<Row>, entries: seq<Row>, messages: seq<Message>, confirms: seq<Confirm>)

  const EMPTY := World([], [], [], [])

  const PROPOSALS: nat := 0

  /** The key of a confirmed proposal: derived from the message in the proposals namespace. */
  function ProposalKey(message: nat): Key { Derived(PROPOSALS, message) }

  function Table(w: World, kind: Kind): seq<Row> { if kind == Sales then w.sales else w.entries }

  function WithTable(w: World, kind: Kind, rows: seq<Row>): World {
    if kind == Sales then w.(sales := rows) else w.(entries := rows)
  }

  function Find(rows: seq<Row>, key: Key): (r: Option<nat>)
    ensures r.Some? ==> r.value < |rows| && rows[r.value].key == Some(key)
    ensures r.None? ==> forall i :: 0 <= i < |rows| ==> rows[i].key != Some(key)
  {
    if rows == [] then None
    else if rows[|rows| - 1].key == Some(key) then Some(|rows| - 1)
    else Find(rows[..|rows| - 1], key)
  }

  predicate KeysUnique(rows: seq<Row>) {
    forall i, j :: 0 <= i < j < |rows| && rows[i].key.Some? ==> rows[i].key != rows[j].key
  }

  datatype Event =
    | Propose(kind: Kind)
    | Begin(message: nat, payload: nat, expired: bool)
    | Serve(confirm: nat, refused: bool)
    | Mark(confirm: nat, expired: bool)
    | CutOff(confirm: nat)
    | Reject(message: nat, expired: bool)
    | Foreign(newSales: seq<Row>, newEntries: seq<Row>)   // whatever else is recorded, with any keys

  /** `_pending_message`: the proposal is still open and less than a day old. */
  predicate Open(w: World, message: nat, expired: bool) {
    message < |w.messages| && w.messages[message].status == Pending && !expired
  }

  function WithProgress(w: World, c: nat, progress: Progress): World
    requires c < |w.confirms|
  {
    w.(confirms := w.confirms[c := w.confirms[c].(progress := progress)])
  }

  /** The service call of a confirm: refused, replayed, conflicting, or a new row; a refusal leaves it pending. */
  function ServeConfirm(w: World, c: nat, refused: bool): World
    requires c < |w.confirms|
  {
    var call := w.confirms[c];
    if call.progress != HasRead || call.message >= |w.messages| then w
    else if refused then WithProgress(w, c, Ended)
    else
      var kind := w.messages[call.message].kind;
      var table := Table(w, kind);
      match Find(table, ProposalKey(call.message))
      case Some(i) => WithProgress(w, c, if table[i].payload == call.payload then Served(i) else Ended)
      case None =>
        var written := Row(Some(ProposalKey(call.message)), call.payload);
        WithProgress(WithTable(w, kind, table + [written]), c, Served(|table|))
  }

  function MarkApplied(w: World, c: nat, expired: bool): World
    requires c < |w.confirms|
  {
    var call := w.confirms[c];
    if !call.progress.Served? then w
    else if !Open(w, call.message, expired) then WithProgress(w, c, Ended)
    else
      var applied := w.messages[call.message].(status := Applied, entity := Some(call.progress.entity));
      WithProgress(w.(messages := w.messages[call.message := applied]), c, Ended)
  }

  /** The unique constraints admit new rows only under new keys. */
  function AddForeign(w: World, newSales: seq<Row>, newEntries: seq<Row>): World {
    if KeysUnique(w.sales + newSales) && KeysUnique(w.entries + newEntries)
    then w.(sales := w.sales + newSales, entries := w.entries + newEntries) else w
  }

  function Step(w: World, ev: Event): World {
    match ev
    case Propose(kind) => w.(messages := w.messages + [Message(kind, Pending, None)])
    case Begin(m, payload, expired) =>
      if Open(w, m, expired) then w.(confirms := w.confirms + [Confirm(m, payload, HasRead)]) else w
    case Serve(c, refused) => if c < |w.confirms| then ServeConfirm(w, c, refused) else w
    case Mark(c, expired) => if c < |w.confirms| then MarkApplied(w, c, expired) else w
    case CutOff(c) => if c < |w.confirms| then WithProgress(w, c, Ended) else w
    case Reject(m, expired) =>
      if Open(w, m, expired) then w.(messages := w.messages[m := w.messages[m].(status := Rejected)]) else w
    case Foreign(newSales, newEntries) => AddForeign(w, newSales, newEntries)
  }

  function Run(w: World, events: seq<Event>): World {
    if events == [] then w else Step(Run(w, events[..|events| - 1]), events[|events| - 1])
  }

  // --- what each step does ------------------------------------------------------------------------

  /** A confirm starts exactly for a pending proposal that has not expired. */
  lemma BeginOutcome(w: World, m: nat, payload: nat, expired: bool)
    ensures
      Step(w, Begin(m, payload, expired))
      == if m < |w.messages| && w.messages[m].status == Pending && !expired
         then w.(confirms := w.confirms + [Confirm(m, payload, HasRead)]) else w
  {
  }

  /** A served confirm ends; its proposal is APPLIED with the served row if it is still pending and not expired. */
  lemma MarkOutcome(w: World, c: nat, expired: bool)
    requires c < |w.confirms| && w.confirms[c].progress.Served?
    ensures
      var w' := Step(w, Mark(c, expired));
      var m := w.confirms[c].message;
      && w'.sales == w.sales && w'.entries == w.entries
      && w'.confirms == w.confirms[c := Confirm(m, w.confirms[c].payload, Ended)]
      && w'.messages
         == if m < |w.messages| && w.messages[m].status == Pending && !expired
            then w.messages[m := Message(w.messages[m].kind, Applied, Some(w.confirms[c].progress.entity))]
            else w.messages
  {
  }

  lemma RejectOutcome(w: World, m: nat, expired: bool)
    ensures
      Step(w, Reject(m, expired))
      == if m < |w.messages| && w.messages[m].status == Pending && !expired
         then w.(messages := w.messages[m := Message(w.messages[m].kind, Rejected, w.messages[m].entity)]) else w
  {
  }

  // --- what every run keeps -----------------------------------------------------------------------

  /** Row `i` is the record of message `m`: it carries the key derived from it. */
  predicate RecordOf(w: World, m: nat, i: nat) {
    && m < |w.messages|
    && var table := Table(w, w.messages[m].kind);
       i < |table| && table[i].key == Some(ProposalKey(m))
  }

  predicate MessageOk(w: World, m: nat)
    requires m < |w.messages|
  {
    && (w.messages[m].status == Applied <==> w.messages[m].entity.Some?)
    && (w.messages[m].entity.Some? ==> RecordOf(w, m, w.messages[m].entity.value))
  }

  predicate ConfirmOk(w: World, c: nat)
    requires c < |w.confirms|
  {
    && w.confirms[c].message < |w.messages|
    && (w.confirms[c].progress.Served? ==> RecordOf(w, w.confirms[c].message, w.confirms[c].progress.entity))
  }

  ghost predicate Inv(w: World) {
    && KeysUnique(w.sales) && KeysUnique(w.entries)
    && (forall m :: 0 <= m < |w.messages| ==> MessageOk(w, m))
    && (forall c :: 0 <= c < |w.confirms| ==> ConfirmOk(w, c))
  }

  /** What one step leaves alone: rows stay, kinds stay, and a settled message stays as it is. */
  ghost predicate Continues(w: World, w': World) {
    && w.sales <= w'.sales && w.entries <= w'.entries
    && |w.messages| <= |w'.messages| && |w.confirms| <= |w'.confirms|
    && (forall m :: 0 <= m < |w.messages| ==>
          w'.messages[m].kind == w.messages[m].kind
            && (w.messages[m].status != Pending ==> w'.messages[m] == w.messages[m]))
  }

  lemma MoreRowsKeepInv(w: World, sales: seq<Row>, entries: seq<Row>)
    requires Inv(w) && w.sales <= sales && w.entries <= entries && KeysUnique(sales) && KeysUnique(entries)
    ensures Inv(w.(sales := sales, entries := entries)) && Continues(w, w.(sales := sales, entries := entries))
  {
    var w' := w.(sales := sales, entries := entries);
    forall m | 0 <= m < |w'.messages| ensures MessageOk(w', m) { assert MessageOk(w, m); }
    forall c | 0 <= c < |w'.confirms| ensures ConfirmOk(w', c) { assert ConfirmOk(w, c); }
  }

  lemma ProgressKeepsInv(w: World, c: nat, progress: Progress)
    requires Inv(w) && c < |w.confirms|
    requires progress.Served? ==> RecordOf(w, w.confirms[c].message, progress.entity)
    ensures Inv(WithProgress(w, c, progress)) && Continues(w, WithProgress(w, c, progress))
  {
    var w' := WithProgress(w, c, progress);
    forall m | 0 <= m < |w'.messages| ensures MessageOk(w', m) { assert MessageOk(w, m); }
    forall d | 0 <= d < |w'.confirms| ensures ConfirmOk(w', d) { assert ConfirmOk(w, d); }
  }

  lemma SettleKeepsInv(w: World, m: nat, message: Message)
    requires Inv(w) && m < |w.messages| && w.messages[m].status == Pending && message.kind == w.messages[m].kind
    requires message.status == Applied <==> message.entity.Some?
    requires message.entity.Some? ==> RecordOf(w, m, message.entity.value)
    ensures Inv(w.(messages := w.messages[m := message])) && Continues(w, w.(messages := w.messages[m := message]))
  {
    var w' := w.(messages := w.messages[m := message]);
    forall k | 0 <= k < |w'.messages| ensures MessageOk(w', k) { assert MessageOk(w, k); }
    forall c | 0 <= c < |w'.confirms| ensures ConfirmOk(w', c) { assert ConfirmOk(w, c); }
  }

  lemma ServeKeepsInv(w: World, c: nat, refused: bool)
    requires Inv(w) && c < |w.confirms|
    ensures Inv(ServeConfirm(w, c, refused)) && Continues(w, ServeConfirm(w, c, refused))
  {
    hide Inv, Continues;
    var call := w.confirms[c];
    if call.progress == HasRead && call.message < |w.messages| {
      if refused {
        ProgressKeepsInv(w, c, Ended);
      } else {
        var kind := w.messages[call.message].kind;
        var table := Table(w, kind);
        var found := Find(table, ProposalKey(call.message));
        if found.Some? {
          ProgressKeepsInv(w, c, if table[found.value].payload == call.payload then Served(found.value) else Ended);
        } else {
          var grown := WithTable(w, kind, table + [Row(Some(ProposalKey(call.message)), call.payload)]);
          InvKeys(w);
          NewKeyStaysUnique(table, Row(Some(ProposalKey(call.message)), call.payload));
          assert grown == w.(sales := grown.sales, entries := grown.entries);
          MoreRowsKeepInv(w, grown.sales, grown.entries);
          ProgressKeepsInv(grown, c, Served(|table|));
          ContinuesTwice(w, grown, WithProgress(grown, c, Served(|table|)));
        }
      }
    } else {
      NothingChanges(w);
    }
  }

  lemma NothingChanges(w: World)
    ensures Continues(w, w)
  {
  }

  lemma InvKeys(w: World)
    requires Inv(w)
    ensures KeysUnique(w.sales) && KeysUnique(w.entries)
  {
  }

  lemma NewKeyStaysUnique(rows: seq<Row>, row: Row)
    requires KeysUnique(rows) && row.key.Some? && Find(rows, row.key.value).None?
    ensures KeysUnique(rows + [row])
  {
  }

  lemma ContinuesTwice(a: World, b: World, c: World)
    requires Continues(a, b) && Continues(b, c)
    ensures Continues(a, c)
  {
  }

  lemma MarkKeepsInv(w: World, c: nat, expired: bool)
    requires Inv(w) && c < |w.confirms|
    ensures Inv(MarkApplied(w, c, expired)) && Continues(w, MarkApplied(w, c, expired))
  {
    var call := w.confirms[c];
    assert ConfirmOk(w, c);
    if call.progress.Served? {
      if Open(w, call.message, expired) {
        var message := w.messages[call.message].(status := Applied, entity := Some(call.progress.entity));
        SettleKeepsInv(w, call.message, message);
        ProgressKeepsInv(w.(messages := w.messages[call.message := message]), c, Ended);
      } else {
        ProgressKeepsInv(w, c, Ended);
      }
    }
  }

  lemma NewMessageKeepsInv(w: World, kind: Kind)
    requires Inv(w)
    ensures var w' := w.(messages := w.messages + [Message(kind, Pending, None)]); Inv(w') && Continues(w, w')
  {
    var w' := w.(messages := w.messages + [Message(kind, Pending, None)]);
    forall m | 0 <= m < |w'.messages| ensures MessageOk(w', m) { if m < |w.messages| { assert MessageOk(w, m); } }
    forall c | 0 <= c < |w'.confirms| ensures ConfirmOk(w', c) { assert ConfirmOk(w, c); }
  }

  lemma NewConfirmKeepsInv(w: World, m: nat, payload: nat)
    requires Inv(w) && m < |w.messages|
    ensures var w' := w.(confirms := w.confirms + [Confirm(m, payload, HasRead)]); Inv(w') && Continues(w, w')
  {
    var w' := w.(confirms := w.confirms + [Confirm(m, payload, HasRead)]);
    forall k | 0 <= k < |w'.messages| ensures MessageOk(w', k) { assert MessageOk(w, k); }
    forall c | 0 <= c < |w'.confirms| ensures ConfirmOk(w', c) { if c < |w.confirms| { assert ConfirmOk(w, c); } }
  }

  lemma StepKeepsInv(w: World, ev: Event)
    requires Inv(w)
    ensures Inv(Step(w, ev)) && Continues(w, Step(w, ev))
  {
    hide ServeConfirm, MarkApplied, KeysUnique;
    match ev
    case Propose(kind) => NewMessageKeepsInv(w, kind);
    case Begin(m, payload, expired) => if Open(w, m, expired) { NewConfirmKeepsInv(w, m, payload); }
    case Serve(c, refused) => if c < |w.confirms| { ServeKeepsInv(w, c, refused); }
    case Mark(c, expired) => if c < |w.confirms| { MarkKeepsInv(w, c, expired); }
    case CutOff(c) => if c < |w.confirms| { ProgressKeepsInv(w, c, Ended); }
    case Reject(m, expired) =>
      if Open(w, m, expired) {
        assert MessageOk(w, m);
        SettleKeepsInv(w, m, w.messages[m].(status := Rejected));
      }
    case Foreign(newSales, newEntries) =>
      if KeysUnique(w.sales + newSales) && KeysUnique(w.entries + newEntries) {
        MoreRowsKeepInv(w, w.sales + newSales, w.entries + newEntries);
      }
  }

  lemma {:induction false} EveryRunKeepsInv(w: World, events: seq<Event>)
    requires Inv(w)
    ensures Inv(Run(w, events)) && Continues(w, Run(w, events))
  {
    hide Inv;
    if events != [] {
      EveryRunKeepsInv(w, events[..|events| - 1]);
      StepKeepsInv(Run(w, events[..|events| - 1]), events[|events| - 1]);
    }
  }

  lemma EmptyInv()
    ensures Inv(EMPTY)
  {
  }

  // --- exactly once -------------------------------------------------------------------------------

  /**
   * However often confirms of a message are retried, interleaved or cut off, the message has at
   * most one record, and an applied message names it.
   */
  lemma {:induction false} OneRecordPerMessage(events: seq<Event>, m: nat, i: nat, j: nat)
    requires RecordOf(Run(EMPTY, events), m, i) && RecordOf(Run(EMPTY, events), m, j)
    ensures i == j
    ensures
      var message := Run(EMPTY, events).messages[m];
      && (message.status == Applied <==> message.entity.Some?)
      && (message.status == Applied ==> message.entity == Some(i))
  {
    hide Run;
    EveryRunKeepsInv(EMPTY, events);
    assert MessageOk(Run(EMPTY, events), m);
  }

  /** Different messages that write to one table never name the same record. */
  lemma {:induction false} RecordsNotShared(events: seq<Event>, m: nat, n: nat)
    requires
      var w := Run(EMPTY, events);
      && m < |w.messages| && n < |w.messages| && m != n && w.messages[m].kind == w.messages[n].kind
      && w.messages[m].status == Applied && w.messages[n].status == Applied
    ensures Run(EMPTY, events).messages[m].entity.Some?
    ensures Run(EMPTY, events).messages[m].entity != Run(EMPTY, events).messages[n].entity
  {
    hide Run;
    EveryRunKeepsInv(EMPTY, events);
    var w := Run(EMPTY, events);
    assert MessageOk(w, m) && MessageOk(w, n);
  }

  /** A settled proposal stays settled, with the same record, whatever happens afterwards. */
  lemma {:induction false} SettledForGood(events: seq<Event>, more: seq<Event>, m: nat)
    requires var w := Run(EMPTY, events); m < |w.messages| && w.messages[m].status != Pending
    ensures
      var w := Run(EMPTY, events);
      var w' := Run(w, more);
      m < |w'.messages| && w'.messages[m] == w.messages[m]
  {
    hide Run;
    EveryRunKeepsInv(EMPTY, events);
    EveryRunKeepsInv(Run(EMPTY, events), more);
  }

  lemma FindUnique(rows: seq<Row>, i: nat)
    requires KeysUnique(rows) && i < |rows| && rows[i].key.Some?
    ensures Find(rows, rows[i].key.value) == Some(i)
  {
  }

  /**
   * A confirm cut off after its record was committed can be retried: with the same payload it is
   * served the record that exists and writes nothing, and with another payload it is refused.
   */
  lemma {:induction false} RetryFindsRecord(events: seq<Event>, c: nat, i: nat)
    requires
      var w := Run(EMPTY, events);
      c < |w.confirms| && w.confirms[c].progress == HasRead && RecordOf(w, w.confirms[c].message, i)
    ensures
      var w := Run(EMPTY, events);
      var row := Table(w, w.messages[w.confirms[c].message].kind)[i];
      ServeConfirm(w, c, false) == WithProgress(w, c, if row.payload == w.confirms[c].payload then Served(i) else Ended)
  {
    hide Run;
    EveryRunKeepsInv(EMPTY, events);
    var w := Run(EMPTY, events);
    FindUnique(Table(w, w.messages[w.confirms[c].message].kind), i);
  }

  // --- rejected, and recorded all the same ----------------------------------------------------------

  ghost predicate HasRecord(w: World, m: nat) { exists i: nat :: RecordOf(w, m, i) }

  /** A confirm of the message has read it and not yet called the service. */
  predicate AboutToServe(w: World, m: nat) {
    exists c :: 0 <= c < |w.confirms| && w.confirms[c].message == m && w.confirms[c].progress == HasRead
  }

  predicate Carries(rows: seq<Row>, key: Key) { exists i :: 0 <= i < |rows| && rows[i].key == Some(key) }

  /** Nobody else sends the message's key. */
  predicate KeyIsOurs(events: seq<Event>, m: nat) {
    forall k :: 0 <= k < |events| && events[k].Foreign? ==>
      !Carries(events[k].newSales, ProposalKey(m)) && !Carries(events[k].newEntries, ProposalKey(m))
  }

  /** The message is rejected, has no record, and no confirm is on its way to one. */
  ghost predicate Clean(w: World, m: nat) {
    m < |w.messages| && w.messages[m].status == Rejected && !HasRecord(w, m) && !AboutToServe(w, m)
  }

  predicate NoKey(rows: seq<Row>, key: Key) { forall i :: 0 <= i < |rows| ==> rows[i].key != Some(key) }

  lemma CleanMeans(w: World, m: nat)
    requires m < |w.messages|
    ensures !HasRecord(w, m) <==> NoKey(Table(w, w.messages[m].kind), ProposalKey(m))
  {
    var table := Table(w, w.messages[m].kind);
    if !NoKey(table, ProposalKey(m)) {
      var i :| 0 <= i < |table| && table[i].key == Some(ProposalKey(m));
      assert RecordOf(w, m, i);
    }
  }

  lemma CleanStep(w: World, ev: Event, m: nat)
    requires Inv(w) && Clean(w, m) && KeyIsOurs([ev], m)
    ensures Clean(Step(w, ev), m)
  {
    hide HasRecord, Inv;
    StepKeepsInv(w, ev);
    var w' := Step(w, ev);
    CleanMeans(w, m);
    CleanMeans(w', m);
    assert ev == [ev][0];
  }

  lemma {:induction false} CleanForGood(w: World, events: seq<Event>, m: nat)
    requires Inv(w) && Clean(w, m) && KeyIsOurs(events, m)
    ensures Clean(Run(w, events), m)
  {
    hide Inv, Step, Clean;
    if events != [] {
      EveryRunKeepsInv(w, events[..|events| - 1]);
      CleanForGood(w, events[..|events| - 1], m);
      CleanStep(Run(w, events[..|events| - 1]), events[|events| - 1], m);
    }
  }

  ghost predicate NeverRecorded(w: World, m: nat) {
    forall events :: KeyIsOurs(events, m) ==> !HasRecord(Run(w, events), m)
  }

  lemma RunOne(w: World, ev: Event)
    ensures Run(w, [ev]) == Step(w, ev) && Run(w, []) == w
  {
    assert [ev][..0] == [];
  }

  lemma ServedHasRecord(w: World, m: nat)
    requires Inv(w) && AboutToServe(w, m)
    ensures exists ev :: KeyIsOurs([ev], m) && HasRecord(Step(w, ev), m)
  {
    var c :| 0 <= c < |w.confirms| && w.confirms[c].message == m && w.confirms[c].progress == HasRead;
    assert ConfirmOk(w, c);
    var w' := Step(w, Serve(c, false));
    var table, table' := Table(w, w.messages[m].kind), Table(w', w.messages[m].kind);
    var found := Find(table, ProposalKey(m));
    var i := if found.Some? then found.value else |table|;
    assert table'[i].key == Some(ProposalKey(m));
    assert RecordOf(w', m, i);
    assert KeyIsOurs([Serve(c, false)], m);
  }

  /**
   * When the owner rejects an open proposal of any reachable state: no record of it ever comes to
   * exist, unless somebody else sends its key, exactly when it has none at that moment and no
   * confirm has read it and is still to call the service.
   */
  lemma RejectedStaysCleanIff(events: seq<Event>, m: nat)
    requires Open(Run(EMPTY, events), m, false)
    ensures
      var w := Run(EMPTY, events);
      NeverRecorded(Step(w, Reject(m, false)), m) <==> !HasRecord(w, m) && !AboutToServe(w, m)
  {
    hide Run, Inv, HasRecord;
    EmptyInv();
    EveryRunKeepsInv(EMPTY, events);
    var w := Run(EMPTY, events);
    var w' := Step(w, Reject(m, false));
    StepKeepsInv(w, Reject(m, false));
    CleanMeans(w, m);
    CleanMeans(w', m);
    assert AboutToServe(w', m) <==> AboutToServe(w, m);
    if !HasRecord(w, m) && !AboutToServe(w, m) {
      forall more | KeyIsOurs(more, m) ensures !HasRecord(Run(w', more), m) { CleanForGood(w', more, m); }
    } else if HasRecord(w, m) {
      RunOne(w', Propose(Sales));
      assert KeyIsOurs([], m);
      assert !NeverRecorded(w', m);
    } else {
      ServedHasRecord(w', m);
      var ev :| KeyIsOurs([ev], m) && HasRecord(Step(w', ev), m);
      RunOne(w', ev);
      assert !NeverRecorded(w', m);
    }
  }

  /** It happens: here the owner rejects between the service's commit and the mark. */
  lemma RejectedWithRecord()
    ensures
      var w := Run(EMPTY, [Propose(Sales), Begin(0, 7, false), Serve(0, false), Reject(0, false), Mark(0, false)]);
      && |w.messages| == 1 && w.messages[0].status == Rejected && RecordOf(w, 0, 0)
  {
    hide Run;
    var e1 := [] + [Propose(Sales)];
    var e2 := e1 + [Begin(0, 7, false)];
    var e3 := e2 + [Serve(0, false)];
    var e4 := e3 + [Reject(0, false)];
    var e5 := e4 + [Mark(0, false)];
    var record := Row(Some(ProposalKey(0)), 7);
    RunOne(EMPTY, Propose(Sales));
    RunSnoc(EMPTY, [], Propose(Sales));
    assert Run(EMPTY, e1) == World([], [], [Message(Sales, Pending, None)], []);
    RunSnoc(EMPTY, e1, Begin(0, 7, false));
    assert Run(EMPTY, e2) == World([], [], [Message(Sales, Pending, None)], [Confirm(0, 7, HasRead)]);
    RunSnoc(EMPTY, e2, Serve(0, false));
    assert Run(EMPTY, e3) == World([record], [], [Message(Sales, Pending, None)], [Confirm(0, 7, Served(0))]);
    RunSnoc(EMPTY, e3, Reject(0, false));
    assert Run(EMPTY, e4) == World([record], [], [Message(Sales, Rejected, None)], [Confirm(0, 7, Served(0))]);
    RunSnoc(EMPTY, e4, Mark(0, false));
    assert e5 == [Propose(Sales), Begin(0, 7, false), Serve(0, false), Reject(0, false), Mark(0, false)];
  }

  lemma RunSnoc(w: World, events: seq<Event>, ev: Event)
    ensures Run(w, events + [ev]) == Step(Run(w, events), ev)
  {
    assert (events + [ev])[..|events|] == events;
  }
}
