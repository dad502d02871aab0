/** What every interleaving of keyed requests and other operations keeps. */
module ConcurrencyInvariant {
  import opened Prelude
  import opened Shop
  import opened Concurrency
  import opened ConcurrencyFrames
  import ShopInvariant
  import ShopRuns
  import Rows = LockOrder

  /** The schema holds, and equal credit digests mean the same customer: the digest covers it. */
  predicate WellFormed(reqs: seq<Request>) {
    && (forall i :: 0 <= i < |reqs| && reqs[i].SaleOf? ==> SchemaOk(reqs[i].sale))
    && (forall i, j ::
          (0 <= i < |reqs| && 0 <= j < |reqs| && !reqs[i].SaleOf? && !reqs[j].SaleOf?
            && DigestOf(reqs[i]) == DigestOf(reqs[j]))
          ==> Debtor(reqs[i]) == Debtor(reqs[j]))
  }

  predicate LocksExclusive(reqs: seq<Request>, pc: seq<Pc>)
    requires |pc| == |reqs|
  {
    forall a, b :: 0 <= a < |reqs| && 0 <= b < |reqs| && a != b ==> Held(reqs[a], pc[a]) !! Held(reqs[b], pc[b])
  }

  /** The key is taken, if at all, by a request with another payload. */
  predicate TakenByOther(st: State, req: Request) {
    Lookup(st, req).Some? ==> DigestAt(st, req, Lookup(st, req).value) != DigestOf(req)
  }

  /** The date of a sale was accepted, and the rows locked so far exist. */
  predicate LocksHold(req: Request, st: State, n: nat)
    requires n <= |Locks(req)|
  {
    && (req.SaleOf? ==> ResolveSoldAt(req.sale).Ok?)
    && forall i :: 0 <= i < n ==> RowExists(st, Locks(req)[i])
  }

  /** What one request's position promises about the shop. */
  ghost predicate PositionOk(req: Request, st: State, pc: Pc) {
    match pc
    case Locking(n) => n <= |Locks(req)| && LocksHold(req, st, n)
    case Drafted(draft) => DraftHolds(st, req, draft) && (!req.SaleOf? ==> TakenByOther(st, req))
    case Inserted(draft) => DraftHolds(st, req, draft) && Lookup(st, req).None?
    case Reread => req.SaleOf? && Lookup(st, req).Some?
    case Done(Recorded(i)) =>
      InTable(st, req, i) && KeyAt(st, req, i) == KeyOf(req) && DigestAt(st, req, i) == DigestOf(req)
    case Done(Replayed(i)) => Lookup(st, req) == Some(i) && DigestAt(st, req, i) == DigestOf(req)
    case Done(Conflict) => Lookup(st, req).Some? && TakenByOther(st, req)
    case _ => true
  }

  ghost predicate PositionsOk(reqs: seq<Request>, w: World)
    requires |w.pc| == |reqs|
  {
    forall r :: 0 <= r < |reqs| ==> PositionOk(reqs[r], w.shop, w.pc[r])
  }

  predicate OneInsert(reqs: seq<Request>, pc: seq<Pc>)
    requires |pc| == |reqs|
  {
    forall a, b ::
      (0 <= a < |reqs| && 0 <= b < |reqs| && pc[a].Inserted? && pc[b].Inserted? && SameKey(reqs[a], reqs[b]))
      ==> a == b
  }

  /** No two requests were told that they wrote the same row. */
  ghost predicate RecordedOnce(reqs: seq<Request>, pc: seq<Pc>)
    requires |pc| == |reqs|
  {
    forall a, b, i ::
      (0 <= a < |reqs| && 0 <= b < |reqs| && reqs[a].SaleOf? == reqs[b].SaleOf?
       && pc[a] == Done(Recorded(i)) && pc[b] == Done(Recorded(i))) ==> a == b
  }

  predicate Wrote(reqs: seq<Request>, pc: seq<Pc>, a: nat, sale: bool, i: nat)
    requires |pc| == |reqs|
  {
    a < |reqs| && reqs[a].SaleOf? == sale && pc[a] == Done(Recorded(i))
  }

  predicate HasAuthor(reqs: seq<Request>, pc: seq<Pc>, sale: bool, i: nat)
    requires |pc| == |reqs|
  {
    exists a :: 0 <= a < |reqs| && Wrote(reqs, pc, a, sale, i)
  }

  /** Every sale and every keyed entry of the run was written by a request that was told so. */
  ghost predicate Authored(reqs: seq<Request>, base: State, w: World)
    requires |w.pc| == |reqs|
  {
    && (forall i: nat :: |base.sales| <= i < |w.shop.sales| ==> HasAuthor(reqs, w.pc, true, i))
    && (forall i: nat :: |base.book.entries| <= i < |w.shop.book.entries| && w.shop.book.entries[i].key.Some? ==>
          HasAuthor(reqs, w.pc, false, i))
  }

  ghost predicate Inv(reqs: seq<Request>, base: State, w: World)
    requires |w.pc| == |reqs|
  {
    && ShopInvariant.Inv(w.shop) && Extends(base, w.shop)
    && LocksExclusive(reqs, w.pc) && PositionsOk(reqs, w)
    && OneInsert(reqs, w.pc) && RecordedOnce(reqs, w.pc) && Authored(reqs, base, w)
  }

  // --- moving without writing -------------------------------------------------------------------------

  lemma MoveKeepsInv(reqs: seq<Request>, base: State, w: World, r: nat, pc: Pc)
    requires |w.pc| == |reqs| && r < |reqs| && Inv(reqs, base, w)
    requires !w.pc[r].Done? && PositionOk(reqs[r], w.shop, pc) && !(pc.Done? && pc.answer.Recorded?)
    requires forall o :: 0 <= o < |reqs| && o != r ==> Held(reqs[r], pc) !! Held(reqs[o], w.pc[o])
    requires pc.Inserted? ==> !KeyInFlight(reqs, w.pc, r)
    ensures Inv(reqs, base, At(w, r, pc))
  {
    hide ShopInvariant.Inv, PositionOk, Extends, Held, SameKey;
    var pc' := w.pc[r := pc];
    AuthorsStay(reqs, w.pc, r, pc);
    forall i: nat | |base.sales| <= i < |w.shop.sales| ensures HasAuthor(reqs, pc', true, i) {
      assert HasAuthor(reqs, w.pc, true, i);
    }
    forall i: nat | |base.book.entries| <= i < |w.shop.book.entries| && w.shop.book.entries[i].key.Some?
      ensures HasAuthor(reqs, pc', false, i)
    {
      assert HasAuthor(reqs, w.pc, false, i);
    }
    assert pc.Inserted? ==> forall o :: 0 <= o < |reqs| && o != r && w.pc[o].Inserted? ==> !SameKey(reqs[o], reqs[r]);
    assert forall a, b :: SameKey(a, b) ==> SameKey(b, a) by { KeySymmetric(); }
  }

  lemma AuthorsStay(reqs: seq<Request>, pcs: seq<Pc>, r: nat, pc: Pc)
    requires |pcs| == |reqs| && r < |reqs| && !pcs[r].Done?
    ensures forall sale: bool, i: nat :: HasAuthor(reqs, pcs, sale, i) ==> HasAuthor(reqs, pcs[r := pc], sale, i)
  {
    forall sale: bool, i: nat | HasAuthor(reqs, pcs, sale, i) ensures HasAuthor(reqs, pcs[r := pc], sale, i) {
      var a :| 0 <= a < |reqs| && Wrote(reqs, pcs, a, sale, i);
      assert Wrote(reqs, pcs[r := pc], a, sale, i);
    }
  }

  lemma KeySymmetric()
    ensures forall a, b :: SameKey(a, b) ==> SameKey(b, a)
  {
  }

  lemma LockKeepsInv(reqs: seq<Request>, base: State, w: World, r: nat, n: nat)
    requires |w.pc| == |reqs| && r < |reqs| && Inv(reqs, base, w) && w.pc[r] == Locking(n)
    requires n < |Locks(reqs[r])| && IsFree(reqs, w.pc, r, Locks(reqs[r])[n]) && RowExists(w.shop, Locks(reqs[r])[n])
    ensures Inv(reqs, base, At(w, r, Locking(n + 1)))
  {
    hide Locks, ShopInvariant.Inv, Authored, OneInsert, RecordedOnce, Extends;
    assert Held(reqs[r], Locking(n + 1)) == Held(reqs[r], Locking(n)) + {Locks(reqs[r])[n]};
    assert PositionOk(reqs[r], w.shop, w.pc[r]);
    MoveKeepsInv(reqs, base, w, r, Locking(n + 1));
  }

  lemma HeldElsewhere(reqs: seq<Request>, base: State, w: World, r: nat)
    requires |w.pc| == |reqs| && r < |reqs| && Inv(reqs, base, w)
    ensures PositionOk(reqs[r], w.shop, w.pc[r])
    ensures forall o :: 0 <= o < |reqs| && o != r ==> Held(reqs[r], w.pc[r]) !! Held(reqs[o], w.pc[o])
  {
  }

  lemma AllHeld(req: Request, n: nat, draft: Draft)
    requires n >= |Locks(req)|
    ensures Held(req, Drafted(draft)) == Held(req, Locking(n)) == Held(req, Inserted(draft))
  {
    hide Locks;
  }

  // --- steps that change the shop ---------------------------------------------------------------------

  lemma LocksStillHold(req: Request, a: State, b: State, n: nat)
    requires n <= |Locks(req)| && LocksHold(req, a, n)
    requires forall row :: row in Held(req, Locking(n)) ==> SameRow(a, b, row)
    ensures LocksHold(req, b, n)
  {
    hide Locks;
    forall i | 0 <= i < n ensures RowExists(b, Locks(req)[i]) {
      assert Locks(req)[i] in Held(req, Locking(n)) && RowExists(a, Locks(req)[i]);
    }
  }

  /** A request keeps its position when the rows it holds and what it knows of its key stay. */
  lemma PositionStable(req: Request, a: State, b: State, pc: Pc)
    requires PositionOk(req, a, pc) && Extends(a, b) && UniqueKeys(b)
    requires forall row :: row in Held(req, pc) ==> SameRow(a, b, row)
    requires pc.Inserted? ==> Lookup(b, req).None?
    requires pc.Drafted? && !req.SaleOf? ==> TakenByOther(b, req)
    ensures PositionOk(req, b, pc)
  {
    hide Lookup, SameRow, DraftHolds, Locks;
    if pc.Drafted? || pc.Inserted? {
      assert forall row :: row in Locks(req) ==> row in Held(req, pc);
      DraftFrame(a, b, req, pc.draft);
    }
    if pc.Locking? { LocksStillHold(req, a, b, pc.held); }
    if Lookup(a, req).Some? { LookupStable(a, b, req); }
  }

  /** What a commit does to the key another request asks for. */
  lemma KeysAfter(st: State, st': State, req: Request, other: Request)
    requires Extends(st, st') && UniqueKeys(st') && TableSize(st', req) == TableSize(st, req) + 1
    requires KeyAt(st', req, TableSize(st, req)) == KeyOf(req)
    requires DigestAt(st', req, TableSize(st, req)) == DigestOf(req)
    requires req.SaleOf? ==> forall e :: |st.book.entries| <= e < |st'.book.entries| ==> st'.book.entries[e].key.None?
    requires !req.SaleOf? ==> st'.sales == st.sales
    ensures Lookup(st, other).None? && !SameKey(req, other) ==> Lookup(st', other).None?
    ensures TakenByOther(st, other) && !(SameKey(req, other) && DigestOf(req) == DigestOf(other)) ==>
      TakenByOther(st', other)
  {
    hide Lookup;
    if Lookup(st, other).Some? {
      LookupStable(st, st', other);
    } else if !SameKey(req, other) {
      LookupAbsent(st, st', other);
    } else {
      NewKeyFound(st, st', req, other);
    }
  }

  /** Two credit requests with one payload lock one customer, so they are never both past their locks. */
  lemma OnePayloadAtATime(reqs: seq<Request>, pc: seq<Pc>, r: nat, o: nat)
    requires WellFormed(reqs) && |pc| == |reqs| && LocksExclusive(reqs, pc) && r < |reqs| && o < |reqs| && o != r
    requires pc[r].Inserted? && pc[o].Drafted? && !reqs[r].SaleOf? && !reqs[o].SaleOf?
    ensures DigestOf(reqs[r]) != DigestOf(reqs[o])
  {
    assert Locks(reqs[o])[0] == Rows.CustomerRow(Debtor(reqs[o]))
      && Locks(reqs[r])[0] == Rows.CustomerRow(Debtor(reqs[r]));
    assert Rows.CustomerRow(Debtor(reqs[o])) in Held(reqs[o], pc[o]);
    assert Rows.CustomerRow(Debtor(reqs[r])) in Held(reqs[r], pc[r]);
  }

  lemma KeysAfterCommit(reqs: seq<Request>, base: State, w: World, r: nat, o: nat)
    requires WellFormed(reqs) && |w.pc| == |reqs| && r < |reqs| && o < |reqs| && o != r && Inv(reqs, base, w)
    requires w.pc[r].Inserted? && Commit(w.shop, reqs[r], w.pc[r].draft).Ok?
    requires UniqueKeys(Commit(w.shop, reqs[r], w.pc[r].draft).value)
    ensures
      var shop' := Commit(w.shop, reqs[r], w.pc[r].draft).value;
      && (w.pc[o].Inserted? ==> Lookup(shop', reqs[o]).None?)
      && (w.pc[o].Drafted? && !reqs[o].SaleOf? ==> TakenByOther(shop', reqs[o]))
  {
    hide ShopInvariant.Inv, Authored, RecordedOnce, Commit, DraftHolds, Lookup, TakenByOther, Held, WellFormed;
    HeldElsewhere(reqs, base, w, r);
    HeldElsewhere(reqs, base, w, o);
    CommitExtends(w.shop, reqs[r], w.pc[r].draft);
    KeysAfter(w.shop, Commit(w.shop, reqs[r], w.pc[r].draft).value, reqs[r], reqs[o]);
    if w.pc[o].Drafted? && !reqs[o].SaleOf? && !reqs[r].SaleOf? { OnePayloadAtATime(reqs, w.pc, r, o); }
  }

  lemma NewKeyFound(st: State, st': State, req: Request, other: Request)
    requires SameKey(req, other) && UniqueKeys(st') && TableSize(st', req) == TableSize(st, req) + 1
    requires KeyAt(st', req, TableSize(st, req)) == KeyOf(req)
    ensures Lookup(st', other) == Some(TableSize(st, req))
    ensures DigestAt(st', other, TableSize(st, req)) == DigestAt(st', req, TableSize(st, req))
  {
    assert InTable(st', other, TableSize(st, req)) && KeyAt(st', other, TableSize(st, req)) == KeyOf(other);
  }

  lemma LockedIsHeld(req: Request, draft: Draft)
    ensures forall row :: row in Locks(req) ==> row in Held(req, Inserted(draft)) && row in Held(req, Drafted(draft))
  {
  }

  lemma CommitRowsStay(reqs: seq<Request>, base: State, w: World, r: nat, o: nat, row: Rows.Resource)
    requires |w.pc| == |reqs| && r < |reqs| && o < |reqs| && o != r && Inv(reqs, base, w)
    requires w.pc[r].Inserted? && Commit(w.shop, reqs[r], w.pc[r].draft).Ok? && row in Held(reqs[o], w.pc[o])
    ensures SameRow(w.shop, Commit(w.shop, reqs[r], w.pc[r].draft).value, row)
  {
    hide ShopInvariant.Inv, Authored, RecordedOnce, OneInsert, Commit, DraftHolds, SameRow, Locks;
    HeldElsewhere(reqs, base, w, r);
    LockedIsHeld(reqs[r], w.pc[r].draft);
    CommitFrame(w.shop, reqs[r], w.pc[r].draft, row);
  }

  lemma CommitPositions(reqs: seq<Request>, base: State, w: World, r: nat)
    requires WellFormed(reqs) && |w.pc| == |reqs| && r < |reqs| && Inv(reqs, base, w)
    requires w.pc[r].Inserted? && Commit(w.shop, reqs[r], w.pc[r].draft).Ok?
    requires UniqueKeys(Commit(w.shop, reqs[r], w.pc[r].draft).value)
    ensures PositionsOk(reqs, Advance(reqs, w, r))
  {
    hide ShopInvariant.Inv, Authored, RecordedOnce, OneInsert, Commit, DraftHolds, SameRow, Lookup, TakenByOther, Held;
    var shop' := Commit(w.shop, reqs[r], w.pc[r].draft).value;
    var w' := Advance(reqs, w, r);
    HeldElsewhere(reqs, base, w, r);
    CommitExtends(w.shop, reqs[r], w.pc[r].draft);
    forall o | 0 <= o < |reqs| ensures PositionOk(reqs[o], w'.shop, w'.pc[o]) {
      if o != r {
        assert PositionOk(reqs[o], w.shop, w.pc[o]);
        KeysAfterCommit(reqs, base, w, r, o);
        forall row | row in Held(reqs[o], w.pc[o])
          ensures SameRow(w.shop, shop', row) { CommitRowsStay(reqs, base, w, r, o, row); }
        PositionStable(reqs[o], w.shop, shop', w.pc[o]);
      }
    }
  }

  lemma CommitAuthored(reqs: seq<Request>, base: State, w: World, r: nat)
    requires |w.pc| == |reqs| && r < |reqs| && Inv(reqs, base, w)
    requires w.pc[r].Inserted? && Commit(w.shop, reqs[r], w.pc[r].draft).Ok?
    ensures Authored(reqs, base, Advance(reqs, w, r)) && RecordedOnce(reqs, Advance(reqs, w, r).pc)
  {
    hide ShopInvariant.Inv, OneInsert, Commit, DraftHolds, Lookup, Held, LocksExclusive;
    var w' := Advance(reqs, w, r);
    HeldElsewhere(reqs, base, w, r);
    CommitExtends(w.shop, reqs[r], w.pc[r].draft);
    var n := TableSize(w.shop, reqs[r]);
    assert Wrote(reqs, w'.pc, r, reqs[r].SaleOf?, n);
    assert HasAuthor(reqs, w'.pc, reqs[r].SaleOf?, n);
    AuthorsStay(reqs, w.pc, r, w'.pc[r]);
    forall i: nat | |base.sales| <= i < |w'.shop.sales| ensures HasAuthor(reqs, w'.pc, true, i) {
      if i < |w.shop.sales| { assert HasAuthor(reqs, w.pc, true, i); }
    }
    forall i: nat | |base.book.entries| <= i < |w'.shop.book.entries| && w'.shop.book.entries[i].key.Some?
      ensures HasAuthor(reqs, w'.pc, false, i)
    {
      if i < |w.shop.book.entries| { assert HasAuthor(reqs, w.pc, false, i); }
    }
    forall a | 0 <= a < |reqs| && reqs[a].SaleOf? == reqs[r].SaleOf? && a != r ensures w.pc[a] != Done(Recorded(n)) {
      assert PositionOk(reqs[a], w.shop, w.pc[a]);
    }
  }

  lemma CommitKeepsInv(reqs: seq<Request>, base: State, w: World, r: nat)
    requires WellFormed(reqs) && |w.pc| == |reqs| && r < |reqs| && Inv(reqs, base, w)
    requires w.pc[r].Inserted? && Commit(w.shop, reqs[r], w.pc[r].draft).Ok?
    ensures Inv(reqs, base, Advance(reqs, w, r))
  {
    hide ShopInvariant.Inv, Commit, DraftHolds, Lookup, PositionsOk, Authored, RecordedOnce, Shop.Attempt;
    var w' := Advance(reqs, w, r);
    HeldElsewhere(reqs, base, w, r);
    CommitIsOperation(w.shop, reqs[r], w.pc[r].draft);
    ShopRuns.StepKeepsInv(w.shop, OpOf(reqs[r]));
    InvUniqueKeys(w'.shop);
    CommitExtends(w.shop, reqs[r], w.pc[r].draft);
    CommitPositions(reqs, base, w, r);
    CommitAuthored(reqs, base, w, r);
  }

  lemma OtherKeepsInv(reqs: seq<Request>, base: State, w: World, op: Op)
    requires |w.pc| == |reqs| && Inv(reqs, base, w)
    requires Unkeyed(op) && Untouched(reqs, w.pc, Touches(w.shop, op))
    ensures Inv(reqs, base, w.(shop := Shop.Step(w.shop, op)))
  {
    hide ShopInvariant.Inv, Shop.Step, PositionOk, Touches, Held, SameRow, OneInsert, LocksExclusive, RecordedOnce;
    var shop' := Shop.Step(w.shop, op);
    ShopRuns.StepKeepsInv(w.shop, op);
    InvUniqueKeys(shop');
    OtherFrame(w.shop, op, Rows.UniqueKey(0)) by { NoKeyTouched(w.shop, op); }
    forall r | 0 <= r < |reqs| ensures PositionOk(reqs[r], shop', w.pc[r]) {
      OtherPosition(reqs, base, w, op, r);
    }
  }

  lemma NoKeyTouched(st: State, op: Op)
    ensures Rows.UniqueKey(0) !in Touches(st, op)
  {
  }

  lemma OtherPosition(reqs: seq<Request>, base: State, w: World, op: Op, r: nat)
    requires |w.pc| == |reqs| && r < |reqs| && Inv(reqs, base, w)
    requires Unkeyed(op) && Untouched(reqs, w.pc, Touches(w.shop, op))
    requires UniqueKeys(Shop.Step(w.shop, op)) && AddsNoKey(w.shop, Shop.Step(w.shop, op))
    ensures PositionOk(reqs[r], Shop.Step(w.shop, op), w.pc[r])
  {
    hide ShopInvariant.Inv, Shop.Step, Touches, Held, SameRow, OneInsert, LocksExclusive, RecordedOnce, Authored,
      DraftHolds;
    var shop' := Shop.Step(w.shop, op);
    assert PositionOk(reqs[r], w.shop, w.pc[r]);
    forall row | row in Held(reqs[r], w.pc[r]) ensures SameRow(w.shop, shop', row) { OtherFrame(w.shop, op, row); }
    if Lookup(w.shop, reqs[r]).Some? {
      LookupStable(w.shop, shop', reqs[r]);
    } else {
      LookupAbsent(w.shop, shop', reqs[r]);
    }
    PositionStable(reqs[r], w.shop, shop', w.pc[r]);
  }

  // --- every step -------------------------------------------------------------------------------------

  lemma LockNextKeepsInv(reqs: seq<Request>, base: State, w: World, r: nat, n: nat)
    requires |w.pc| == |reqs| && r < |reqs| && Inv(reqs, base, w) && w.pc[r] == Locking(n) && n < |Locks(reqs[r])|
    ensures Inv(reqs, base, LockNext(reqs, w, r, n))
  {
    hide Inv, Locks, IsFree, RowExists, RowRefused;
    var row := Locks(reqs[r])[n];
    if !RowExists(w.shop, row) {
      MoveKeepsInv(reqs, base, w, r, Done(Refused(NotFound)));
    } else if IsFree(reqs, w.pc, r, row) {
      if RowRefused(w.shop, reqs[r], row) {
        MoveKeepsInv(reqs, base, w, r, Done(Refused(CustomerArchived)));
      } else {
        LockKeepsInv(reqs, base, w, r, n);
      }
    }
  }

  lemma ReplayKeepsInv(reqs: seq<Request>, base: State, w: World, r: nat)
    requires |w.pc| == |reqs| && r < |reqs| && Inv(reqs, base, w) && !w.pc[r].Done? && Lookup(w.shop, reqs[r]).Some?
    ensures Inv(reqs, base, At(w, r, Done(Replay(w.shop, reqs[r], Lookup(w.shop, reqs[r]).value))))
    ensures reqs[r].SaleOf? ==> Inv(reqs, base, At(w, r, Reread))
  {
    hide Inv, Lookup;
    MoveKeepsInv(reqs, base, w, r, Done(Replay(w.shop, reqs[r], Lookup(w.shop, reqs[r]).value)));
    if reqs[r].SaleOf? { MoveKeepsInv(reqs, base, w, r, Reread); }
  }

  lemma DraftKeepsInv(reqs: seq<Request>, base: State, w: World, r: nat, n: nat)
    requires |w.pc| == |reqs| && r < |reqs| && Inv(reqs, base, w) && w.pc[r] == Locking(n) && n >= |Locks(reqs[r])|
    requires Lookup(w.shop, reqs[r]).None? && MakeDraft(w.shop, reqs[r]).Ok?
    ensures Inv(reqs, base, At(w, r, Drafted(MakeDraft(w.shop, reqs[r]).value)))
  {
    hide Inv, Lookup, MakeDraft, DraftHolds, Held, Locks;
    var draft := MakeDraft(w.shop, reqs[r]).value;
    HeldElsewhere(reqs, base, w, r);
    AllHeld(reqs[r], n, draft);
    DraftMade(w.shop, reqs[r]);
    MoveKeepsInv(reqs, base, w, r, Drafted(draft));
  }

  lemma InsertKeepsInv(reqs: seq<Request>, base: State, w: World, r: nat)
    requires |w.pc| == |reqs| && r < |reqs| && Inv(reqs, base, w) && w.pc[r].Drafted?
    ensures Inv(reqs, base, Advance(reqs, w, r))
  {
    hide Inv, Lookup, MakeDraft, DraftHolds, Held, Locks, Commit, KeyInFlight;
    HeldElsewhere(reqs, base, w, r);
    var draft := w.pc[r].draft;
    if !KeyInFlight(reqs, w.pc, r) {
      if Lookup(w.shop, reqs[r]).None? {
        SameHeld(reqs[r], draft);
        MoveKeepsInv(reqs, base, w, r, Inserted(draft));
      } else if reqs[r].SaleOf? {
        ReplayKeepsInv(reqs, base, w, r);
      } else {
        NothingHeld(reqs[r], Conflict);
        MoveKeepsInv(reqs, base, w, r, Done(Conflict));
      }
    }
  }

  lemma SameHeld(req: Request, draft: Draft)
    ensures Held(req, Drafted(draft)) == Held(req, Inserted(draft))
  {
  }

  lemma NothingHeld(req: Request, answer: Answer)
    ensures Held(req, Done(answer)) == {}
  {
  }

  lemma AdvanceKeepsInv(reqs: seq<Request>, base: State, w: World, r: nat)
    requires WellFormed(reqs) && |w.pc| == |reqs| && r < |reqs| && Inv(reqs, base, w)
    ensures Inv(reqs, base, Advance(reqs, w, r))
  {
    hide Inv, Lookup, MakeDraft, LockNext, Commit, KeyInFlight, ResolveSoldAt, Locks, WellFormed;
    var req := reqs[r];
    match w.pc[r]
    case Start =>
      if req.SaleOf? && Lookup(w.shop, req).Some? {
        ReplayKeepsInv(reqs, base, w, r);
      } else if req.SaleOf? && ResolveSoldAt(req.sale).Err? {
        MoveKeepsInv(reqs, base, w, r, Done(Refused(ResolveSoldAt(req.sale).error)));
      } else {
        MoveKeepsInv(reqs, base, w, r, Locking(0));
      }
    case Locking(n) =>
      if n < |Locks(req)| {
        LockNextKeepsInv(reqs, base, w, r, n);
      } else if Lookup(w.shop, req).Some? {
        ReplayKeepsInv(reqs, base, w, r);
      } else if MakeDraft(w.shop, req).Ok? {
        DraftKeepsInv(reqs, base, w, r, n);
      } else {
        MoveKeepsInv(reqs, base, w, r, Done(Refused(MakeDraft(w.shop, req).error)));
      }
    case Drafted(_) => InsertKeepsInv(reqs, base, w, r);
    case Inserted(draft) =>
      if Commit(w.shop, req, draft).Ok? {
        CommitKeepsInv(reqs, base, w, r);
      } else {
        MoveKeepsInv(reqs, base, w, r, Done(Refused(Commit(w.shop, req, draft).error)));
      }
    case Reread =>
      HeldElsewhere(reqs, base, w, r);
      ReplayKeepsInv(reqs, base, w, r);
    case Done(_) =>
  }

  lemma StepKeepsInv(reqs: seq<Request>, base: State, w: World, ev: Event)
    requires WellFormed(reqs) && |w.pc| == |reqs| && Inv(reqs, base, w)
    ensures Inv(reqs, base, Concurrency.Step(reqs, w, ev))
  {
    hide Inv, Advance, Untouched, Touches, Shop.Step, WellFormed;
    match ev
    case Go(r) => if r < |reqs| { AdvanceKeepsInv(reqs, base, w, r); }
    case Stop(r) => if r < |reqs| && !w.pc[r].Done? { MoveKeepsInv(reqs, base, w, r, Done(CutOff)); }
    case Other(op) => if Unkeyed(op) && Untouched(reqs, w.pc, Touches(w.shop, op)) { OtherKeepsInv(reqs, base, w, op); }
  }

  lemma BeginInv(reqs: seq<Request>, base: State)
    requires ShopInvariant.Inv(base)
    ensures Inv(reqs, base, Begin(reqs, base))
  {
    hide ShopInvariant.Inv;
  }

  lemma {:induction false} EveryRunKeepsInv(reqs: seq<Request>, base: State, events: seq<Event>)
    requires WellFormed(reqs) && ShopInvariant.Inv(base)
    ensures Inv(reqs, base, Concurrency.Run(reqs, base, events))
  {
    hide Inv, Concurrency.Step, ShopInvariant.Inv, WellFormed;
    if events == [] {
      BeginInv(reqs, base);
    } else {
      EveryRunKeepsInv(reqs, base, events[..|events| - 1]);
      StepKeepsInv(reqs, base, Concurrency.Run(reqs, base, events[..|events| - 1]), events[|events| - 1]);
    }
  }
}
