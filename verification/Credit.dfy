/**
 * The customer credit ledger (backend/app/services/credit.py): append-only signed entries
 * and the cached balance on each customer. Positive balance: the customer owes the shop.
 */
module Credit {
  import opened Prelude

  datatype EntryKind = Charge | Repayment | Reversal | Adjustment

  datatype Received = Cash | Mpesa

  datatype Customer = Customer(active: bool, balance: int, limit: Option<nat>)

  datatype Entry = Entry(
    customer: Id, kind: EntryKind, amount: int, after: int, sale: Option<nat>,
    via: Option<Received>, reference: string, key: Option<Key>, digest: nat)

  datatype Book = Book(customers: map<Id, Customer>, entries: seq<Entry>)

  function AmountOf(c: Id): Entry -> int { (e: Entry) => if e.customer == c then e.amount else 0 }

  /** Σ amount of a customer's entries: what `balance` caches (BR-7). */
  function Owed(entries: seq<Entry>, c: Id): int { Sum(entries, AmountOf(c)) }

  // --- the one write path -------------------------------------------------------------------

  function PostEntry(book: Book, entry: Entry, allowNegative: bool): Result<Book, Fault>
    requires entry.customer in book.customers
  {
    var customer := book.customers[entry.customer];
    var after := customer.balance + entry.amount;
    if entry.amount == 0 then Err(ZeroAmount)
    else if after < 0 && !allowNegative then Err(NegativeBalance)
    else Ok(Book(
      book.customers[entry.customer := customer.(balance := after)],
      book.entries + [entry.(after := after)]))
  }

  /** The entry an earlier request with this key created. */
  function FindKey(entries: seq<Entry>, key: Key): (r: Option<nat>)
    ensures r.Some? ==> r.value < |entries| && entries[r.value].key == Some(key)
    ensures r.None? ==> forall i :: 0 <= i < |entries| ==> entries[i].key != Some(key)
  {
    if entries == [] then None
    else if entries[|entries| - 1].key == Some(key) then Some(|entries| - 1)
    else FindKey(entries[..|entries| - 1], key)
  }

  /** A posted entry's position, and whether this request created it. */
  datatype Posted = Posted(book: Book, entry: nat, created: bool)

  /** Repayments and adjustments: lock, replay check, post (services/credit.py:196-214, :270-286). */
  function Record(book: Book, entry: Entry, allowNegative: bool): Result<Posted, Fault> {
    if entry.customer !in book.customers then Err(NotFound)
    else
      var existing := if entry.key.Some? then FindKey(book.entries, entry.key.value) else None;
      if existing.Some? then
        if book.entries[existing.value].digest != entry.digest then Err(IdempotencyConflict)
        else Ok(Posted(book, existing.value, false))
      else
        match PostEntry(book, entry, allowNegative)
        case Err(e) => Err(e)
        case Ok(posted) => Ok(Posted(posted, |book.entries|, true))
  }

  function RepaymentEntry(c: Id, amount: nat, via: Received, reference: string, key: Option<Key>, digest: nat): Entry {
    Entry(c, Repayment, -(amount as int), 0, None, Some(via), reference, key, digest)
  }

  function AdjustmentEntry(c: Id, signed: int, key: Option<Key>, digest: nat): Entry {
    Entry(c, Adjustment, signed, 0, None, None, "", key, digest)
  }

  // --- credit limit (FR-G5) -----------------------------------------------------------------

  datatype Role = Owner | Staff

  predicate LimitExceeded(customer: Customer, charge: nat) {
    customer.limit.Some? && customer.balance + charge > customer.limit.value
  }

  predicate ChargeAllowed(customer: Customer, charge: nat, role: Role, ownerOverride: bool) {
    !(LimitExceeded(customer, charge) && !(role == Owner && ownerOverride))
  }

  // --- what the ledger keeps ----------------------------------------------------------------

  predicate BalanceIsLedger(book: Book) {
    forall c :: c in book.customers ==> book.customers[c].balance == Owed(book.entries, c)
  }

  /** `balance_after` is the prefix sum in posting order. */
  predicate RunningBalances(entries: seq<Entry>) {
    forall i :: 0 <= i < |entries| ==> RunningBalanceAt(entries, i)
  }

  predicate RunningBalanceAt(entries: seq<Entry>, i: nat)
    requires i < |entries|
  {
    entries[i].after == Owed(entries[..i + 1], entries[i].customer)
  }

  /** Charges and reversals name a sale, repayments and adjustments do not; signs follow the kind. */
  predicate WellSigned(e: Entry) {
    match e.kind
    case Charge => e.amount > 0 && e.sale.Some?
    case Repayment => e.amount < 0 && e.sale.None?
    case Reversal => e.amount < 0 && e.sale.Some?
    case Adjustment => e.amount != 0 && e.sale.None?
  }

  predicate EntriesWellFormed(book: Book) {
    forall i :: 0 <= i < |book.entries| ==> book.entries[i].customer in book.customers && WellSigned(book.entries[i])
  }

  predicate KeysUnique(entries: seq<Entry>) {
    forall i, j :: 0 <= i < j < |entries| && entries[i].key.Some? ==> entries[i].key != entries[j].key
  }

  ghost predicate CreditInv(book: Book) {
    BalanceIsLedger(book) && RunningBalances(book.entries) && EntriesWellFormed(book) && KeysUnique(book.entries)
  }

  lemma PostEntryKeepsInv(book: Book, entry: Entry, allowNegative: bool)
    requires CreditInv(book) && entry.customer in book.customers && WellSigned(entry)
    requires entry.key.Some? ==> forall i :: 0 <= i < |book.entries| ==> book.entries[i].key != entry.key
    requires PostEntry(book, entry, allowNegative).Ok?
    ensures CreditInv(PostEntry(book, entry, allowNegative).value)
  {
    var book' := PostEntry(book, entry, allowNegative).value;
    var posted := book'.entries[|book.entries|];
    forall c | c in book'.customers ensures book'.customers[c].balance == Owed(book'.entries, c) {
      SumAppend(book.entries, posted, AmountOf(c));
    }
    forall i | 0 <= i < |book'.entries| ensures RunningBalanceAt(book'.entries, i) {
      if i < |book.entries| {
        assert RunningBalanceAt(book.entries, i);
        assert book'.entries[..i + 1] == book.entries[..i + 1];
      } else {
        assert book'.entries[..i + 1] == book'.entries;
      }
    }
  }

  lemma RecordKeepsInv(book: Book, entry: Entry, allowNegative: bool)
    requires CreditInv(book) && (entry.amount != 0 ==> WellSigned(entry))
    requires Record(book, entry, allowNegative).Ok?
    ensures CreditInv(Record(book, entry, allowNegative).value.book)
  {
    if Record(book, entry, allowNegative).value.created {
      PostEntryKeepsInv(book, entry, allowNegative);
    }
  }

  /** The key of the request is new to the ledger. */
  predicate KeyIsNew(book: Book, entry: Entry) { entry.key.Some? ==> FindKey(book.entries, entry.key.value).None? }

  /**
   * A request with a new key is posted exactly when its customer exists, it moves the balance, and it
   * leaves it at zero or more unless overpayment is allowed. It moves that balance by its amount and
   * no other, and a request whose key is taken moves nothing.
   */
  lemma RecordOutcome(book: Book, entry: Entry, allowNegative: bool)
    ensures
      var r := Record(book, entry, allowNegative);
      && (KeyIsNew(book, entry) ==>
            (r.Ok? <==>
               && entry.customer in book.customers && entry.amount != 0
               && (allowNegative || book.customers[entry.customer].balance + entry.amount >= 0)))
      && (!KeyIsNew(book, entry) && r.Ok? ==> r.value.book == book && !r.value.created)
      && (r.Ok? ==> r.value.created == KeyIsNew(book, entry) && r.value.book.customers.Keys == book.customers.Keys)
      && (r.Ok? ==> forall c :: c in book.customers ==>
            r.value.book.customers[c].balance
            == book.customers[c].balance + (if r.value.created && c == entry.customer then entry.amount else 0))
  {
  }

  /** Retrying a keyed request answers with the first entry and changes nothing. */
  lemma RecordTwice(book: Book, entry: Entry, allowNegative: bool)
    requires KeysUnique(book.entries) && entry.key.Some? && Record(book, entry, allowNegative).Ok?
    ensures
      var first := Record(book, entry, allowNegative).value;
      Record(first.book, entry, allowNegative) == Ok(Posted(first.book, first.entry, false))
  {
  }

  // --- recompute ----------------------------------------------------------------------------

  datatype Discrepancy = Discrepancy(customer: Id, cached: int, ledger: int, repaired: bool)

  function Discrepant(book: Book): set<Id> {
    set c | c in book.customers && book.customers[c].balance != Owed(book.entries, c)
  }

  function Repaired(book: Book): Book {
    book.(customers := map c | c in book.customers :: book.customers[c].(balance := Owed(book.entries, c)))
  }

  /** From any corrupted balances an applied recompute restores them all, once and for all. */
  lemma RepairRestores(book: Book)
    ensures BalanceIsLedger(Repaired(book)) && Discrepant(Repaired(book)) == {}
    ensures Repaired(book).entries == book.entries && Repaired(book).customers.Keys == book.customers.Keys
    ensures Repaired(Repaired(book)) == Repaired(book)
    ensures BalanceIsLedger(book) <==> Repaired(book) == book
  {
    assert Repaired(Repaired(book)).customers == Repaired(book).customers;
    if BalanceIsLedger(book) {
      assert Repaired(book).customers == book.customers;
    } else {
      var c :| c in book.customers && book.customers[c].balance != Owed(book.entries, c);
      assert Repaired(book).customers[c] != book.customers[c];
    }
  }

  /** The balances of the listed customers rewritten from the ledger. */
  function Patched(book: Book, ids: seq<Id>): Book {
    book.(customers := map c | c in book.customers ::
      if c in ids then book.customers[c].(balance := Owed(book.entries, c)) else book.customers[c])
  }

  /** What a recompute reports about the listed customers. */
  function Findings(book: Book, ids: seq<Id>, apply: bool): seq<Discrepancy>
    requires forall c :: c in ids ==> c in book.customers
  {
    if ids == [] then []
    else
      var c := ids[|ids| - 1];
      var cached, ledger := book.customers[c].balance, Owed(book.entries, c);
      Findings(book, ids[..|ids| - 1], apply)
        + (if cached != ledger then [Discrepancy(c, cached, ledger, apply)] else [])
  }

  predicate Describes(d: Discrepancy, book: Book, apply: bool) {
    && d.customer in book.customers && d.cached == book.customers[d.customer].balance
      && d.ledger == Owed(book.entries, d.customer)
    && d.cached != d.ledger && d.repaired == apply
  }

  /** A report names exactly the listed customers whose cached figure is wrong, with both figures. */
  lemma {:induction false} FindingsExact(book: Book, ids: seq<Id>, apply: bool, d: Discrepancy)
    requires forall c :: c in ids ==> c in book.customers
    ensures d in Findings(book, ids, apply) <==> d.customer in ids && Describes(d, book, apply)
  {
    hide Owed;
    if ids != [] {
      FindingsExact(book, ids[..|ids| - 1], apply, d);
      assert ids == ids[..|ids| - 1] + [ids[|ids| - 1]];
    }
  }

  /** ... in the order they were visited. */
  lemma {:induction false} FindingsInOrder(book: Book, ids: seq<Id>, apply: bool)
    requires Ascending(ids) && forall c :: c in ids ==> c in book.customers
    ensures
      var found := Findings(book, ids, apply);
      forall i, j :: 0 <= i < j < |found| ==> found[i].customer < found[j].customer
  {
    hide Owed;
    if ids != [] {
      var front, c := ids[..|ids| - 1], ids[|ids| - 1];
      FindingsInOrder(book, front, apply);
      var before := Findings(book, front, apply);
      forall i | 0 <= i < |before| ensures before[i].customer < c {
        FindingsExact(book, front, apply, before[i]);
        var k :| 0 <= k < |front| && front[k] == before[i].customer;
        assert ids[k] < ids[|ids| - 1];
      }
    }
  }

  lemma PatchNext(book: Book, ids: seq<Id>, c: Id)
    requires c in book.customers
    ensures
      var before := Patched(book, ids);
      && c in before.customers && before.entries == book.entries
      && (c !in ids ==> before.customers[c] == book.customers[c])
      && Patched(book, ids + [c])
        == before.(customers := before.customers[c := before.customers[c].(balance := Owed(book.entries, c))])
  {
    var before := Patched(book, ids);
    assert Patched(book, ids + [c]).customers
      == before.customers[c := before.customers[c].(balance := Owed(book.entries, c))];
  }

  lemma PatchAll(book: Book, ids: seq<Id>)
    requires forall c :: c in ids <==> c in book.customers
    ensures Patched(book, ids) == Repaired(book)
  {
    assert Patched(book, ids).customers == Repaired(book).customers;
  }
}
