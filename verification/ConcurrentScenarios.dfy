/** A run of concurrent requests in which a committed duplicate is refused instead of replayed. */
module ConcurrentScenarios {
  import opened Prelude
  import opened SaleRecords
  import opened Shop
  import opened Concurrency
  import opened Scenarios
  import Rows = LockOrder
  import MpesaLinks
  import Inventory
  import Credit

  const SALE := SoapSaleFor(Some(0), Mpesa, Client(0), "")

  /** The same request sent twice. */
  const TWICE := [SaleOf(SoapFor(Some(0), Mpesa, Client(0), "")), SaleOf(SoapFor(Some(0), Mpesa, Client(0), ""))]

  const EVENTS := [
    Other(ADD_SOAP), Other(PutCustomer(0, true, None)),
    Go(1),                                          // the second request finds its key free
    Go(0), Go(0), Go(0), Go(0), Go(0), Go(0),       // the first runs to its commit
    Other(PutCustomer(0, false, None)),             // the customer is archived
    Go(1), Go(1)]                                   // the second takes its locks

  function Books(active: bool, sales: seq<Sale>): State {
    State(Inventory.Stock(map[0 := SOAP], []), Credit.Book(map[0 := Credit.Customer(active, 0, None)], []), sales, [])
  }

  lemma LocksOfBoth()
    ensures Locks(TWICE[0]) == [Rows.ProductRow(0), Rows.CustomerRow(0)] && TWICE[1] == TWICE[0]
  {
    var ids := SoldProducts(TWICE[0].sale);
    assert TWICE[0].sale.lines == [Line(0, 1000, None)] && TWICE[0].sale.lines[0].product == 0;
    assert ids == {0};
    Rows.OnlyListing(InOrder(ids), [0]);
  }

  lemma Next(k: nat)
    requires k < |EVENTS|
    ensures Concurrency.Run(TWICE, EMPTY, EVENTS[..k + 1])
         == Concurrency.Step(TWICE, Concurrency.Run(TWICE, EMPTY, EVENTS[..k]), EVENTS[k])
  {
    assert EVENTS[..k + 1][..k] == EVENTS[..k];
  }

  lemma CustomerSaved(active: bool, sales: seq<Sale>)
    ensures Shop.Step(WithSoap(sales, []), PutCustomer(0, active, None)) == Books(active, sales)
    ensures Shop.Step(Books(true, sales), PutCustomer(0, active, None)) == Books(active, sales)
  {
  }

  lemma SaleCommitted()
    ensures Commit(Books(true, []), TWICE[0], SaleDraft(SALE)) == Ok(Books(true, [SALE]))
  {
    SumOfOne(SALE.payments[0], CreditAmount());
    assert SellItems(Books(true, []).stock, SALE.items, 0, 0) == Ok(Books(true, []).stock);
    assert SellItems(Books(true, []).stock, SALE.items, 1, 0) == Ok(Books(true, []).stock);
    assert MpesaLinks.LinkTenders([], 0, SALE.payments, 1) == [];
    assert Books(true, []).sales + [SALE] == [SALE];
  }

  lemma ShopReady()
    ensures Concurrency.Run(TWICE, EMPTY, EVENTS[..2]) == World(Books(true, []), [Start, Start])
  {
    hide Concurrency.Run, Locks, Shop.Step, Advance;
    assert Concurrency.Run(TWICE, EMPTY, EVENTS[..0]) == World(EMPTY, [Start, Start]) by { Beginning(); }
    Next(0);
    SoapAdded();
    assert Concurrency.Run(TWICE, EMPTY, EVENTS[..1]) == World(WithSoap([], []), [Start, Start]);
    Next(1);
    CustomerSaved(true, []);
  }

  /** Both requests have passed the pre-check, and neither holds a lock. */
  lemma BothBegun()
    ensures Concurrency.Run(TWICE, EMPTY, EVENTS[..4]) == World(Books(true, []), [Locking(0), Locking(0)])
  {
    hide Concurrency.Run, Locks, Shop.Step, MakeDraft, Commit, LockNext;
    ShopReady();
    Next(2);
    assert Concurrency.Run(TWICE, EMPTY, EVENTS[..3]) == World(Books(true, []), [Start, Locking(0)]);
    Next(3);
  }

  lemma Beginning()
    ensures Concurrency.Run(TWICE, EMPTY, EVENTS[..0]) == World(EMPTY, [Start, Start])
  {
    assert EVENTS[..0] == [];
  }

  lemma FirstLocked()
    ensures Concurrency.Run(TWICE, EMPTY, EVENTS[..6]) == World(Books(true, []), [Locking(2), Locking(0)])
  {
    hide Concurrency.Run, Locks, Shop.Step;
    LocksOfBoth();
    BothBegun();
    Next(4);
    assert Concurrency.Run(TWICE, EMPTY, EVENTS[..5]) == World(Books(true, []), [Locking(1), Locking(0)]);
    Next(5);
  }

  lemma SoapDrafted()
    ensures MakeDraft(Books(true, []), TWICE[0]) == Ok(SaleDraft(SALE))
  {
    hide PriceSale;
    SoapPriced(Books(true, []), Some(0), Mpesa, Client(0), "");
  }

  lemma FirstCommitted()
    ensures Concurrency.Run(TWICE, EMPTY, EVENTS[..9])
         == World(Books(true, [SALE]), [Done(Recorded(0)), Locking(0)])
  {
    hide Concurrency.Run, Locks, Shop.Step, MakeDraft, Commit, Held;
    LocksOfBoth();
    FirstLocked();
    SoapDrafted();
    SaleCommitted();
    Next(6);
    assert Concurrency.Run(TWICE, EMPTY, EVENTS[..7])
        == World(Books(true, []), [Drafted(SaleDraft(SALE)), Locking(0)]);
    Next(7);
    assert Concurrency.Run(TWICE, EMPTY, EVENTS[..8])
        == World(Books(true, []), [Inserted(SaleDraft(SALE)), Locking(0)]);
    Next(8);
  }

  lemma SecondAtCustomer()
    ensures Concurrency.Run(TWICE, EMPTY, EVENTS[..11])
         == World(Books(false, [SALE]), [Done(Recorded(0)), Locking(1)])
  {
    hide Concurrency.Run, Locks, Shop.Step, MakeDraft, Commit;
    LocksOfBoth();
    FirstCommitted();
    CustomerSaved(false, [SALE]);
    Next(9);
    assert Concurrency.Run(TWICE, EMPTY, EVENTS[..10])
        == World(Books(false, [SALE]), [Done(Recorded(0)), Locking(0)]);
    Next(10);
  }

  /**
   * Two requests share key and payload. The second pre-checks, the first commits, the customer is
   * archived, and the second is refused at the customer's row, where a replay would be due.
   */
  lemma DuplicateRefused()
    ensures
      var w := Concurrency.Run(TWICE, EMPTY, EVENTS[..11]);
      var w' := Concurrency.Run(TWICE, EMPTY, EVENTS);
      && |w'.pc| == 2 && w'.pc[0] == Done(Recorded(0)) && w'.pc[1] == Done(Refused(CustomerArchived))
      && TWICE[0] == TWICE[1] && Atomic(w.shop, TWICE[1]) == (w.shop, Replayed(0)) && w'.shop == w.shop
  {
    hide Concurrency.Run, Locks, Shop.Step, MakeDraft, Commit;
    LocksOfBoth();
    SecondAtCustomer();
    Next(11);
    assert EVENTS[..12] == EVENTS;
  }
}
