/**
 * Analytics aggregates over COMPLETED sales (backend/app/analytics/queries.py). Several queries
 * add up the same rows in different ways; for sales that reconcile, which all recorded sales do,
 * they are proved to agree: exactly for revenue, within a bound for separately rounded costs.
 */
module Analytics {
  import opened Prelude
  import opened SaleRecords
  import ShopInvariant
  import Shop
  import ShopRuns

  // --- grouping -----------------------------------------------------------------------------------

  function Where<T, K(==)>(key: T -> K, k: K, value: T -> int): T -> int {
    (x: T) => if key(x) == k then value(x) else 0
  }

  /** The groups of GROUP BY key. */
  function Keys<T, K(==)>(rows: seq<T>, key: T -> K): set<K> { set i | 0 <= i < |rows| :: key(rows[i]) }

  /** SUM(value) of one group. */
  function GroupTotal<T, K(==)>(rows: seq<T>, key: T -> K, value: T -> int, k: K): int {
    Sum(rows, Where(key, k, value))
  }

  function Totals<T, K(==)>(rows: seq<T>, key: T -> K, value: T -> int): K -> int {
    (k: K) => GroupTotal(rows, key, value, k)
  }

  predicate Distinct<K(==)>(ks: seq<K>) {
    forall i, j :: 0 <= i < j < |ks| ==> ks[i] != ks[j]
  }

  lemma {:induction false} SumSplit<T>(s: seq<T>, f: T -> int, g: T -> int, h: T -> int)
    requires forall i :: 0 <= i < |s| ==> f(s[i]) == g(s[i]) + h(s[i])
    ensures Sum(s, f) == Sum(s, g) + Sum(s, h)
  {
    if s != [] { SumSplit(s[..|s| - 1], f, g, h); }
  }

  function Point<K(==)>(k: K, v: int): K -> int { (x: K) => if x == k then v else 0 }

  lemma {:induction false} SumPoint<K>(ks: seq<K>, k: K, v: int)
    requires Distinct(ks)
    ensures Sum(ks, Point(k, v)) == if k in ks then v else 0
  {
    if ks != [] {
      var front := ks[..|ks| - 1];
      SumPoint(front, k, v);
      assert k in ks <==> k in front || k == ks[|ks| - 1];
    }
  }

  lemma {:induction false} TotalsOfNothing<T, K>(key: T -> K, value: T -> int, ks: seq<K>)
    ensures Sum(ks, Totals([], key, value)) == 0
  {
    SumZero(ks, Totals([], key, value));
  }

  /** The group totals add up to the total, whatever the grouping, if every row falls into a group. */
  lemma {:induction false} GroupsAddUp<T, K>(rows: seq<T>, key: T -> K, value: T -> int, ks: seq<K>)
    requires Distinct(ks) && forall i :: 0 <= i < |rows| ==> key(rows[i]) in ks
    ensures Sum(ks, Totals(rows, key, value)) == Sum(rows, value)
  {
    if rows == [] {
      TotalsOfNothing(key, value, ks);
    } else {
      var front, last := rows[..|rows| - 1], rows[|rows| - 1];
      GroupsAddUp(front, key, value, ks);
      SumSplit(ks, Totals(rows, key, value), Totals(front, key, value), Point(key(last), value(last)));
      SumPoint(ks, key(last), value(last));
    }
  }

  // --- the rows -----------------------------------------------------------------------------------

  datatype Period = Period(start: int, end: int)

  /** Only COMPLETED sales sold in the period count. */
  predicate Counts(s: Sale, period: Period) { s.status == Completed && period.start <= s.soldAt < period.end }

  function InPeriod(sales: seq<Sale>, period: Period): (r: seq<Sale>)
    ensures forall s :: s in r ==> s in sales && Counts(s, period)
  {
    if sales == [] then []
    else
      var last := sales[|sales| - 1];
      InPeriod(sales[..|sales| - 1], period) + (if Counts(last, period) then [last] else [])
  }

  /** A row with the instant it counts for: lines and tenders are dated by their sale. */
  datatype Dated<T> = Dated(at: int, row: T)

  function Join<T>(at: int, rows: seq<T>): (r: seq<Dated<T>>)
    ensures |r| == |rows| && forall i :: 0 <= i < |r| ==> r[i] == Dated(at, rows[i])
  {
    seq(|rows|, i requires 0 <= i < |rows| => Dated(at, rows[i]))
  }

  function ItemRows(sales: seq<Sale>): seq<Dated<Item>> {
    if sales == [] then []
    else
      var last := sales[|sales| - 1];
      ItemRows(sales[..|sales| - 1]) + Join(last.soldAt, last.items)
  }

  function PaymentRows(sales: seq<Sale>): seq<Dated<Payment>> {
    if sales == [] then []
    else
      var last := sales[|sales| - 1];
      PaymentRows(sales[..|sales| - 1]) + Join(last.soldAt, last.payments)
  }

  function TotalOf(): Sale -> int { (s: Sale) => s.total }

  function On<T>(f: T -> int): Dated<T> -> int { (r: Dated<T>) => f(r.row) }

  lemma {:induction false} JoinedSum<T>(at: int, rows: seq<T>, f: T -> int)
    ensures Sum(Join(at, rows), On(f)) == Sum(rows, f)
  {
    if rows != [] {
      JoinedSum(at, rows[..|rows| - 1], f);
      assert Join(at, rows)[..|rows| - 1] == Join(at, rows[..|rows| - 1]);
    }
  }

  predicate AllReconcile(sales: seq<Sale>) {
    forall i :: 0 <= i < |sales| ==> ShopInvariant.SaleReconciles(sales[i])
  }

  lemma InPeriodReconciles(sales: seq<Sale>, period: Period)
    requires AllReconcile(sales)
    ensures AllReconcile(InPeriod(sales, period))
  {
    var r := InPeriod(sales, period);
    forall i | 0 <= i < |r| ensures ShopInvariant.SaleReconciles(r[i]) {
      assert r[i] in r;
      var k :| 0 <= k < |sales| && sales[k] == r[i];
    }
  }

  lemma ReconciledTotals(s: Sale)
    requires ShopInvariant.SaleReconciles(s)
    ensures Sum(s.items, NetOf()) == s.total && Sum(s.payments, TenderAmount()) == s.total
    ensures s.items != []
  {
  }

  /** Lines, tenders and sale rows all carry the same money. */
  lemma {:induction false} RowsCarryTotals(sales: seq<Sale>)
    requires AllReconcile(sales)
    ensures Sum(ItemRows(sales), On(NetOf())) == Sum(sales, TotalOf())
    ensures Sum(PaymentRows(sales), On(TenderAmount())) == Sum(sales, TotalOf())
  {
    hide ShopInvariant.SaleReconciles;
    if sales != [] {
      var front, last := sales[..|sales| - 1], sales[|sales| - 1];
      RowsCarryTotals(front);
      ReconciledTotals(last);
      SumConcat(ItemRows(front), Join(last.soldAt, last.items), On(NetOf()));
      JoinedSum(last.soldAt, last.items, NetOf());
      SumConcat(PaymentRows(front), Join(last.soldAt, last.payments), On(TenderAmount()));
      JoinedSum(last.soldAt, last.payments, TenderAmount());
    }
  }

  // --- revenue ------------------------------------------------------------------------------------

  function Revenue(sales: seq<Sale>, period: Period): int { Sum(InPeriod(sales, period), TotalOf()) }

  function TenderKey(): Dated<Payment> -> Tender { (r: Dated<Payment>) => r.row.tender }

  function CategoryKey(category: Id -> Option<Id>): Dated<Item> -> Option<Id> {
    (r: Dated<Item>) => category(r.row.product)
  }

  function SaleBucket(bucket: int -> nat): Sale -> nat { (s: Sale) => bucket(s.soldAt) }

  function RowBucket<T>(bucket: int -> nat): Dated<T> -> nat { (r: Dated<T>) => bucket(r.at) }

  function TenderTotals(sales: seq<Sale>, period: Period): Tender -> int {
    Totals(PaymentRows(InPeriod(sales, period)), TenderKey(), On(TenderAmount()))
  }

  /** Revenue is the sum of the tender split. */
  lemma TenderSplitIsRevenue(sales: seq<Sale>, period: Period)
    requires AllReconcile(sales)
    ensures Sum([Cash, Mpesa, OnCredit], TenderTotals(sales, period)) == Revenue(sales, period)
  {
    var rows := PaymentRows(InPeriod(sales, period));
    var tenders := [Cash, Mpesa, OnCredit];
    forall i | 0 <= i < |rows| ensures TenderKey()(rows[i]) in tenders {
      match rows[i].row.tender
      case Cash => assert tenders[0] == Cash;
      case Mpesa => assert tenders[1] == Mpesa;
      case OnCredit => assert tenders[2] == OnCredit;
    }
    GroupsAddUp(rows, TenderKey(), On(TenderAmount()), tenders);
    InPeriodReconciles(sales, period);
    RowsCarryTotals(InPeriod(sales, period));
  }

  function CategoryRevenues(sales: seq<Sale>, period: Period, category: Id -> Option<Id>): Option<Id> -> int {
    Totals(ItemRows(InPeriod(sales, period)), CategoryKey(category), On(NetOf()))
  }

  /** Revenue is the sum of the category revenues, however products are categorised at query time. */
  lemma CategoriesAreRevenue(sales: seq<Sale>, period: Period, category: Id -> Option<Id>, groups: seq<Option<Id>>)
    requires AllReconcile(sales) && Distinct(groups)
    requires forall k :: k in Keys(ItemRows(InPeriod(sales, period)), CategoryKey(category)) ==> k in groups
    ensures Sum(groups, CategoryRevenues(sales, period, category)) == Revenue(sales, period)
  {
    var rows := ItemRows(InPeriod(sales, period));
    forall i | 0 <= i < |rows| ensures CategoryKey(category)(rows[i]) in groups {
      assert CategoryKey(category)(rows[i]) in Keys(rows, CategoryKey(category));
    }
    GroupsAddUp(rows, CategoryKey(category), On(NetOf()), groups);
    InPeriodReconciles(sales, period);
    RowsCarryTotals(InPeriod(sales, period));
  }

  // --- costs --------------------------------------------------------------------------------------

  /** quantity x unit_cost in thousandths of a cent; a line without a known cost counts nothing (BR-16). */
  function CostOf(): Item -> int { (i: Item) => if i.unitCost.Some? then i.quantity * i.unitCost.value else 0 }

  function Rounded<K>(f: K -> int): K -> int { (k: K) => RoundHalfUp(f(k)) }

  lemma {:induction false} RoundingDrift<K>(ks: seq<K>, f: K -> int)
    ensures -500 * |ks| <= 1000 * Sum(ks, Rounded(f)) - Sum(ks, f) <= 500 * |ks|
  {
    if ks != [] { RoundingDrift(ks[..|ks| - 1], f); }
  }

  /** K costs rounded one by one differ from the rounded total by at most (K + 1) / 2 cents. */
  lemma SeparateRounding<K>(ks: seq<K>, f: K -> int, total: int)
    requires Sum(ks, f) == total
    ensures -(|ks| + 1) <= 2 * (Sum(ks, Rounded(f)) - RoundHalfUp(total)) <= |ks| + 1
  {
    RoundingDrift(ks, f);
  }

  function HalfCent(): int -> int { (k: int) => 500 }

  /** Two half-cent costs: rounded apart they make two cents, together one. */
  lemma RoundingCanDrift()
    ensures Sum([0, 1], Rounded(HalfCent())) == 2 && RoundHalfUp(Sum([0, 1], HalfCent())) == 1
  {
    SumAppend([0], 1, HalfCent());
    SumAppend([], 0, HalfCent());
    SumAppend([0], 1, Rounded(HalfCent()));
    SumAppend([], 0, Rounded(HalfCent()));
    assert [0] + [1] == [0, 1] && [] + [0] == [0];
  }

  function Cogs(sales: seq<Sale>, period: Period): int {
    RoundHalfUp(Sum(ItemRows(InPeriod(sales, period)), On(CostOf())))
  }

  function CategoryCosts(sales: seq<Sale>, period: Period, category: Id -> Option<Id>): Option<Id> -> int {
    Totals(ItemRows(InPeriod(sales, period)), CategoryKey(category), On(CostOf()))
  }

  lemma CategoryCogsNearSummary(sales: seq<Sale>, period: Period, category: Id -> Option<Id>, groups: seq<Option<Id>>)
    requires Distinct(groups)
    requires forall k :: k in Keys(ItemRows(InPeriod(sales, period)), CategoryKey(category)) ==> k in groups
    ensures
      var separate := Sum(groups, Rounded(CategoryCosts(sales, period, category)));
      -(|groups| + 1) <= 2 * (separate - Cogs(sales, period)) <= |groups| + 1
  {
    var rows := ItemRows(InPeriod(sales, period));
    forall i | 0 <= i < |rows| ensures CategoryKey(category)(rows[i]) in groups {
      assert CategoryKey(category)(rows[i]) in Keys(rows, CategoryKey(category));
    }
    GroupsAddUp(rows, CategoryKey(category), On(CostOf()), groups);
    SeparateRounding(groups, CategoryCosts(sales, period, category), Sum(rows, On(CostOf())));
  }

  // --- buckets ------------------------------------------------------------------------------------

  lemma {:induction false} ItemRowsFromSales(sales: seq<Sale>, i: nat) returns (s: nat)
    requires i < |ItemRows(sales)|
    ensures s < |sales| && ItemRows(sales)[i].at == sales[s].soldAt
  {
    var front := sales[..|sales| - 1];
    if i < |ItemRows(front)| { s := ItemRowsFromSales(front, i); } else { s := |sales| - 1; }
  }

  /** Every bucket with costs is a bucket with sales, so leaving cost keys out of the union loses none. */
  lemma CostBucketsAreSaleBuckets(sales: seq<Sale>, period: Period, bucket: int -> nat)
    ensures
      var counted := InPeriod(sales, period);
      Keys(ItemRows(counted), RowBucket(bucket)) <= Keys(counted, SaleBucket(bucket))
  {
    var rows, counted := ItemRows(InPeriod(sales, period)), InPeriod(sales, period);
    forall k | k in Keys(rows, RowBucket(bucket)) ensures k in Keys(counted, SaleBucket(bucket)) {
      var i :| 0 <= i < |rows| && RowBucket(bucket)(rows[i]) == k;
      var s := ItemRowsFromSales(counted, i);
      assert SaleBucket(bucket)(counted[s]) == k;
    }
  }

  lemma {:induction false} ItemRowsReachAll(sales: seq<Sale>, s: nat) returns (i: nat)
    requires AllReconcile(sales) && s < |sales|
    ensures i < |ItemRows(sales)| && ItemRows(sales)[i].at == sales[s].soldAt
  {
    hide ShopInvariant.SaleReconciles;
    var front := sales[..|sales| - 1];
    if s < |front| {
      i := ItemRowsReachAll(front, s);
    } else {
      ReconciledTotals(sales[s]);
      i := |ItemRows(front)|;
    }
  }

  /** ... and every bucket with sales has cost rows: each sale has a line. */
  lemma SaleBucketsAreCostBuckets(sales: seq<Sale>, period: Period, bucket: int -> nat)
    requires AllReconcile(sales)
    ensures
      var counted := InPeriod(sales, period);
      Keys(counted, SaleBucket(bucket)) <= Keys(ItemRows(counted), RowBucket(bucket))
  {
    InPeriodReconciles(sales, period);
    var rows, counted := ItemRows(InPeriod(sales, period)), InPeriod(sales, period);
    forall k | k in Keys(counted, SaleBucket(bucket)) ensures k in Keys(rows, RowBucket(bucket)) {
      var s :| 0 <= s < |counted| && SaleBucket(bucket)(counted[s]) == k;
      var i := ItemRowsReachAll(counted, s);
      assert RowBucket(bucket)(rows[i]) == k;
    }
  }

  // --- the dictionaries the queries fill ------------------------------------------------------------

  /** A GROUP BY result: one row per group, in any order. */
  predicate IsGroupBy<T, K(==)>(result: map<K, int>, rows: seq<T>, key: T -> K, value: T -> int) {
    result.Keys == Keys(rows, key) && forall k :: k in result ==> result[k] == GroupTotal(rows, key, value, k)
  }

  lemma NoSuchGroup<T, K>(rows: seq<T>, key: T -> K, value: T -> int, k: K)
    requires k !in Keys(rows, key)
    ensures GroupTotal(rows, key, value, k) == 0
  {
    forall i | 0 <= i < |rows| ensures Where(key, k, value)(rows[i]) == 0 { assert key(rows[i]) in Keys(rows, key); }
    SumZero(rows, Where(key, k, value));
  }

  /** The split starts at zero for every method, so a method nobody used shows as zero. */
  method TenderSplit(sales: seq<Sale>, period: Period, result: map<Tender, int>) returns (split: map<Tender, int>)
    requires IsGroupBy(result, PaymentRows(InPeriod(sales, period)), TenderKey(), On(TenderAmount()))
    requires AllReconcile(sales)
    ensures split.Keys == {Cash, Mpesa, OnCredit}
    ensures forall t :: t in split ==> split[t] == TenderTotals(sales, period)(t)
    ensures split[Cash] + split[Mpesa] + split[OnCredit] == Revenue(sales, period)
  {
    split := map[Cash := 0, Mpesa := 0, OnCredit := 0];
    var todo := result.Keys;
    while todo != {}
      invariant todo <= result.Keys && split.Keys == {Cash, Mpesa, OnCredit}
      invariant forall t :: t in split ==> split[t] == if t in result && t !in todo then result[t] else 0
      decreases todo
    {
      var t :| t in todo;
      EveryTender(t);
      split := split[t := result[t]];
      todo := todo - {t};
    }
    ghost var rows := PaymentRows(InPeriod(sales, period));
    forall t | t in split ensures split[t] == TenderTotals(sales, period)(t) {
      if t !in result { NoSuchGroup(rows, TenderKey(), On(TenderAmount()), t); }
    }
    TenderSplitIsRevenue(sales, period);
    ThreeTenders(TenderTotals(sales, period));
  }

  lemma EveryTender(t: Tender)
    ensures t in {Cash, Mpesa, OnCredit}
  {
    match t case Cash => case Mpesa => case OnCredit =>
  }

  lemma ThreeTenders(f: Tender -> int)
    ensures Sum([Cash, Mpesa, OnCredit], f) == f(Cash) + f(Mpesa) + f(OnCredit)
  {
    var s := [Cash, Mpesa, OnCredit];
    assert s[..2] == [Cash, Mpesa] && [Cash, Mpesa][..1] == [Cash] && [Cash][..0] == [];
    assert Sum(s, f) == Sum([Cash, Mpesa], f) + f(OnCredit);
    assert Sum([Cash, Mpesa], f) == Sum([Cash], f) + f(Mpesa);
    assert Sum([Cash], f) == Sum([], f) + f(Cash);
  }

  /** In every reachable state, for every period: the tenders, the categories and the revenue agree. */
  lemma RevenueInEveryRun(ops: seq<Shop.Op>, period: Period, category: Id -> Option<Id>, groups: seq<Option<Id>>)
    requires Distinct(groups)
    requires
      var rows := ItemRows(InPeriod(Shop.Run(Shop.EMPTY, ops).sales, period));
      forall k :: k in Keys(rows, CategoryKey(category)) ==> k in groups
    ensures
      var sales := Shop.Run(Shop.EMPTY, ops).sales;
      && AllReconcile(sales)
      && Sum([Cash, Mpesa, OnCredit], TenderTotals(sales, period)) == Revenue(sales, period)
      && Sum(groups, CategoryRevenues(sales, period, category)) == Revenue(sales, period)
  {
    hide Shop.Run;
    ShopRuns.EveryRunKeepsInv(ops);
    var sales := Shop.Run(Shop.EMPTY, ops).sales;
    TenderSplitIsRevenue(sales, period);
    CategoriesAreRevenue(sales, period, category, groups);
  }
}
