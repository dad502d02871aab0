/**
 * The bucketed report (backend/app/analytics/queries.py:245-356): five GROUP BY results are
 * merged into one list of buckets, and the list adds up to the summary of the same period.
 */
module Timeseries {
  import opened Prelude
  import opened SaleRecords
  import opened Analytics
  import Shop
  import ShopRuns

  /** The rows of one period. Repayments and expenses are dated amounts. */
  datatype Rows = Rows(sales: seq<Sale>, repayments: seq<Dated<int>>, expenses: seq<Dated<int>>)

  datatype Bucket = Bucket(
    start: nat, count: int, revenue: int, discounts: int, cogs: int, linesMissingCost: int, grossProfit: int,
    cash: int, expenses: int, netProfit: int)

  function One(): Sale -> int { (s: Sale) => 1 }

  /** A line whose cost is unknown (BR-16). */
  function MissingCost(): Item -> int { (i: Item) => if i.unitCost.None? then 1 else 0 }

  function DiscountOf(): Sale -> int { (s: Sale) => s.discount }

  function Amount(): Dated<int> -> int { (r: Dated<int>) => r.row }

  /** Tenders that are money received: everything but CREDIT. */
  function Received(rows: seq<Dated<Payment>>): seq<Dated<Payment>> {
    if rows == [] then []
    else
      var last := rows[|rows| - 1];
      Received(rows[..|rows| - 1]) + (if last.row.tender != OnCredit then [last] else [])
  }

  // --- the five grouped queries -----------------------------------------------------------------------

  datatype Grouped = Grouped(
    sales: map<nat, (int, int, int)>, costs: map<nat, int>, missing: map<nat, int>, tenders: map<nat, int>,
    repayments: map<nat, int>, expenses: map<nat, int>)

  ghost predicate Answers(g: Grouped, rows: Rows, bucket: int -> nat) {
    && g.sales.Keys == Keys(rows.sales, SaleBucket(bucket))
    && (forall k :: k in g.sales ==> g.sales[k] == (
          GroupTotal(rows.sales, SaleBucket(bucket), One(), k),
          GroupTotal(rows.sales, SaleBucket(bucket), TotalOf(), k),
          GroupTotal(rows.sales, SaleBucket(bucket), DiscountOf(), k)))
    && IsGroupBy(g.costs, ItemRows(rows.sales), RowBucket(bucket), On(CostOf()))
    && IsGroupBy(g.missing, ItemRows(rows.sales), RowBucket(bucket), On(MissingCost()))
    && IsGroupBy(g.tenders, Received(PaymentRows(rows.sales)), RowBucket(bucket), On(TenderAmount()))
    && IsGroupBy(g.repayments, rows.repayments, RowBucket(bucket), Amount())
    && IsGroupBy(g.expenses, rows.expenses, RowBucket(bucket), Amount())
  }

  function Get(m: map<nat, int>, k: nat): int { if k in m then m[k] else 0 }

  /** What a bucket must say, from the rows alone. */
  function BucketOf(rows: Rows, bucket: int -> nat, k: nat): Bucket {
    var revenue := GroupTotal(rows.sales, SaleBucket(bucket), TotalOf(), k);
    var cogs := RoundHalfUp(GroupTotal(ItemRows(rows.sales), RowBucket(bucket), On(CostOf()), k));
    var spent := GroupTotal(rows.expenses, RowBucket(bucket), Amount(), k);
    Bucket(
      k, GroupTotal(rows.sales, SaleBucket(bucket), One(), k), revenue,
      GroupTotal(rows.sales, SaleBucket(bucket), DiscountOf(), k), cogs,
      GroupTotal(ItemRows(rows.sales), RowBucket(bucket), On(MissingCost()), k), revenue - cogs,
      GroupTotal(Received(PaymentRows(rows.sales)), RowBucket(bucket), On(TenderAmount()), k)
        + GroupTotal(rows.repayments, RowBucket(bucket), Amount(), k),
      spent, revenue - cogs - spent)
  }

  lemma GetIsGroupTotal<T>(m: map<nat, int>, rows: seq<T>, key: T -> nat, value: T -> int, k: nat)
    requires IsGroupBy(m, rows, key, value)
    ensures Get(m, k) == GroupTotal(rows, key, value, k)
  {
    if k !in m { NoSuchGroup(rows, key, value, k); }
  }

  /** Dictionary entries read with their defaults are the group totals. */
  lemma EntryIsBucket(g: Grouped, rows: Rows, bucket: int -> nat, k: nat)
    requires Answers(g, rows, bucket)
    ensures
      var (count, revenue, discounts) := if k in g.sales then g.sales[k] else (0, 0, 0);
      var cogs := RoundHalfUp(Get(g.costs, k));
      BucketOf(rows, bucket, k) == Bucket(k, count, revenue, discounts, cogs, Get(g.missing, k), revenue - cogs,
        Get(g.tenders, k) + Get(g.repayments, k), Get(g.expenses, k), revenue - cogs - Get(g.expenses, k))
  {
    hide IsGroupBy, GroupTotal;
    if k !in g.sales {
      NoSuchGroup(rows.sales, SaleBucket(bucket), One(), k);
      NoSuchGroup(rows.sales, SaleBucket(bucket), TotalOf(), k);
      NoSuchGroup(rows.sales, SaleBucket(bucket), DiscountOf(), k);
    }
    GetIsGroupTotal(g.costs, ItemRows(rows.sales), RowBucket(bucket), On(CostOf()), k);
    GetIsGroupTotal(g.missing, ItemRows(rows.sales), RowBucket(bucket), On(MissingCost()), k);
    GetIsGroupTotal(g.tenders, Received(PaymentRows(rows.sales)), RowBucket(bucket), On(TenderAmount()), k);
    GetIsGroupTotal(g.repayments, rows.repayments, RowBucket(bucket), Amount(), k);
    GetIsGroupTotal(g.expenses, rows.expenses, RowBucket(bucket), Amount(), k);
  }

  function ReportKeys(rows: Rows, bucket: int -> nat): set<nat> {
    Keys(rows.sales, SaleBucket(bucket)) + Keys(Received(PaymentRows(rows.sales)), RowBucket(bucket))
    + Keys(rows.repayments, RowBucket(bucket)) + Keys(rows.expenses, RowBucket(bucket))
  }

  function Report(rows: Rows, bucket: int -> nat, keys: seq<nat>): (r: seq<Bucket>)
    ensures |r| == |keys|
  {
    seq(|keys|, i requires 0 <= i < |keys| => BucketOf(rows, bucket, keys[i]))
  }

  /** Adds the repayments to the tenders received, bucket by bucket. */
  method CashByBucket(tenders: map<nat, int>, repayments: map<nat, int>) returns (cash: map<nat, int>)
    ensures cash.Keys == tenders.Keys + repayments.Keys
    ensures forall k :: k in cash ==> cash[k] == Get(tenders, k) + Get(repayments, k)
  {
    cash := tenders;
    var todo := repayments.Keys;
    while todo != {}
      invariant todo <= repayments.Keys && cash.Keys == tenders.Keys + (repayments.Keys - todo)
      invariant forall k :: k in cash ==> cash[k] == Get(tenders, k) + (if k in todo then 0 else Get(repayments, k))
      decreases todo
    {
      var k :| k in todo;
      cash := cash[k := Get(cash, k) + repayments[k]];
      todo := todo - {k};
    }
  }

  lemma CashEntry(cash: map<nat, int>, tenders: map<nat, int>, repayments: map<nat, int>, k: nat)
    requires cash.Keys == tenders.Keys + repayments.Keys
    requires forall k :: k in cash ==> cash[k] == Get(tenders, k) + Get(repayments, k)
    ensures Get(cash, k) == Get(tenders, k) + Get(repayments, k)
  {
  }

  lemma KeysOfReport(g: Grouped, rows: Rows, bucket: int -> nat, cash: set<nat>)
    requires Answers(g, rows, bucket) && cash == g.tenders.Keys + g.repayments.Keys
    ensures g.sales.Keys + cash + g.expenses.Keys == ReportKeys(rows, bucket)
  {
  }

  /** One bucket per key, each read from the dictionaries with zero as the default. */
  method FillBuckets(
    g: Grouped, cash: map<nat, int>, keys: seq<nat>, ghost rows: Rows, ghost bucket: int -> nat)
    returns (result: seq<Bucket>)
    requires Answers(g, rows, bucket) && cash.Keys == g.tenders.Keys + g.repayments.Keys
    requires forall k :: k in cash ==> cash[k] == Get(g.tenders, k) + Get(g.repayments, k)
    ensures |result| == |keys| && forall i :: 0 <= i < |keys| ==> result[i] == BucketOf(rows, bucket, keys[i])
  {
    hide Answers, BucketOf, RoundHalfUp, Get;
    result := [];
    for i := 0 to |keys|
      invariant |result| == i && forall j :: 0 <= j < i ==> result[j] == BucketOf(rows, bucket, keys[j])
    {
      var k := keys[i];
      var (count, revenue, discounts) := if k in g.sales then g.sales[k] else (0, 0, 0);
      var cogs := RoundHalfUp(Get(g.costs, k));
      var spent := Get(g.expenses, k);
      EntryIsBucket(g, rows, bucket, k);
      CashEntry(cash, g.tenders, g.repayments, k);
      result := result + [Bucket(k, count, revenue, discounts, cogs, Get(g.missing, k), revenue - cogs,
                                 Get(cash, k), spent, revenue - cogs - spent)];
    }
  }

  /** The keys are those of the sales, cash and expense results, in order; cost keys are left out of the union. */
  method BuildReport(g: Grouped, ghost rows: Rows, ghost bucket: int -> nat) returns (result: seq<Bucket>)
    requires Answers(g, rows, bucket)
    ensures result == Report(rows, bucket, InOrder(ReportKeys(rows, bucket)))
  {
    hide Answers, BucketOf, ReportKeys, InOrder;
    var cash := CashByBucket(g.tenders, g.repayments);
    KeysOfReport(g, rows, bucket, cash.Keys);
    result := FillBuckets(g, cash, InOrder(g.sales.Keys + cash.Keys + g.expenses.Keys), rows, bucket);
  }

  // --- the report adds up -------------------------------------------------------------------------------

  function RevenueField(): Bucket -> int { (b: Bucket) => b.revenue }
  function CountField(): Bucket -> int { (b: Bucket) => b.count }
  function CashField(): Bucket -> int { (b: Bucket) => b.cash }
  function CogsField(): Bucket -> int { (b: Bucket) => b.cogs }
  function MissingField(): Bucket -> int { (b: Bucket) => b.linesMissingCost }
  function DiscountsField(): Bucket -> int { (b: Bucket) => b.discounts }
  function ExpensesField(): Bucket -> int { (b: Bucket) => b.expenses }

  lemma AscendingIsDistinct(s: seq<nat>)
    requires Ascending(s)
    ensures Distinct(s)
  {
  }

  lemma AllKeysListed<T>(listed: seq<T>, key: T -> nat, rows: Rows, bucket: int -> nat)
    requires Keys(listed, key) <= ReportKeys(rows, bucket)
    ensures forall i :: 0 <= i < |listed| ==> key(listed[i]) in InOrder(ReportKeys(rows, bucket))
  {
    forall i | 0 <= i < |listed| ensures key(listed[i]) in InOrder(ReportKeys(rows, bucket)) {
      assert key(listed[i]) in Keys(listed, key);
    }
  }

  lemma FieldAddsUp<T>(
    listed: seq<T>, key: T -> nat, value: T -> int, rows: Rows, bucket: int -> nat, field: Bucket -> int)
    requires Keys(listed, key) <= ReportKeys(rows, bucket)
    requires forall k :: field(BucketOf(rows, bucket, k)) == GroupTotal(listed, key, value, k)
    ensures Sum(Report(rows, bucket, InOrder(ReportKeys(rows, bucket))), field) == Sum(listed, value)
  {
    hide BucketOf, GroupTotal;
    var keys := InOrder(ReportKeys(rows, bucket));
    AscendingIsDistinct(keys);
    AllKeysListed(listed, key, rows, bucket);
    GroupsAddUp(listed, key, value, keys);
    var report := Report(rows, bucket, keys);
    forall i | 0 <= i < |keys| ensures field(report[i]) == Totals(listed, key, value)(keys[i]) {
      assert report[i] == BucketOf(rows, bucket, keys[i]);
    }
    SumMatched(report, keys, field, Totals(listed, key, value));
  }

  /** Revenue, discounts, number of sales, expenses and lines without a cost add up exactly to those of the period. */
  lemma BucketsAddUp(rows: Rows, bucket: int -> nat)
    ensures
      var report := Report(rows, bucket, InOrder(ReportKeys(rows, bucket)));
      && Sum(report, RevenueField()) == Sum(rows.sales, TotalOf())
      && Sum(report, CountField()) == Sum(rows.sales, One())
      && Sum(report, DiscountsField()) == Sum(rows.sales, DiscountOf())
      && Sum(report, ExpensesField()) == Sum(rows.expenses, Amount())
      && Sum(report, MissingField()) == Sum(ItemRows(rows.sales), On(MissingCost()))
  {
    FieldAddsUp(rows.sales, SaleBucket(bucket), TotalOf(), rows, bucket, RevenueField());
    FieldAddsUp(rows.sales, SaleBucket(bucket), One(), rows, bucket, CountField());
    FieldAddsUp(rows.sales, SaleBucket(bucket), DiscountOf(), rows, bucket, DiscountsField());
    CostKeysListed(rows, bucket);
    FieldAddsUp(ItemRows(rows.sales), RowBucket(bucket), On(MissingCost()), rows, bucket, MissingField());
    FieldAddsUp(rows.expenses, RowBucket(bucket), Amount(), rows, bucket, ExpensesField());
  }

  /** Cash per bucket adds up to the tenders received plus the repayments of the period. */
  lemma CashAddsUp(rows: Rows, bucket: int -> nat)
    ensures
      var report := Report(rows, bucket, InOrder(ReportKeys(rows, bucket)));
      Sum(report, CashField())
        == Sum(Received(PaymentRows(rows.sales)), On(TenderAmount())) + Sum(rows.repayments, Amount())
  {
    hide GroupTotal;
    var keys := InOrder(ReportKeys(rows, bucket));
    var report := Report(rows, bucket, keys);
    var received := Received(PaymentRows(rows.sales));
    AscendingIsDistinct(keys);
    AllKeysListed(received, RowBucket(bucket), rows, bucket);
    AllKeysListed(rows.repayments, RowBucket(bucket), rows, bucket);
    GroupsAddUp(received, RowBucket(bucket), On(TenderAmount()), keys);
    GroupsAddUp(rows.repayments, RowBucket(bucket), Amount(), keys);
    var both := BothTotals(rows, bucket);
    SumSplit(keys, both, Totals(received, RowBucket(bucket), On(TenderAmount())),
      Totals(rows.repayments, RowBucket(bucket), Amount()));
    SumMatched(report, keys, CashField(), both);
  }

  function BothTotals(rows: Rows, bucket: int -> nat): nat -> int {
    (k: nat) => GroupTotal(Received(PaymentRows(rows.sales)), RowBucket(bucket), On(TenderAmount()), k)
                + GroupTotal(rows.repayments, RowBucket(bucket), Amount(), k)
  }

  /** Money received is revenue less what was sold on credit. */
  lemma {:induction false} ReceivedSum(rows: seq<Dated<Payment>>)
    ensures Sum(Received(rows), On(TenderAmount())) == Sum(rows, On(TenderAmount())) - Sum(rows, On(CreditAmount()))
  {
    if rows != [] {
      var front, last := rows[..|rows| - 1], rows[|rows| - 1];
      ReceivedSum(front);
      if last.row.tender != OnCredit { SumAppend(Received(front), last, On(TenderAmount())); }
      else { assert Received(front) + [] == Received(front); }
    }
  }

  /** For reconciled sales, bucket cash adds up to revenue, less credit sold, plus repayments. */
  lemma CashReconciles(rows: Rows, bucket: int -> nat)
    requires AllReconcile(rows.sales)
    ensures
      var report := Report(rows, bucket, InOrder(ReportKeys(rows, bucket)));
      Sum(report, CashField())
      == Sum(report, RevenueField()) - Sum(PaymentRows(rows.sales), On(CreditAmount())) + Sum(rows.repayments, Amount())
  {
    CashAddsUp(rows, bucket);
    BucketsAddUp(rows, bucket);
    ReceivedSum(PaymentRows(rows.sales));
    RowsCarryTotals(rows.sales);
  }

  function HasCosts(costKeys: set<nat>): nat -> int { (k: nat) => if k in costKeys then 1 else 0 }

  lemma {:induction false} DriftOfCosted(ks: seq<nat>, f: nat -> int, costKeys: set<nat>)
    requires forall k: nat :: k !in costKeys ==> f(k) == 0
    ensures var n := Sum(ks, HasCosts(costKeys)); -500 * n <= 1000 * Sum(ks, Rounded(f)) - Sum(ks, f) <= 500 * n
  {
    if ks != [] { DriftOfCosted(ks[..|ks| - 1], f, costKeys); }
  }

  /**
   * No cost bucket is lost, and the separately rounded bucket costs differ from the summary's
   * by at most (K + 1) / 2 cents, where K is the number of buckets that have costs.
   */
  lemma BucketCogsNearSummary(rows: Rows, bucket: int -> nat)
    ensures
      var keys := InOrder(ReportKeys(rows, bucket));
      var costKeys := Keys(ItemRows(rows.sales), RowBucket(bucket));
      var count := Sum(keys, HasCosts(costKeys));
      var summary := RoundHalfUp(Sum(ItemRows(rows.sales), On(CostOf())));
      && (forall k :: k in costKeys ==> k in keys)
      && -(count + 1) <= 2 * (Sum(Report(rows, bucket, keys), CogsField()) - summary) <= count + 1
  {
    hide GroupTotal, RoundHalfUp, InOrder, ReportKeys, Keys;
    var keys := InOrder(ReportKeys(rows, bucket));
    var items := ItemRows(rows.sales);
    var costKeys := Keys(items, RowBucket(bucket));
    var f := Totals(items, RowBucket(bucket), On(CostOf()));
    CostKeysListed(rows, bucket);
    AscendingIsDistinct(keys);
    AllKeysListed(items, RowBucket(bucket), rows, bucket);
    GroupsAddUp(items, RowBucket(bucket), On(CostOf()), keys);
    UncostedAreZero(items, bucket);
    DriftOfCosted(keys, f, costKeys);
    SumMatched(Report(rows, bucket, keys), keys, CogsField(), Rounded(f));
  }

  lemma UncostedAreZero(items: seq<Dated<Item>>, bucket: int -> nat)
    ensures forall k: nat :: k !in Keys(items, RowBucket(bucket)) ==>
      Totals(items, RowBucket(bucket), On(CostOf()))(k) == 0
  {
    forall k: nat | k !in Keys(items, RowBucket(bucket))
      ensures Totals(items, RowBucket(bucket), On(CostOf()))(k) == 0 {
      NoSuchGroup(items, RowBucket(bucket), On(CostOf()), k);
    }
  }

  lemma CostKeysListed(rows: Rows, bucket: int -> nat)
    ensures Keys(ItemRows(rows.sales), RowBucket(bucket)) <= ReportKeys(rows, bucket)
  {
    forall k | k in Keys(ItemRows(rows.sales), RowBucket(bucket)) ensures k in Keys(rows.sales, SaleBucket(bucket)) {
      var i :| 0 <= i < |ItemRows(rows.sales)| && RowBucket(bucket)(ItemRows(rows.sales)[i]) == k;
      var s := ItemRowsFromSales(rows.sales, i);
      assert SaleBucket(bucket)(rows.sales[s]) == k;
    }
  }

  /** In every reachable state, for every period and every way of bucketing: revenue and cash add up. */
  lemma ReportInEveryRun(
    ops: seq<Shop.Op>, period: Period, repayments: seq<Dated<int>>, expenses: seq<Dated<int>>, bucket: int -> nat)
    ensures
      var sales := Shop.Run(Shop.EMPTY, ops).sales;
      var rows := Rows(InPeriod(sales, period), repayments, expenses);
      var report := Report(rows, bucket, InOrder(ReportKeys(rows, bucket)));
      && Sum(report, RevenueField()) == Revenue(sales, period)
      && Sum(report, CashField())
         == Revenue(sales, period) - Sum(PaymentRows(rows.sales), On(CreditAmount())) + Sum(repayments, Amount())
  {
    hide Shop.Run, InOrder, Report;
    ShopRuns.EveryRunKeepsInv(ops);
    var sales := Shop.Run(Shop.EMPTY, ops).sales;
    InPeriodReconciles(sales, period);
    var rows := Rows(InPeriod(sales, period), repayments, expenses);
    BucketsAddUp(rows, bucket);
    CashReconciles(rows, bucket);
  }
}
