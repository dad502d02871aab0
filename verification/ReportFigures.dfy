/**
 * The figures of the reports against the sales table itself: every figure is a sum over all recorded
 * sales of what the COMPLETED ones sold in the period contribute, and over nothing else.
 */
module ReportFigures {
  import opened Prelude
  import opened SaleRecords
  import opened Analytics
  import Timeseries

  /** What a sale contributes: its figure if it is COMPLETED and sold in the period, and otherwise nothing. */
  function If(start: int, end: int, figure: Sale -> int): Sale -> int {
    (s: Sale) => if s.status == Completed && start <= s.soldAt && s.soldAt < end then figure(s) else 0
  }

  /** The same, narrowed to one bucket. */
  function InBucket(bucket: int -> nat, k: nat, figure: Sale -> int): Sale -> int {
    (s: Sale) => if bucket(s.soldAt) == k then figure(s) else 0
  }

  lemma {:induction false} PeriodSum(sales: seq<Sale>, period: Period, f: Sale -> int)
    ensures Sum(InPeriod(sales, period), f) == Sum(sales, If(period.start, period.end, f))
  {
    if sales != [] {
      var front, last := sales[..|sales| - 1], sales[|sales| - 1];
      PeriodSum(front, period, f);
      if last.status == Completed && period.start <= last.soldAt < period.end {
        SumAppend(InPeriod(front, period), last, f);
      } else {
        assert InPeriod(sales, period) == InPeriod(front, period);
      }
    }
  }

  lemma {:induction false} ItemRowsSum(sales: seq<Sale>, f: Dated<Item> -> int, g: Sale -> int)
    requires forall s: Sale :: Sum(Join(s.soldAt, s.items), f) == g(s)
    ensures Sum(ItemRows(sales), f) == Sum(sales, g)
  {
    if sales != [] {
      var front, last := sales[..|sales| - 1], sales[|sales| - 1];
      ItemRowsSum(front, f, g);
      SumConcat(ItemRows(front), Join(last.soldAt, last.items), f);
    }
  }

  lemma {:induction false} PaymentRowsSum(sales: seq<Sale>, f: Dated<Payment> -> int, g: Sale -> int)
    requires forall s: Sale :: Sum(Join(s.soldAt, s.payments), f) == g(s)
    ensures Sum(PaymentRows(sales), f) == Sum(sales, g)
  {
    if sales != [] {
      var front, last := sales[..|sales| - 1], sales[|sales| - 1];
      PaymentRowsSum(front, f, g);
      SumConcat(PaymentRows(front), Join(last.soldAt, last.payments), f);
    }
  }

  // --- what one sale contributes ------------------------------------------------------------------------

  function Total(): Sale -> int { (s: Sale) => s.total }

  function One(): Sale -> int { (s: Sale) => 1 }

  function Discount(): Sale -> int { (s: Sale) => s.discount }

  function PaidBy(t: Tender): Payment -> int { (p: Payment) => if p.tender == t then p.amount else 0 }

  /** Cash and M-Pesa, not credit. */
  function MoneyIn(): Payment -> int { (p: Payment) => if p.tender == Cash || p.tender == Mpesa then p.amount else 0 }

  function SumPayments(f: Payment -> int): Sale -> int { (s: Sale) => Sum(s.payments, f) }

  function SumItems(f: Item -> int): Sale -> int { (s: Sale) => Sum(s.items, f) }

  /** Quantity times the cost noted at the sale; nothing where none was known. */
  function KnownCost(): Item -> int {
    (i: Item) => match i.unitCost case Some(cost) => i.quantity * cost case None => 0
  }

  function NoCost(): Item -> int { (i: Item) => match i.unitCost case Some(_) => 0 case None => 1 }

  function OfCategory(category: Id -> Option<Id>, k: Option<Id>, f: Item -> int): Item -> int {
    (i: Item) => if category(i.product) == k then f(i) else 0
  }

  /** Line total less allocated discount. */
  function Net(): Item -> int { (i: Item) => i.lineTotal - i.discount }

  lemma JoinedSums<T>(s: int, rows: seq<T>, f: Dated<T> -> int, g: T -> int)
    requires forall x: T :: f(Dated(s, x)) == g(x)
    ensures Sum(Join(s, rows), f) == Sum(rows, g)
  {
    SumMatched(Join(s, rows), rows, f, g);
  }

  // --- the summary --------------------------------------------------------------------------------------

  /** Revenue and the number of sales, read off the table. */
  lemma RevenueIsTable(sales: seq<Sale>, period: Period)
    ensures Revenue(sales, period) == Sum(sales, If(period.start, period.end, Total()))
    ensures |InPeriod(sales, period)| == Sum(sales, If(period.start, period.end, One()))
  {
    PeriodSum(sales, period, Total());
    SumSame(InPeriod(sales, period), TotalOf(), Total());
    PeriodSum(sales, period, One());
    SumOfOnes(InPeriod(sales, period));
  }

  lemma {:induction false} SumOfOnes(sales: seq<Sale>)
    ensures Sum(sales, One()) == |sales|
  {
    if sales != [] { SumOfOnes(sales[..|sales| - 1]); }
  }

  /** Each tender's total, read off the table. */
  lemma TenderIsTable(sales: seq<Sale>, period: Period, t: Tender)
    ensures TenderTotals(sales, period)(t) == Sum(sales, If(period.start, period.end, SumPayments(PaidBy(t))))
  {
    var f := Where(TenderKey(), t, On(TenderAmount()));
    forall s: Sale ensures Sum(Join(s.soldAt, s.payments), f) == SumPayments(PaidBy(t))(s) {
      JoinedSums(s.soldAt, s.payments, f, PaidBy(t));
    }
    PaymentRowsSum(InPeriod(sales, period), f, SumPayments(PaidBy(t)));
    PeriodSum(sales, period, SumPayments(PaidBy(t)));
  }

  lemma ItemsOverPeriod(sales: seq<Sale>, period: Period, f: Dated<Item> -> int, g: Item -> int)
    requires forall at: int, i: Item :: f(Dated(at, i)) == g(i)
    ensures Sum(ItemRows(InPeriod(sales, period)), f) == Sum(sales, If(period.start, period.end, SumItems(g)))
  {
    forall s: Sale ensures Sum(Join(s.soldAt, s.items), f) == SumItems(g)(s) { JoinedSums(s.soldAt, s.items, f, g); }
    ItemRowsSum(InPeriod(sales, period), f, SumItems(g));
    PeriodSum(sales, period, SumItems(g));
  }

  /** The cost of goods sold, read off the table and rounded once. */
  lemma CogsIsTable(sales: seq<Sale>, period: Period)
    ensures Cogs(sales, period) == RoundHalfUp(Sum(sales, If(period.start, period.end, SumItems(KnownCost()))))
  {
    ItemsOverPeriod(sales, period, On(CostOf()), KnownCost());
  }

  /** A category's revenue and cost, read off the table. */
  lemma CategoryIsTable(sales: seq<Sale>, period: Period, category: Id -> Option<Id>, k: Option<Id>)
    ensures
      CategoryRevenues(sales, period, category)(k)
      == Sum(sales, If(period.start, period.end, SumItems(OfCategory(category, k, Net()))))
    ensures
      CategoryCosts(sales, period, category)(k)
      == Sum(sales, If(period.start, period.end, SumItems(OfCategory(category, k, KnownCost()))))
  {
    ItemsOverPeriod(sales, period, Where(CategoryKey(category), k, On(NetOf())), OfCategory(category, k, Net()));
    ItemsOverPeriod(sales, period, Where(CategoryKey(category), k, On(CostOf())), OfCategory(category, k, KnownCost()));
  }

  // --- the buckets --------------------------------------------------------------------------------------

  function AtBucket(bucket: int -> nat, k: nat): Dated<int> -> int {
    (r: Dated<int>) => if bucket(r.at) == k then r.row else 0
  }

  lemma SalesInBucket(sales: seq<Sale>, period: Period, bucket: int -> nat, k: nat, f: Sale -> int, g: Sale -> int)
    requires forall s: Sale :: f(s) == g(s)
    ensures
      GroupTotal(InPeriod(sales, period), SaleBucket(bucket), f, k)
      == Sum(sales, If(period.start, period.end, InBucket(bucket, k, g)))
  {
    PeriodSum(sales, period, InBucket(bucket, k, g));
    SumSame(InPeriod(sales, period), Where(SaleBucket(bucket), k, f), InBucket(bucket, k, g));
  }

  lemma ItemsInBucket(sales: seq<Sale>, period: Period, bucket: int -> nat, k: nat, f: Item -> int, g: Item -> int)
    requires forall i: Item :: f(i) == g(i)
    ensures
      GroupTotal(ItemRows(InPeriod(sales, period)), RowBucket(bucket), On(f), k)
      == Sum(sales, If(period.start, period.end, InBucket(bucket, k, SumItems(g))))
  {
    var h := Where(RowBucket(bucket), k, On(f));
    forall s: Sale ensures Sum(Join(s.soldAt, s.items), h) == InBucket(bucket, k, SumItems(g))(s) {
      if bucket(s.soldAt) == k {
        JoinedSums(s.soldAt, s.items, h, g);
      } else {
        SumZero(Join(s.soldAt, s.items), h);
      }
    }
    ItemRowsSum(InPeriod(sales, period), h, InBucket(bucket, k, SumItems(g)));
    PeriodSum(sales, period, InBucket(bucket, k, SumItems(g)));
  }

  lemma {:induction false} ReceivedSums(rows: seq<Dated<Payment>>, bucket: int -> nat, k: nat)
    ensures
      GroupTotal(Timeseries.Received(rows), RowBucket(bucket), On(TenderAmount()), k)
      == Sum(rows, Where(RowBucket(bucket), k, On(MoneyIn())))
  {
    if rows != [] {
      var front, last := rows[..|rows| - 1], rows[|rows| - 1];
      ReceivedSums(front, bucket, k);
      if last.row.tender != OnCredit {
        SumAppend(Timeseries.Received(front), last, Where(RowBucket(bucket), k, On(TenderAmount())));
      } else {
        assert Timeseries.Received(front) + [] == Timeseries.Received(front);
      }
    }
  }

  lemma CashInBucket(sales: seq<Sale>, period: Period, bucket: int -> nat, k: nat)
    ensures
      GroupTotal(Timeseries.Received(PaymentRows(InPeriod(sales, period))), RowBucket(bucket), On(TenderAmount()), k)
      == Sum(sales, If(period.start, period.end, InBucket(bucket, k, SumPayments(MoneyIn()))))
  {
    ReceivedSums(PaymentRows(InPeriod(sales, period)), bucket, k);
    var h := Where(RowBucket(bucket), k, On(MoneyIn()));
    forall s: Sale ensures Sum(Join(s.soldAt, s.payments), h) == InBucket(bucket, k, SumPayments(MoneyIn()))(s) {
      if bucket(s.soldAt) == k {
        JoinedSums(s.soldAt, s.payments, h, MoneyIn());
      } else {
        SumZero(Join(s.soldAt, s.payments), h);
      }
    }
    PaymentRowsSum(InPeriod(sales, period), h, InBucket(bucket, k, SumPayments(MoneyIn())));
    PeriodSum(sales, period, InBucket(bucket, k, SumPayments(MoneyIn())));
  }

  /** Every field of a bucket, read off the sales table and the dated amounts. */
  lemma BucketIsTable(
    sales: seq<Sale>, period: Period, repayments: seq<Dated<int>>, expenses: seq<Dated<int>>, bucket: int -> nat,
    k: nat)
    ensures
      var b := Timeseries.BucketOf(Timeseries.Rows(InPeriod(sales, period), repayments, expenses), bucket, k);
      var from, to := period.start, period.end;
      && b.start == k
      && b.count == Sum(sales, If(from, to, InBucket(bucket, k, One())))
      && b.revenue == Sum(sales, If(from, to, InBucket(bucket, k, Total())))
      && b.discounts == Sum(sales, If(from, to, InBucket(bucket, k, Discount())))
      && b.cogs == RoundHalfUp(Sum(sales, If(from, to, InBucket(bucket, k, SumItems(KnownCost())))))
      && b.linesMissingCost == Sum(sales, If(from, to, InBucket(bucket, k, SumItems(NoCost()))))
      && b.cash == Sum(sales, If(from, to, InBucket(bucket, k, SumPayments(MoneyIn()))))
                   + Sum(repayments, AtBucket(bucket, k))
      && b.expenses == Sum(expenses, AtBucket(bucket, k))
      && b.grossProfit == b.revenue - b.cogs && b.netProfit == b.grossProfit - b.expenses
  {
    hide GroupTotal, InPeriod, ItemRows, PaymentRows, Timeseries.Received, RoundHalfUp;
    SalesInBucket(sales, period, bucket, k, Timeseries.One(), One());
    SalesInBucket(sales, period, bucket, k, TotalOf(), Total());
    SalesInBucket(sales, period, bucket, k, Timeseries.DiscountOf(), Discount());
    ItemsInBucket(sales, period, bucket, k, CostOf(), KnownCost());
    ItemsInBucket(sales, period, bucket, k, Timeseries.MissingCost(), NoCost());
    CashInBucket(sales, period, bucket, k);
    DatedInBucket(repayments, bucket, k);
    DatedInBucket(expenses, bucket, k);
  }

  lemma DatedInBucket(rows: seq<Dated<int>>, bucket: int -> nat, k: nat)
    ensures GroupTotal(rows, RowBucket(bucket), Timeseries.Amount(), k) == Sum(rows, AtBucket(bucket, k))
  {
    SumSame(rows, Where(RowBucket(bucket), k, Timeseries.Amount()), AtBucket(bucket, k));
  }
}
