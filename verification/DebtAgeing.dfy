/**
 * FIFO debt ageing (backend/app/repositories/credit.py, `list_debtors`): a running-sum query
 * over an unordered table, against the pay-off it stands for.
 */
module DebtAgeing {
  import opened Prelude

  /** A credit_transactions row as the query sees it; instants are integers. */
  datatype Row = Row(id: Id, customer: Id, amount: int, occurredAt: int, createdAt: int)

  /** ORDER BY occurred_at, created_at, id. */
  predicate Earlier(a: Row, b: Row) {
    a.occurredAt < b.occurredAt
    || (a.occurredAt == b.occurredAt
        && (a.createdAt < b.createdAt || (a.createdAt == b.createdAt && a.id < b.id)))
  }

  predicate IsCharge(r: Row, c: Id) { r.customer == c && r.amount > 0 }

  predicate IdsUnique(rows: seq<Row>) {
    forall i, j :: 0 <= i < j < |rows| ==> rows[i].id != rows[j].id
  }

  // --- the query ------------------------------------------------------------------------------

  /** Summand of SUM(amount) OVER (PARTITION BY customer ORDER BY ...) at row r. */
  function InFrame(r: Row): Row -> int {
    (x: Row) => if IsCharge(x, r.customer) && !Earlier(r, x) then x.amount else 0
  }

  function ChargedSoFar(rows: seq<Row>, r: Row): int { Sum(rows, InFrame(r)) }

  function PaidTerm(c: Id): Row -> int { (x: Row) => if x.customer == c && x.amount < 0 then -x.amount else 0 }

  /** coalesce(-SUM(amount) of the negative rows, 0). */
  function Paid(rows: seq<Row>, c: Id): int { Sum(rows, PaidTerm(c)) }

  predicate Unpaid(rows: seq<Row>, r: Row, c: Id) {
    IsCharge(r, c) && ChargedSoFar(rows, r) > Paid(rows, c)
  }

  /** MIN(occurred_at) of the rows the running total leaves unpaid. */
  function MinUnpaid(rows: seq<Row>, among: seq<Row>, c: Id): (r: Option<int>)
    ensures r.None? ==> forall x :: x in among ==> !Unpaid(rows, x, c)
    ensures r.Some? ==>
      && (exists x :: x in among && Unpaid(rows, x, c) && x.occurredAt == r.value)
      && (forall x :: x in among && Unpaid(rows, x, c) ==> r.value <= x.occurredAt)
  {
    if among == [] then None
    else
      var last := among[|among| - 1];
      var rest := MinUnpaid(rows, among[..|among| - 1], c);
      assert among == among[..|among| - 1] + [last];
      if !Unpaid(rows, last, c) then rest
      else if rest.None? || last.occurredAt < rest.value then Some(last.occurredAt)
      else rest
  }

  function OldestUnpaid(rows: seq<Row>, c: Id): Option<int> { MinUnpaid(rows, rows, c) }

  // --- the pay-off it stands for ----------------------------------------------------------------

  predicate InTimeOrder(s: seq<Row>) {
    forall i, j :: 0 <= i < j < |s| ==> Earlier(s[i], s[j])
  }

  function InsertByTime(s: seq<Row>, r: Row): (t: seq<Row>)
    requires InTimeOrder(s) && forall i :: 0 <= i < |s| ==> s[i].id != r.id
    ensures InTimeOrder(t)
    ensures forall x :: x in t <==> x == r || x in s
  {
    if s == [] then [r]
    else if Earlier(s[0], r) then
      var rest := InsertByTime(s[1..], r);
      assert forall x :: x in rest ==> Earlier(s[0], x);
      [s[0]] + rest
    else
      assert forall x :: x in s ==> Earlier(r, x);
      [r] + s
  }

  /** A customer's charges, oldest first. */
  function Charges(rows: seq<Row>, c: Id): (t: seq<Row>)
    requires IdsUnique(rows)
    ensures InTimeOrder(t)
    ensures forall x :: x in t <==> x in rows && IsCharge(x, c)
  {
    if rows == [] then []
    else
      var front, last := rows[..|rows| - 1], rows[|rows| - 1];
      assert rows == front + [last];
      var earlier := Charges(front, c);
      assert forall i :: 0 <= i < |earlier| ==> earlier[i] in front;
      if IsCharge(last, c) then InsertByTime(earlier, last) else earlier
  }

  /** Pour `paid` into the charges from the i-th on; the first one not fully covered. */
  function Pour(paid: int, charges: seq<Row>, i: nat): Option<int>
    requires i <= |charges|
    decreases |charges| - i
  {
    if i == |charges| then None
    else if charges[i].amount > paid then Some(charges[i].occurredAt)
    else Pour(paid - charges[i].amount, charges, i + 1)
  }

  // --- they agree ---------------------------------------------------------------------------------

  lemma {:induction false} SumInserted(s: seq<Row>, r: Row, f: Row -> int)
    requires InTimeOrder(s) && forall i :: 0 <= i < |s| ==> s[i].id != r.id
    ensures Sum(InsertByTime(s, r), f) == Sum(s, f) + f(r)
  {
    if s != [] && Earlier(s[0], r) {
      SumInserted(s[1..], r, f);
      SumConcat([s[0]], InsertByTime(s[1..], r), f);
      assert s == [s[0]] + s[1..];
      SumConcat([s[0]], s[1..], f);
    } else {
      SumConcat([r], s, f);
      assert s == [] ==> [r] + s == [r];
    }
  }

  lemma {:induction false} SumOfCharges(rows: seq<Row>, c: Id, f: Row -> int)
    requires IdsUnique(rows) && forall x: Row :: !IsCharge(x, c) ==> f(x) == 0
    ensures Sum(Charges(rows, c), f) == Sum(rows, f)
  {
    if rows != [] {
      var front, last := rows[..|rows| - 1], rows[|rows| - 1];
      SumOfCharges(front, c, f);
      var earlier := Charges(front, c);
      assert forall i :: 0 <= i < |earlier| ==> earlier[i] in front;
      if IsCharge(last, c) {
        SumInserted(earlier, last, f);
      }
    }
  }

  function Amount(): Row -> int { (r: Row) => r.amount }

  /** In time order the window sum at a charge is the sum of the charges up to it. */
  lemma WindowIsPrefix(rows: seq<Row>, c: Id, i: nat)
    requires IdsUnique(rows) && i < |Charges(rows, c)|
    ensures ChargedSoFar(rows, Charges(rows, c)[i]) == Sum(Charges(rows, c)[..i + 1], Amount())
  {
    var s := Charges(rows, c);
    var f := InFrame(s[i]);
    assert s[i] in s;
    SumOfCharges(rows, c, f);
    assert s == s[..i + 1] + s[i + 1..];
    SumConcat(s[..i + 1], s[i + 1..], f);
    forall k | 0 <= k < |s| ensures f(s[k]) == (if k <= i then s[k].amount else 0) {
      assert s[k] in s;
      assert k < i ==> Earlier(s[k], s[i]);
      assert i < k ==> Earlier(s[i], s[k]);
    }
    SumSame(s[..i + 1], f, Amount());
    SumZero(s[i + 1..], f);
  }

  predicate Covered(charges: seq<Row>, i: nat, paid: int)
    requires i < |charges|
  {
    Sum(charges[..i + 1], Amount()) <= paid
  }

  lemma {:induction false} PourFindsFirst(paid: int, charges: seq<Row>, i: nat)
    requires i <= |charges| && forall k :: 0 <= k < i ==> Covered(charges, k, paid)
    ensures
      var r := Pour(paid - Sum(charges[..i], Amount()), charges, i);
      && (r.None? ==> forall k :: 0 <= k < |charges| ==> Covered(charges, k, paid))
      && (r.Some? ==> exists j :: 0 <= j < |charges| && !Covered(charges, j, paid) && charges[j].occurredAt == r.value
                                  && forall k :: 0 <= k < j ==> Covered(charges, k, paid))
    decreases |charges| - i
  {
    if i < |charges| {
      assert charges[..i + 1] == charges[..i] + [charges[i]];
      SumAppend(charges[..i], charges[i], Amount());
      if charges[i].amount <= paid - Sum(charges[..i], Amount()) {
        assert Covered(charges, i, paid);
        PourFindsFirst(paid, charges, i + 1);
      } else {
        assert !Covered(charges, i, paid);
      }
    }
  }

  lemma UnpaidIsUncovered(rows: seq<Row>, c: Id, i: nat)
    requires IdsUnique(rows) && i < |Charges(rows, c)|
    ensures Unpaid(rows, Charges(rows, c)[i], c) <==> !Covered(Charges(rows, c), i, Paid(rows, c))
  {
    var s := Charges(rows, c);
    assert s[i] in s;
    WindowIsPrefix(rows, c, i);
  }

  /** Every row the query counts as unpaid is some charge the payments do not reach. */
  lemma UnpaidRowAt(rows: seq<Row>, c: Id, x: Row) returns (k: nat)
    requires IdsUnique(rows) && x in rows && Unpaid(rows, x, c)
    ensures k < |Charges(rows, c)| && Charges(rows, c)[k] == x && !Covered(Charges(rows, c), k, Paid(rows, c))
  {
    var s := Charges(rows, c);
    assert x in s;
    k :| 0 <= k < |s| && s[k] == x;
    UnpaidIsUncovered(rows, c, k);
  }

  lemma FirstUncoveredIsOldest(rows: seq<Row>, c: Id, j: nat)
    requires IdsUnique(rows) && j < |Charges(rows, c)| && !Covered(Charges(rows, c), j, Paid(rows, c))
    requires forall k :: 0 <= k < j ==> Covered(Charges(rows, c), k, Paid(rows, c))
    ensures OldestUnpaid(rows, c) == Some(Charges(rows, c)[j].occurredAt)
  {
    var s := Charges(rows, c);
    UnpaidIsUncovered(rows, c, j);
    assert s[j] in s && s[j] in rows;
    var oldest := OldestUnpaid(rows, c);
    var x :| x in rows && Unpaid(rows, x, c) && x.occurredAt == oldest.value;
    var k := UnpaidRowAt(rows, c, x);
    assert k > j ==> Earlier(s[j], s[k]);
  }

  /** The running-sum query finds the same date as pouring the payments into the charges. */
  lemma QueryIsPayOff(rows: seq<Row>, c: Id)
    requires IdsUnique(rows)
    ensures OldestUnpaid(rows, c) == Pour(Paid(rows, c), Charges(rows, c), 0)
  {
    var s, paid := Charges(rows, c), Paid(rows, c);
    assert s[..0] == [];
    PourFindsFirst(paid, s, 0);
    if Pour(paid, s, 0).Some? {
      var j :| 0 <= j < |s| && !Covered(s, j, paid) && s[j].occurredAt == Pour(paid, s, 0).value
               && forall k :: 0 <= k < j ==> Covered(s, k, paid);
      FirstUncoveredIsOldest(rows, c, j);
    } else if OldestUnpaid(rows, c).Some? {
      var x :| x in rows && Unpaid(rows, x, c);
      var k := UnpaidRowAt(rows, c, x);
    }
  }

  function AmountOf(c: Id): Row -> int { (x: Row) => if x.customer == c then x.amount else 0 }

  function ChargeTerm(c: Id): Row -> int { (x: Row) => if IsCharge(x, c) then x.amount else 0 }

  lemma {:induction false} BalanceSplits(rows: seq<Row>, c: Id)
    ensures Sum(rows, AmountOf(c)) == Sum(rows, ChargeTerm(c)) - Paid(rows, c)
  {
    if rows != [] {
      BalanceSplits(rows[..|rows| - 1], c);
    }
  }

  lemma {:induction false} PrefixesGrow(s: seq<Row>, i: nat)
    requires i < |s| && forall k :: 0 <= k < |s| ==> s[k].amount > 0
    ensures Sum(s[..i + 1], Amount()) <= Sum(s, Amount())
  {
    assert s == s[..i + 1] + s[i + 1..];
    SumConcat(s[..i + 1], s[i + 1..], Amount());
    SumNonNegative(s[i + 1..], Amount());
  }

  /** A date is shown exactly for the customers who owe something. */
  lemma DateIffOwing(rows: seq<Row>, c: Id)
    requires IdsUnique(rows)
    ensures OldestUnpaid(rows, c).Some? <==> Sum(rows, AmountOf(c)) > 0
  {
    hide OldestUnpaid, Charges, Pour;
    var s, paid := Charges(rows, c), Paid(rows, c);
    BalanceSplits(rows, c);
    SumOfCharges(rows, c, ChargeTerm(c));
    forall k | 0 <= k < |s| ensures IsCharge(s[k], c) { assert s[k] in s; }
    SumSame(s, ChargeTerm(c), Amount());
    QueryIsPayOff(rows, c);
    PourFindsFirst(paid, s, 0);
    assert s[..0] == [];
    SumNonNegative(rows, PaidTerm(c));
    if OldestUnpaid(rows, c).None? && s != [] {
      assert Covered(s, |s| - 1, paid);
      assert s[..|s|] == s;
    } else if OldestUnpaid(rows, c).Some? {
      var j :| 0 <= j < |s| && !Covered(s, j, paid);
      PrefixesGrow(s, j);
    }
  }
}
