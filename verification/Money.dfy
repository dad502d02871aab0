/**
 * Money arithmetic for sales (backend/app/services/money.py). Money is whole cents,
 * quantities are whole thousandths; a product of the two is in thousandths of a cent.
 */
module Money {
  import opened Prelude

  function LineTotal(quantity: nat, unitPrice: nat): (r: nat)
    ensures -500 < 1000 * r - quantity * unitPrice <= 500
  {
    RoundHalfUp(quantity * unitPrice)
  }

  function Cents(): nat -> int { (x: nat) => x }

  function Total(amounts: seq<nat>): int { Sum(amounts, Cents()) }

  // --- products of cents ----------------------------------------------------------------

  lemma Distribute(a: int, b: int, s: int)
    ensures (a - b) * s == a * s - b * s
    ensures (a + b) * s == a * s + b * s
  {
  }

  lemma AtLeastOne(a: int, s: int)
    requires a >= 1 && s >= 0
    ensures a * s >= s
  {
  }

  lemma MultiplesInOrder(a: int, b: int, s: int)
    requires s > 0 && a * s <= b * s
    ensures a <= b
  {
    if a > b {
      Distribute(a, b, s);
      AtLeastOne(a - b, s);
    }
  }

  // --- exact shares ---------------------------------------------------------------------
  // The exact share of a line is discount * total / subtotal cents; `Floor` is its whole
  // part and `Remainder` the numerator of its fraction over `subtotal`.

  function Floor(discount: nat, subtotal: nat, total: nat): (r: nat)
    requires subtotal > 0
  {
    discount * total / subtotal
  }

  function Remainder(discount: nat, subtotal: nat, total: nat): (r: nat)
    requires subtotal > 0
    ensures r < subtotal
    ensures discount * total == Floor(discount, subtotal, total) * subtotal + r
  {
    discount * total % subtotal
  }

  function Floors(discount: nat, subtotal: nat, totals: seq<nat>): (r: seq<nat>)
    requires subtotal > 0
    ensures |r| == |totals|
  {
    seq(|totals|, i requires 0 <= i < |totals| => Floor(discount, subtotal, totals[i]))
  }

  function Remainders(discount: nat, subtotal: nat, totals: seq<nat>): (r: seq<nat>)
    requires subtotal > 0
    ensures |r| == |totals|
  {
    seq(|totals|, i requires 0 <= i < |totals| => Remainder(discount, subtotal, totals[i]))
  }

  /** Whole parts and fractions together give back the exact shares. */
  lemma {:induction false} SharesAddUp(discount: nat, subtotal: nat, totals: seq<nat>)
    requires subtotal > 0
    ensures Total(Floors(discount, subtotal, totals)) * subtotal + Total(Remainders(discount, subtotal, totals))
         == discount * Total(totals)
  {
    if totals != [] {
      var front := totals[..|totals| - 1];
      var last := totals[|totals| - 1];
      SharesAddUp(discount, subtotal, front);
      assert Floors(discount, subtotal, totals)[..|front|] == Floors(discount, subtotal, front);
      assert Remainders(discount, subtotal, totals)[..|front|] == Remainders(discount, subtotal, front);
      assert discount * last == Floor(discount, subtotal, last) * subtotal + Remainder(discount, subtotal, last);
      var f := Total(Floors(discount, subtotal, front));
      assert (f + Floor(discount, subtotal, last)) * subtotal
        == f * subtotal + Floor(discount, subtotal, last) * subtotal;
      assert discount * (Total(front) + last) == discount * Total(front) + discount * last;
    }
  }

  // --- the order of the leftover cents --------------------------------------------------

  function At(values: seq<nat>): nat -> int { (i: nat) => if i < |values| then values[i] else 0 }

  /** Largest remainder first; earlier lines win ties. */
  predicate Before(rems: seq<nat>, i: nat, j: nat)
    requires i < |rems| && j < |rems|
  {
    rems[i] > rems[j] || (rems[i] == rems[j] && i < j)
  }

  predicate Indices(order: seq<nat>, n: nat) {
    forall k :: 0 <= k < |order| ==> order[k] < n
  }

  predicate Ordered(rems: seq<nat>, order: seq<nat>)
    requires Indices(order, |rems|)
  {
    forall a, b :: 0 <= a < b < |order| ==> Before(rems, order[a], order[b])
  }

  function Insert(rems: seq<nat>, order: seq<nat>, i: nat): (r: seq<nat>)
    requires i < |rems| && Indices(order, |rems|) && Ordered(rems, order) && i !in order
    ensures |r| == |order| + 1
    ensures forall x :: x in r <==> x == i || x in order
    ensures Indices(r, |rems|) && Ordered(rems, r)
  {
    if order == [] then [i]
    else if Before(rems, order[0], i) then
      var rest := Insert(rems, order[1..], i);
      assert forall x :: x in rest ==> Before(rems, order[0], x);
      [order[0]] + rest
    else
      assert forall x :: x in order ==> Before(rems, i, x);
      [i] + order
  }

  /** The first n line numbers sorted by descending remainder. */
  function ByRemainder(rems: seq<nat>, n: nat): (r: seq<nat>)
    requires n <= |rems|
    ensures |r| == n && Indices(r, n)
    ensures forall x: nat :: x in r <==> x < n
    ensures Ordered(rems, r)
  {
    if n == 0 then []
    else
      var r := Insert(rems, ByRemainder(rems, n - 1), n - 1);
      assert forall k :: 0 <= k < |r| ==> r[k] in r;
      r
  }

  lemma {:induction false} SumInsert(rems: seq<nat>, order: seq<nat>, i: nat)
    requires i < |rems| && Indices(order, |rems|) && Ordered(rems, order) && i !in order
    ensures Sum(Insert(rems, order, i), At(rems)) == Sum(order, At(rems)) + rems[i]
  {
    var f := At(rems);
    if order == [] {
      SumAppend([], i, f);
    } else if Before(rems, order[0], i) {
      SumInsert(rems, order[1..], i);
      SumConcat([order[0]], Insert(rems, order[1..], i), f);
      assert order == [order[0]] + order[1..];
      SumConcat([order[0]], order[1..], f);
    } else {
      SumConcat([i], order, f);
    }
  }

  lemma {:induction false} SumByRemainder(rems: seq<nat>, n: nat)
    requires n <= |rems|
    ensures Sum(ByRemainder(rems, n), At(rems)) == Total(rems[..n])
  {
    if n > 0 {
      SumByRemainder(rems, n - 1);
      SumInsert(rems, ByRemainder(rems, n - 1), n - 1);
      assert rems[..n] == rems[..n - 1] + [rems[n - 1]];
      SumAppend(rems[..n - 1], rems[n - 1], Cents());
    }
  }

  // --- the split --------------------------------------------------------------------------

  function AddCents(floors: seq<nat>, order: seq<nat>, k: nat): (r: seq<nat>)
    requires k <= |order| && Indices(order, |floors|)
    ensures |r| == |floors|
  {
    if k == 0 then floors
    else
      var before := AddCents(floors, order, k - 1);
      before[order[k - 1] := before[order[k - 1]] + 1]
  }

  lemma {:induction false} AddCentsTotal(floors: seq<nat>, order: seq<nat>, k: nat)
    requires k <= |order| && Indices(order, |floors|)
    ensures Total(AddCents(floors, order, k)) == Total(floors) + k
  {
    if k > 0 {
      AddCentsTotal(floors, order, k - 1);
      var before := AddCents(floors, order, k - 1);
      SumUpdate(before, order[k - 1], before[order[k - 1]] + 1, Cents());
    }
  }

  lemma {:induction false} AddCentsAt(rems: seq<nat>, floors: seq<nat>, order: seq<nat>, k: nat, i: nat)
    requires |rems| == |floors| && Indices(order, |rems|) && Ordered(rems, order)
    requires k <= |order| && i < |floors|
    ensures AddCents(floors, order, k)[i] == floors[i] + (if i in order[..k] then 1 else 0)
  {
    if k > 0 {
      AddCentsAt(rems, floors, order, k - 1, i);
      assert order[..k] == order[..k - 1] + [order[k - 1]];
      forall a | 0 <= a < k - 1 ensures order[a] != order[k - 1] {
        assert Before(rems, order[a], order[k - 1]);
      }
    }
  }

  /** Cents still to hand out once every line has its floor. */
  function Leftover(discount: nat, totals: seq<nat>): int
    requires Total(totals) > 0
  {
    discount - Total(Floors(discount, Total(totals), totals))
  }

  lemma {:induction false} TotalBound(values: seq<nat>, bound: nat)
    requires forall i :: 0 <= i < |values| ==> values[i] < bound
    ensures 0 <= Total(values) <= |values| * bound
  {
    if values != [] {
      TotalBound(values[..|values| - 1], bound);
      assert |values| * bound == (|values| - 1) * bound + bound;
    }
  }

  lemma LeftoverIsRemainders(discount: nat, totals: seq<nat>)
    requires Total(totals) > 0
    ensures Leftover(discount, totals) * Total(totals) == Total(Remainders(discount, Total(totals), totals))
    ensures 0 <= Leftover(discount, totals) <= |totals|
  {
    var s := Total(totals);
    var f := Total(Floors(discount, s, totals));
    SharesAddUp(discount, s, totals);
    assert (discount - f) * s == discount * s - f * s;
    TotalBound(Remainders(discount, s, totals), s);
    MultiplesInOrder(0, Leftover(discount, totals), s);
    MultiplesInOrder(Leftover(discount, totals), |totals|, s);
  }

  function OneIfPositive(): nat -> int { (x: nat) => if x > 0 then 1 else 0 }

  lemma {:induction false} TotalBelowPositives(values: seq<nat>, bound: nat)
    requires forall i :: 0 <= i < |values| ==> values[i] < bound
    ensures Total(values) <= Sum(values, OneIfPositive()) * bound
    ensures Total(values) == Sum(values, OneIfPositive()) * bound ==> Total(values) == 0
  {
    if values != [] {
      var front := values[..|values| - 1];
      var x := values[|values| - 1];
      TotalBelowPositives(front, bound);
      var p := Sum(front, OneIfPositive());
      assert (p + 1) * bound == p * bound + bound;
      SumNonNegative(front, Cents());
    }
  }

  /** Fewer cents are left over than there are lines with a fractional share to receive them. */
  lemma FewerLeftoverThanFractions(discount: nat, totals: seq<nat>)
    requires Total(totals) > 0
    ensures
      var fractions := Sum(Remainders(discount, Total(totals), totals), OneIfPositive());
      Leftover(discount, totals) < fractions || Leftover(discount, totals) == 0
  {
    var s := Total(totals);
    var rems := Remainders(discount, s, totals);
    var fractions := Sum(rems, OneIfPositive());
    LeftoverIsRemainders(discount, totals);
    TotalBelowPositives(rems, s);
    MultiplesInOrder(Leftover(discount, totals), fractions, s);
    if Leftover(discount, totals) == fractions {
      assert Leftover(discount, totals) * s == 0;
      MultiplesInOrder(Leftover(discount, totals), 0, s);
    }
  }

  /** BR-14: the sale's discount divided over its lines by the largest-remainder rule. */
  function Allocation(discount: nat, totals: seq<nat>): (r: seq<nat>)
    requires discount <= Total(totals)
    ensures |r| == |totals|
  {
    if discount == 0 || Total(totals) == 0 then seq(|totals|, _ => 0)
    else
      LeftoverIsRemainders(discount, totals);
      var s := Total(totals);
      AddCents(Floors(discount, s, totals), ByRemainder(Remainders(discount, s, totals), |totals|),
        Leftover(discount, totals))
  }

  /** A line that receives a leftover cent has a fractional share. */
  lemma LeftoverGoesToFractions(rems: seq<nat>, s: nat, leftover: nat, k: nat)
    requires forall i :: 0 <= i < |rems| ==> rems[i] < s
    requires leftover * s == Total(rems) && k < leftover <= |rems|
    ensures rems[ByRemainder(rems, |rems|)[k]] > 0
  {
    var order := ByRemainder(rems, |rems|);
    if rems[order[k]] == 0 {
      SumByRemainder(rems, |rems|);
      assert rems[..|rems|] == rems;
      NothingAfterZero(rems, order, k);
      FrontBound(rems, order[..k], s);
      MultiplesInOrder(leftover, k, s);
    }
  }

  lemma NothingAfterZero(rems: seq<nat>, order: seq<nat>, k: nat)
    requires Indices(order, |rems|) && Ordered(rems, order) && k < |order| && rems[order[k]] == 0
    ensures Sum(order, At(rems)) == Sum(order[..k], At(rems))
  {
    assert order == order[..k] + order[k..];
    SumConcat(order[..k], order[k..], At(rems));
    forall j | 0 <= j < |order[k..]| ensures At(rems)(order[k..][j]) == 0 {
      assert j > 0 ==> Before(rems, order[k], order[k + j]);
    }
    SumZero(order[k..], At(rems));
  }

  lemma {:induction false} FrontBound(rems: seq<nat>, front: seq<nat>, s: nat)
    requires Indices(front, |rems|) && forall i :: 0 <= i < |rems| ==> rems[i] < s
    ensures Sum(front, At(rems)) <= |front| * s
  {
    if front != [] {
      FrontBound(rems, front[..|front| - 1], s);
      assert |front| * s == (|front| - 1) * s + s;
    }
  }

  /** The split adds up to the discount, to the cent. */
  lemma AllocationSum(discount: nat, totals: seq<nat>)
    requires discount <= Total(totals)
    ensures Total(Allocation(discount, totals)) == discount
  {
    if discount == 0 || Total(totals) == 0 {
      SumZero(Allocation(discount, totals), Cents());
    } else {
      var s := Total(totals);
      LeftoverIsRemainders(discount, totals);
      AddCentsTotal(Floors(discount, s, totals), ByRemainder(Remainders(discount, s, totals), |totals|),
        Leftover(discount, totals));
    }
  }

  /** Where the split is not all zeros, a line gets its floor, plus a cent exactly when its turn comes. */
  lemma AllocationAt(discount: nat, totals: seq<nat>, i: nat)
    requires 0 < discount <= Total(totals) && i < |totals|
    ensures
      var rems := Remainders(discount, Total(totals), totals);
      var k := Leftover(discount, totals);
      var order := ByRemainder(rems, |totals|);
      && 0 <= k <= |order|
      && Allocation(discount, totals)[i]
        == Floors(discount, Total(totals), totals)[i] + (if i in order[..k] then 1 else 0)
      && (i in order[..k] ==> rems[i] > 0)
  {
    var s := Total(totals);
    var floors, rems := Floors(discount, s, totals), Remainders(discount, s, totals);
    var order := ByRemainder(rems, |totals|);
    LeftoverIsRemainders(discount, totals);
    var k := Leftover(discount, totals);
    AddCentsAt(rems, floors, order, k, i);
    if i in order[..k] {
      var a :| 0 <= a < k && order[a] == i;
      LeftoverGoesToFractions(rems, s, k, a);
    }
  }

  /** Between the exact share less one cent and the exact share plus one cent, so floor or ceiling. */
  predicate WithinACent(share: nat, discount: nat, subtotal: nat, total: nat) {
    (share - 1) * subtotal < discount * total < (share + 1) * subtotal
  }

  lemma CentBounds(a: nat, f: nat, r: nat, s: nat, discount: nat, total: nat)
    requires 0 < s && r < s && discount <= s && discount * total == f * s + r
    requires a == f || (a == f + 1 && r > 0)
    ensures WithinACent(a, discount, s, total) && a <= total
  {
    CeilingOrFloor(a, f, r, s);
    ShareWithinTotal(discount, s, total);
    StrictCeiling(a, total, s);
    MultiplesInOrder(a, total, s);
  }

  lemma ShareWithinTotal(discount: nat, s: nat, total: nat)
    requires discount <= s
    ensures discount * total <= total * s
  {
    Distribute(s, discount, total);
  }

  lemma CeilingOrFloor(a: nat, f: nat, r: nat, s: nat)
    requires r < s && (a == f || (a == f + 1 && r > 0))
    ensures (a - 1) * s < f * s + r < (a + 1) * s && a * s < f * s + r + s
  {
    Distribute(f, 1, s);
    Distribute(a, 1, s);
  }

  lemma StrictCeiling(a: nat, total: nat, s: nat)
    requires 0 < s && a * s < total * s + s
    ensures a * s <= total * s
  {
    if a > total {
      Distribute(a, total, s);
      AtLeastOne(a - total, s);
    } else {
      Distribute(total, a, s);
    }
  }

  /**
   * Each line gets its exact share rounded down or up to the cent, never more than its own
   * total, and nothing when its total is zero.
   */
  lemma AllocationShare(discount: nat, totals: seq<nat>, i: nat)
    requires discount <= Total(totals) && i < |totals|
    ensures
      var a := Allocation(discount, totals)[i];
      && (Total(totals) > 0 ==> WithinACent(a, discount, Total(totals), totals[i]))
      && a <= totals[i]
  {
    var s := Total(totals);
    if s > 0 {
      var f, r := Floor(discount, s, totals[i]), Remainder(discount, s, totals[i]);
      if discount > 0 {
        AllocationAt(discount, totals, i);
        CentBounds(Allocation(discount, totals)[i], f, r, s, discount, totals[i]);
      } else {
        CentBounds(0, 0, 0, s, 0, totals[i]);
      }
    }
  }

  /** A strictly larger line never gets less than a smaller one. */
  lemma AllocationMonotone(discount: nat, totals: seq<nat>, i: nat, j: nat)
    requires discount <= Total(totals) && i < |totals| && j < |totals|
    requires totals[i] > totals[j]
    ensures Allocation(discount, totals)[i] >= Allocation(discount, totals)[j]
  {
    if discount > 0 {
      var s := Total(totals);
      var rems := Remainders(discount, s, totals);
      AllocationAt(discount, totals, i);
      AllocationAt(discount, totals, j);
      FloorMonotone(discount, s, totals[j], totals[i]);
      var floors := Floors(discount, s, totals);
      var order := ByRemainder(rems, |totals|);
      var k := Leftover(discount, totals);
      if j in order[..k] && floors[i] == floors[j] {
        LargerGoesFirst(rems, order, k, i, j);
      }
    }
  }

  lemma LargerGoesFirst(rems: seq<nat>, order: seq<nat>, k: nat, i: nat, j: nat)
    requires Indices(order, |rems|) && Ordered(rems, order) && k <= |order|
    requires i < |rems| && j < |rems| && (rems[i] > rems[j] || (rems[i] == rems[j] && i < j))
    requires i in order && j in order[..k]
    ensures i in order[..k]
  {
    var b :| 0 <= b < k && order[b] == j;
    var a :| 0 <= a < |order| && order[a] == i;
    assert a <= b;
    assert order[..k][a] == i;
  }

  /** Leftover cents go to the largest fractions, and to the earlier line where two are equal. */
  lemma LargestRemainderFirst(discount: nat, totals: seq<nat>, i: nat, j: nat)
    requires discount <= Total(totals) && 0 < Total(totals) && i < |totals| && j < |totals|
    requires
      var fi, fj := (discount * totals[i]) % Total(totals), (discount * totals[j]) % Total(totals);
      fi > fj || (fi == fj && i < j)
    ensures
      Allocation(discount, totals)[i] - (discount * totals[i]) / Total(totals)
      >= Allocation(discount, totals)[j] - (discount * totals[j]) / Total(totals)
  {
    var s := Total(totals);
    ExactShare(discount, s, totals[i]);
    ExactShare(discount, s, totals[j]);
    if discount > 0 {
      var rems := Remainders(discount, s, totals);
      AllocationAt(discount, totals, i);
      AllocationAt(discount, totals, j);
      var order := ByRemainder(rems, |totals|);
      var k := Leftover(discount, totals);
      if j in order[..k] { LargerGoesFirst(rems, order, k, i, j); }
    }
  }

  lemma ExactShare(discount: nat, s: nat, total: nat)
    requires s > 0
    ensures Floor(discount, s, total) == (discount * total) / s
    ensures Remainder(discount, s, total) == (discount * total) % s
    ensures discount == 0 ==> (discount * total) / s == 0
  {
  }

  lemma FloorMonotone(discount: nat, s: nat, small: nat, large: nat)
    requires 0 < discount && 0 < s && small < large
    ensures Floor(discount, s, small) <= Floor(discount, s, large)
    ensures Floor(discount, s, small) == Floor(discount, s, large) ==>
      Remainder(discount, s, small) < Remainder(discount, s, large)
  {
    Distribute(large, small, discount);
    AtLeastOne(large - small, discount);
    QuotientMonotone(Floor(discount, s, small), Remainder(discount, s, small), Floor(discount, s, large),
      Remainder(discount, s, large), s);
  }

  lemma QuotientMonotone(f: nat, q: nat, g: nat, r: nat, s: nat)
    requires q < s && r < s && f * s + q < g * s + r
    ensures f <= g && (f == g ==> q < r)
  {
    if f > g {
      Distribute(f, g, s);
      AtLeastOne(f - g, s);
    }
  }

  method FloorShares(
    discount: nat, subtotal: nat, totals: seq<nat>) returns (floors: seq<nat>, rems: seq<nat>, given: nat)
    requires subtotal > 0
    ensures floors == Floors(discount, subtotal, totals) && rems == Remainders(discount, subtotal, totals)
    ensures given == Total(floors)
  {
    floors, rems, given := [], [], 0;
    for i := 0 to |totals|
      invariant floors == Floors(discount, subtotal, totals[..i])
      invariant rems == Remainders(discount, subtotal, totals[..i])
      invariant given == Total(floors)
    {
      var floor := Floor(discount, subtotal, totals[i]);
      SumAppend<nat>(floors, floor, Cents());
      floors := floors + [floor];
      rems := rems + [Remainder(discount, subtotal, totals[i])];
      given := given + floor;
    }
    assert totals[..|totals|] == totals;
  }

  /** The split as the service computes it: floors first, then the leftover cents one by one. */
  method AllocateDiscount(discount: nat, totals: seq<nat>) returns (r: Result<seq<nat>, ()>)
    ensures r.Ok? <==> totals == [] || discount == 0 || Total(totals) == 0 || discount <= Total(totals)
    ensures r.Ok? && discount <= Total(totals) ==> r.value == Allocation(discount, totals)
    ensures r.Ok? && discount > Total(totals) ==> r.value == seq(|totals|, _ => 0)
  {
    if totals == [] { return Ok([]); }
    var subtotal := Total(totals);
    SumNonNegative(totals, Cents());
    if discount == 0 || subtotal == 0 {
      return Ok(seq(|totals|, _ => 0));
    }
    if discount > subtotal { return Err(()); }
    var floors, rems, given := FloorShares(discount, subtotal, totals);
    LeftoverIsRemainders(discount, totals);
    var leftover := discount - given;
    var byRemainder := ByRemainder(rems, |totals|);
    ghost var start := floors;
    for k := 0 to leftover
      invariant |floors| == |totals|
      invariant floors == AddCents(start, byRemainder, k)
    {
      var i := byRemainder[k];
      floors := floors[i := floors[i] + 1];
    }
    return Ok(floors);
  }
}
