/** Shared vocabulary: optional values, operation outcomes, and sums over ledgers. */
module Prelude {

  datatype Option<+T> = None | Some(value: T)

  datatype Result<+T, +E> = Ok(value: T) | Err(error: E)

  // The refusals of the shop services; a refused operation is rolled back whole.
  datatype Fault =
    | NotFound | ProductArchived | CustomerArchived | Untracked | InsufficientStock
    | AlreadyStocked | HasStock | HasMovements | DiscountExceedsSubtotal | PaymentsDoNotBalance
    | CreditLimitExceeded | NegativeBalance | ZeroAmount | IdempotencyConflict | AlreadyVoided
    | InvalidTransition | AlreadyExists | Invalid | PermissionDenied | SaleInFuture | OutsideBackdateWindow

  // Identifiers are UUIDs compared bytewise in the source; only their order and identity matter.
  type Id = nat

  /** An idempotency key: sent by a client, or derived from a message; the derivation is injective. */
  datatype Key = Client(uuid: nat) | Derived(namespace: nat, message: nat)

  // Amounts and quantities the request schemas require to be positive.
  type pos = n: nat | n > 0 witness 1

  /** Sum of `f` over a ledger, defined from its newest row so that appending unfolds it once. */
  function Sum<T>(s: seq<T>, f: T -> int): int {
    if s == [] then 0 else Sum(s[..|s| - 1], f) + f(s[|s| - 1])
  }

  lemma SumAppend<T>(s: seq<T>, x: T, f: T -> int)
    ensures Sum(s + [x], f) == Sum(s, f) + f(x)
  {
    assert (s + [x])[..|s|] == s;
  }

  lemma {:induction false} SumConcat<T>(a: seq<T>, b: seq<T>, f: T -> int)
    ensures Sum(a + b, f) == Sum(a, f) + Sum(b, f)
  {
    if b == [] {
      assert a + b == a;
    } else {
      var last := |b| - 1;
      SumConcat(a, b[..last], f);
      assert a + b == (a + b[..last]) + [b[last]];
      SumAppend(a + b[..last], b[last], f);
    }
  }

  lemma {:induction false} SumUpdate<T>(s: seq<T>, i: nat, x: T, f: T -> int)
    requires i < |s|
    ensures Sum(s[i := x], f) == Sum(s, f) - f(s[i]) + f(x)
  {
    assert s == s[..i] + [s[i]] + s[i + 1..];
    assert s[i := x] == s[..i] + [x] + s[i + 1..];
    SumConcat(s[..i] + [s[i]], s[i + 1..], f);
    SumConcat(s[..i] + [x], s[i + 1..], f);
    SumAppend(s[..i], s[i], f);
    SumAppend(s[..i], x, f);
  }

  lemma {:induction false} SumSame<T>(s: seq<T>, f: T -> int, g: T -> int)
    requires forall i :: 0 <= i < |s| ==> f(s[i]) == g(s[i])
    ensures Sum(s, f) == Sum(s, g)
  {
    if s != [] {
      SumSame(s[..|s| - 1], f, g);
    }
  }

  lemma {:induction false} SumZero<T>(s: seq<T>, f: T -> int)
    requires forall i :: 0 <= i < |s| ==> f(s[i]) == 0
    ensures Sum(s, f) == 0
  {
    if s != [] {
      SumZero(s[..|s| - 1], f);
    }
  }

  lemma {:induction false} SumNonNegative<T>(s: seq<T>, f: T -> int)
    requires forall i :: 0 <= i < |s| ==> f(s[i]) >= 0
    ensures Sum(s, f) >= 0
    ensures forall i :: 0 <= i < |s| ==> f(s[i]) <= Sum(s, f)
  {
    if s != [] {
      SumNonNegative(s[..|s| - 1], f);
      forall i | 0 <= i < |s|
        ensures f(s[i]) <= Sum(s, f)
      {
        assert i < |s| - 1 ==> s[i] == s[..|s| - 1][i];
      }
    }
  }

  /** Rows that do not concern `f` can be appended without changing its sum. */
  lemma {:induction false} SumUnconcerned<T>(a: seq<T>, b: seq<T>, f: T -> int)
    requires a <= b && forall i :: |a| <= i < |b| ==> f(b[i]) == 0
    ensures Sum(b, f) == Sum(a, f)
  {
    assert b == a + b[|a|..];
    SumConcat(a, b[|a|..], f);
    SumZero(b[|a|..], f);
  }

  /** Two sequences whose terms agree one by one. */
  lemma {:induction false} SumMatched<A, B>(s: seq<A>, t: seq<B>, f: A -> int, g: B -> int)
    requires |s| == |t| && forall i :: 0 <= i < |s| ==> f(s[i]) == g(t[i])
    ensures Sum(s, f) == Sum(t, g)
  {
    if s != [] { SumMatched(s[..|s| - 1], t[..|t| - 1], f, g); }
  }

  /** Sums of rows taken in any order agree: the rows form a multiset. */
  lemma {:induction false} SumPermuted<T>(a: seq<T>, b: seq<T>, f: T -> int)
    requires multiset(a) == multiset(b)
    ensures Sum(a, f) == Sum(b, f)
  {
    if a == [] {
      assert |b| == |multiset(b)| == 0;
    } else {
      var last := |a| - 1;
      var x := a[last];
      assert a == a[..last] + [x];
      assert x in multiset(b);
      var k :| 0 <= k < |b| && b[k] == x;
      var rest := b[..k] + b[k + 1..];
      assert b == b[..k] + [x] + b[k + 1..];
      assert multiset(rest) == multiset(b) - multiset{x};
      assert multiset(a[..last]) == multiset(a) - multiset{x};
      SumPermuted(a[..last], rest, f);
      SumConcat(b[..k], b[k + 1..], f);
      SumConcat(b[..k] + [x], b[k + 1..], f);
      SumAppend(b[..k], x, f);
    }
  }

  /** Half-up rounding to a whole unit of a value given in thousandths: ties go away from zero. */
  function RoundHalfUp(milli: int): (r: int)
    ensures -500 <= 1000 * r - milli <= 500
    ensures 1000 * r - milli == 500 ==> milli > 0
    ensures 1000 * r - milli == -500 ==> milli < 0
  {
    if milli >= 0 then (milli + 500) / 1000 else -((-milli + 500) / 1000)
  }

  predicate Ascending(s: seq<nat>) {
    forall i, j :: 0 <= i < j < |s| ==> s[i] < s[j]
  }

  predicate IsLeast(m: nat, s: set<nat>) {
    m in s && forall x :: x in s ==> m <= x
  }

  lemma LeastExists(s: set<nat>)
    requires s != {}
    ensures exists m :: IsLeast(m, s)
  {
    var x :| x in s;
    var rest := s - {x};
    if rest == {} {
      assert s == {x};
      assert IsLeast(x, s);
    } else {
      LeastExists(rest);
      var m :| IsLeast(m, rest);
      assert forall y :: y in s ==> y == x || y in rest;
      assert IsLeast(if x < m then x else m, s);
    }
  }

  lemma LeastInFront(least: nat, rest: seq<nat>)
    requires Ascending(rest) && forall x :: x in rest ==> least < x
    ensures Ascending([least] + rest)
  {
    assert forall i :: 0 <= i < |rest| ==> rest[i] in rest;
  }

  /** The members of a set of row ids in ascending order: `sorted(ids)` and `ORDER BY id`. */
  function InOrder(s: set<nat>): (r: seq<nat>)
    ensures forall x :: x in r <==> x in s
    ensures Ascending(r)
  {
    if s == {} then []
    else
      LeastExists(s);
      var least :| IsLeast(least, s);
      var rest := InOrder(s - {least});
      LeastInFront(least, rest);
      [least] + rest
  }
}
