/**
 * The sales export (backend/app/services/sales.py:525-545): the table is read in keyset pages,
 * each starting after the last row of the one before.
 */
module Export {
  import opened Prelude
  import opened SaleRecords

  /** Position of a sale in export order: oldest first, ties by id. */
  datatype Position = Position(at: int, id: nat)

  predicate Before(a: Position, b: Position) {
    a.at < b.at || (a.at == b.at && a.id < b.id)
  }

  predicate InOrderOf(s: seq<Position>) {
    forall i, j :: 0 <= i < j < |s| ==> Before(s[i], s[j])
  }

  predicate IsFirst(p: Position, s: set<Position>) {
    p in s && forall q :: q in s ==> p == q || Before(p, q)
  }

  lemma {:induction false} FirstExists(s: set<Position>)
    requires s != {}
    ensures exists p :: IsFirst(p, s)
  {
    var x :| x in s;
    var rest := s - {x};
    if rest == {} {
      assert s == {x};
      assert IsFirst(x, s);
    } else {
      FirstExists(rest);
      var p :| IsFirst(p, rest);
      assert forall y :: y in s ==> y == x || y in rest;
      assert IsFirst(if Before(x, p) then x else p, s);
    }
  }

  lemma FirstInFront(first: Position, rest: seq<Position>)
    requires InOrderOf(rest) && forall p :: p in rest ==> Before(first, p)
    ensures InOrderOf([first] + rest)
  {
    assert forall i :: 0 <= i < |rest| ==> rest[i] in rest;
  }

  /** ORDER BY sold_at, id. */
  function Ordered(s: set<Position>): (r: seq<Position>)
    ensures forall p :: p in r <==> p in s
    ensures InOrderOf(r)
  {
    if s == {} then []
    else
      FirstExists(s);
      var first :| IsFirst(first, s);
      var rest := Ordered(s - {first});
      FirstInFront(first, rest);
      [first] + rest
  }

  /** There is only one way to list a set of rows in order. */
  lemma {:induction false} OneOrder(a: seq<Position>, b: seq<Position>)
    requires InOrderOf(a) && InOrderOf(b) && forall p :: p in a <==> p in b
    ensures a == b
  {
    assert b != [] ==> b[0] in b;
    if a != [] {
      assert a[0] in b && (b != [] ==> b[0] in a);
      assert a[0] == b[0];
      forall p ensures p in a[1..] <==> p in b[1..] {
        assert p in a <==> p == a[0] || p in a[1..];
        assert p in b <==> p == b[0] || p in b[1..];
      }
      OneOrder(a[1..], b[1..]);
      assert a == [a[0]] + a[1..] && b == [b[0]] + b[1..];
    }
  }

  // --- the query ----------------------------------------------------------------------------------

  datatype Bounds = Bounds(from: Option<int>, until: Option<int>)

  predicate Within(at: int, bounds: Bounds) {
    (bounds.from.Some? ==> at >= bounds.from.value) && (bounds.until.Some? ==> at < bounds.until.value)
  }

  /** The rows of the table in the period; voided sales are exported too. */
  function Matching(table: seq<Sale>, bounds: Bounds): set<Position> {
    set i | 0 <= i < |table| && Within(table[i].soldAt, bounds) :: Position(table[i].soldAt, i)
  }

  function Later(s: set<Position>, after: Option<Position>): set<Position> {
    set p | p in s && (after.Some? ==> Before(after.value, p))
  }

  function Take(s: seq<Position>, n: nat): seq<Position> { if |s| <= n then s else s[..n] }

  /** One keyset page. */
  function Batch(table: seq<Sale>, bounds: Bounds, after: Option<Position>, size: nat): seq<Position> {
    Take(Ordered(Later(Matching(table, bounds), after)), size)
  }

  // --- the loop -----------------------------------------------------------------------------------

  lemma LaterIndex(s: seq<Position>, j: nat, k: nat)
    requires InOrderOf(s) && j < |s| && k < |s| && Before(s[j], s[k])
    ensures j < k
  {
  }

  /** What comes after the n-th row of a listing is the rest of the listing. */
  lemma RestAfter(s: set<Position>, n: nat)
    requires 0 < n <= |Ordered(s)|
    ensures Ordered(Later(s, Some(Ordered(s)[n - 1]))) == Ordered(s)[n..]
  {
    var all := Ordered(s);
    var rest := Ordered(Later(s, Some(all[n - 1])));
    forall p ensures p in rest <==> p in all[n..] {
      if p in all[n..] {
        var k :| n <= k < |all| && all[k] == p;
        assert p in all && Before(all[n - 1], all[k]);
      }
      if p in rest {
        assert p in all && Before(all[n - 1], p);
        var k :| 0 <= k < |all| && all[k] == p;
        LaterIndex(all, n - 1, k);
        assert all[n..][k - n] == p;
      }
    }
    OneOrder(rest, all[n..]);
  }

  lemma PagesFollow(s: set<Position>, n: nat, size: nat)
    requires n <= |Ordered(s)|
    ensures
      var after := if n == 0 then None else Some(Ordered(s)[n - 1]);
      Take(Ordered(Later(s, after)), size) == Take(Ordered(s)[n..], size)
  {
    if n == 0 {
      assert Later(s, None) == s;
      assert Ordered(s)[0..] == Ordered(s);
    } else {
      RestAfter(s, n);
    }
  }

  lemma PageExtends(all: seq<Position>, n: nat, size: nat)
    requires n <= |all| && size > 0
    ensures
      var batch := Take(all[n..], size);
      && n + |batch| <= |all| && all[..n] + batch == all[..n + |batch|]
      && (|batch| < size ==> all[..n] + batch == all)
      && (|batch| >= size ==> batch[|batch| - 1] == all[n + |batch| - 1])
  {
  }

  /**
   * The pages put together are the matching rows, each exactly once, oldest first, for any table
   * and any page size (the source uses 200): also when the number of rows is a multiple of it.
   */
  method IterExport(table: seq<Sale>, bounds: Bounds, size: pos) returns (rows: seq<Position>)
    ensures rows == Ordered(Matching(table, bounds))
  {
    hide Ordered, Matching, Take;
    ghost var all := Ordered(Matching(table, bounds));
    rows := [];
    var after: Option<Position> := None;
    var more := true;
    while more
      invariant |rows| <= |all| && rows == all[..|rows|]
      invariant more ==> after == if |rows| == 0 then None else Some(all[|rows| - 1])
      invariant !more ==> rows == all
      decreases more, |all| - |rows|
    {
      PagesFollow(Matching(table, bounds), |rows|, size);
      PageExtends(all, |rows|, size);
      var batch := Batch(table, bounds, after, size);
      rows := rows + batch;
      if |batch| < size {
        more := false;
      } else {
        after := Some(batch[|batch| - 1]);
      }
    }
  }

  /** Sold at or after the start and before the end, where they are given. */
  predicate InRange(at: int, from: Option<int>, until: Option<int>) {
    && (match from case Some(start) => start <= at case None => true)
    && (match until case Some(end) => at < end case None => true)
  }

  /** The listing names every sale of the period once and nothing else, oldest first, and by id where two are as old. */
  lemma ListingIsComplete(table: seq<Sale>, bounds: Bounds, i: nat)
    ensures
      var listing := Ordered(Matching(table, bounds));
      && ((i < |table| && InRange(table[i].soldAt, bounds.from, bounds.until))
          <==> exists k :: 0 <= k < |listing| && listing[k].id == i)
      && (forall k :: 0 <= k < |listing| ==> listing[k].id < |table| && listing[k].at == table[listing[k].id].soldAt)
      && (forall j, k :: 0 <= j < k < |listing| ==>
            listing[j].at < listing[k].at || (listing[j].at == listing[k].at && listing[j].id < listing[k].id))
  {
    hide Ordered;
    var listing := Ordered(Matching(table, bounds));
    if i < |table| && Within(table[i].soldAt, bounds) {
      assert Position(table[i].soldAt, i) in Matching(table, bounds);
      var k :| 0 <= k < |listing| && listing[k] == Position(table[i].soldAt, i);
    }
    forall k | 0 <= k < |listing| ensures listing[k] in Matching(table, bounds) {}
    forall j, k | 0 <= j < k < |listing|
      ensures listing[j].at < listing[k].at || (listing[j].at == listing[k].at && listing[j].id < listing[k].id)
    {
      assert Before(listing[j], listing[k]);
    }
  }
}
