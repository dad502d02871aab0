/**
 * The sliding-window rate limiter (backend/app/core/ratelimit.py). The class prunes and sweeps
 * its buckets; it is proved to answer as a limiter that keeps every accepted attempt for ever,
 * and the promises to callers are proved of that one. Times are seconds of a monotone clock.
 */
module RateLimiter {
  import opened Prelude

  datatype Attempt = Attempt(key: string, at: real)

  /** The key carries its scope, and each scope has one limit. */
  datatype Config = Config(window: real, limit: string -> nat)

  ghost predicate ConfigOk(cfg: Config) {
    cfg.window > 0.0 && forall key :: cfg.limit(key) >= 1
  }

  // --- the limiter that forgets nothing -------------------------------------------------------------

  /** The attempts later than the cutoff, in order. */
  function Recent(s: seq<real>, cutoff: real): seq<real> {
    if s == [] then []
    else
      var last := s[|s| - 1];
      Recent(s[..|s| - 1], cutoff) + (if last > cutoff then [last] else [])
  }

  /** None to accept; otherwise the seconds until the oldest counted attempt leaves the window. */
  function Judge(accepted: seq<real>, now: real, limit: nat, window: real): Option<real>
    requires limit >= 1
  {
    var counted := Recent(accepted, now - window);
    if |counted| >= limit then
      var wait := counted[0] + window - now;
      Some(if wait > 0.0 then wait else 0.0)
    else None
  }

  /** Every attempt of a key that was ever accepted: rejected ones are not counted. */
  ghost function Accepted(cfg: Config, attempts: seq<Attempt>, key: string): seq<real>
    requires ConfigOk(cfg)
  {
    if attempts == [] then []
    else
      var before := Accepted(cfg, attempts[..|attempts| - 1], key);
      var last := attempts[|attempts| - 1];
      if last.key == key && Judge(before, last.at, cfg.limit(key), cfg.window).None? then before + [last.at] else before
  }

  predicate Sorted(s: seq<real>) {
    forall i, j :: 0 <= i < j < |s| ==> s[i] <= s[j]
  }

  predicate UpTo(s: seq<real>, now: real) {
    forall i :: 0 <= i < |s| ==> s[i] <= now
  }

  predicate Monotone(attempts: seq<Attempt>) {
    forall i, j :: 0 <= i < j < |attempts| ==> attempts[i].at <= attempts[j].at
  }

  // --- recent attempts ------------------------------------------------------------------------------

  lemma RecentAppend(s: seq<real>, x: real, cutoff: real)
    ensures Recent(s + [x], cutoff) == Recent(s, cutoff) + (if x > cutoff then [x] else [])
  {
    assert (s + [x])[..|s|] == s;
  }

  lemma {:induction false} RecentConcat(a: seq<real>, b: seq<real>, cutoff: real)
    ensures Recent(a + b, cutoff) == Recent(a, cutoff) + Recent(b, cutoff)
    ensures |Recent(b, cutoff)| <= |b|
  {
    if b == [] {
      assert a + b == a;
    } else {
      var front, last := b[..|b| - 1], b[|b| - 1];
      RecentConcat(a, front, cutoff);
      assert a + b == (a + front) + [last];
      RecentAppend(a + front, last, cutoff);
    }
  }

  lemma {:induction false} RecentAllOrNone(s: seq<real>, cutoff: real)
    ensures (forall i :: 0 <= i < |s| ==> s[i] > cutoff) ==> Recent(s, cutoff) == s
    ensures (forall i :: 0 <= i < |s| ==> s[i] <= cutoff) ==> Recent(s, cutoff) == []
  {
    if s != [] {
      RecentAllOrNone(s[..|s| - 1], cutoff);
      assert s == s[..|s| - 1] + [s[|s| - 1]];
    }
  }

  lemma {:induction false} RecentOfRecent(s: seq<real>, cutoff: real, later: real)
    requires cutoff <= later
    ensures Recent(Recent(s, cutoff), later) == Recent(s, later)
  {
    if s != [] {
      var last := s[|s| - 1];
      RecentOfRecent(s[..|s| - 1], cutoff, later);
      RecentAppend(Recent(s[..|s| - 1], cutoff), last, later);
      assert Recent(s[..|s| - 1], cutoff) + [] == Recent(s[..|s| - 1], cutoff);
    }
  }

  /** Dropping an expired attempt from the front changes no count. */
  lemma RecentDropsExpired(s: seq<real>, cutoff: real)
    requires s != [] && s[0] <= cutoff
    ensures Recent(s[1..], cutoff) == Recent(s, cutoff)
  {
    assert s == [s[0]] + s[1..];
    RecentConcat([s[0]], s[1..], cutoff);
    RecentAllOrNone([s[0]], cutoff);
  }

  lemma RecentSplit(s: seq<real>, k: nat, cutoff: real)
    requires k <= |s|
    ensures Recent(s, cutoff) == Recent(s[..k], cutoff) + Recent(s[k..], cutoff)
    ensures |Recent(s[k..], cutoff)| <= |s| - k
  {
    assert s == s[..k] + s[k..];
    RecentConcat(s[..k], s[k..], cutoff);
  }

  lemma RecentAround(s: seq<real>, k: nat, cutoff: real)
    requires Sorted(s) && k < |s|
    ensures s[k] > cutoff ==> Recent(s[k..], cutoff) == s[k..]
    ensures s[k] <= cutoff ==> Recent(s[..k + 1], cutoff) == []
  {
    RecentAllOrNone(s[k..], cutoff);
    RecentAllOrNone(s[..k + 1], cutoff);
  }

  /** In a sorted history the n-th last attempt decides whether at least n are recent. */
  lemma NthLastDecides(s: seq<real>, n: nat, cutoff: real)
    requires Sorted(s) && n >= 1
    ensures |Recent(s, cutoff)| >= n <==> |s| >= n && s[|s| - n] > cutoff
    ensures |Recent(s, cutoff)| == n ==> |s| >= n && Recent(s, cutoff) == s[|s| - n..]
  {
    hide Recent, Sorted;
    if |s| >= n {
      RecentAround(s, |s| - n, cutoff);
      RecentSplit(s, |s| - n, cutoff);
      RecentSplit(s, |s| - n + 1, cutoff);
    } else {
      RecentSplit(s, 0, cutoff);
      assert s[0..] == s;
    }
  }

  lemma JudgeByNthLast(s: seq<real>, now: real, limit: nat, window: real)
    requires Sorted(s) && limit >= 1
    ensures Judge(s, now, limit, window).Some? <==> |s| >= limit && s[|s| - limit] > now - window
  {
    NthLastDecides(s, limit, now - window);
  }

  // --- what the history keeps -----------------------------------------------------------------------

  /** Any `limit` + 1 accepted attempts span at least one window. */
  predicate Spaced(s: seq<real>, limit: nat, window: real) {
    forall i :: limit <= i < |s| ==> s[i - limit] <= s[i] - window
  }

  lemma AppendKeepsSpaced(s: seq<real>, x: real, limit: nat, window: real)
    requires Sorted(s) && UpTo(s, x) && Spaced(s, limit, window) && limit >= 1
    requires |s| >= limit ==> s[|s| - limit] <= x - window
    ensures Sorted(s + [x]) && UpTo(s + [x], x) && Spaced(s + [x], limit, window)
  {
  }

  lemma {:induction false} AcceptedIsSpaced(cfg: Config, attempts: seq<Attempt>, key: string, now: real)
    requires ConfigOk(cfg) && Monotone(attempts) && (attempts != [] ==> attempts[|attempts| - 1].at <= now)
    ensures
      var s := Accepted(cfg, attempts, key);
      Sorted(s) && UpTo(s, now) && Spaced(s, cfg.limit(key), cfg.window)
  {
    hide Judge, Spaced;
    if attempts == [] {
      NothingIsSpaced(cfg.limit(key), cfg.window);
    } else {
      var front, last := attempts[..|attempts| - 1], attempts[|attempts| - 1];
      AcceptedIsSpaced(cfg, front, key, last.at);
      var before := Accepted(cfg, front, key);
      JudgeByNthLast(before, last.at, cfg.limit(key), cfg.window);
      if last.key == key && Judge(before, last.at, cfg.limit(key), cfg.window).None? {
        AppendKeepsSpaced(before, last.at, cfg.limit(key), cfg.window);
      }
    }
  }

  lemma NothingIsSpaced(limit: nat, window: real)
    ensures Spaced([], limit, window)
  {
  }

  /** The attempts of a history that fall into a window. */
  function Within(s: seq<real>, from: real, to: real): seq<real> {
    if s == [] then []
    else
      var last := s[|s| - 1];
      Within(s[..|s| - 1], from, to) + (if from < last <= to then [last] else [])
  }

  lemma {:induction false} WithinIsRecent(s: seq<real>, from: real, to: real)
    ensures |Within(s, from, to)| <= |Recent(s, from)|
  {
    if s != [] { WithinIsRecent(s[..|s| - 1], from, to); }
  }

  lemma {:induction false} SpacedWithin(s: seq<real>, limit: nat, window: real, end: real)
    requires Sorted(s) && Spaced(s, limit, window) && limit >= 1
    ensures |Within(s, end - window, end)| <= limit
  {
    if s != [] {
      var front, last := s[..|s| - 1], s[|s| - 1];
      SpacedWithin(front, limit, window, end);
      if last <= end {
        WithinIsRecent(front, end - window, end);
        assert |s| > limit ==> s[|s| - 1 - limit] <= last - window;
        NthLastDecides(front, limit, end - window);
      }
    }
  }

  /** No window, wherever it lies, holds more than `limit` accepted attempts of a key. */
  lemma NoWindowHoldsMore(cfg: Config, attempts: seq<Attempt>, key: string, end: real)
    requires ConfigOk(cfg) && Monotone(attempts)
    ensures |Within(Accepted(cfg, attempts, key), end - cfg.window, end)| <= cfg.limit(key)
  {
    AcceptedIsSpaced(cfg, attempts, key, if attempts == [] then 0.0 else attempts[|attempts| - 1].at);
    SpacedWithin(Accepted(cfg, attempts, key), cfg.limit(key), cfg.window, end);
  }

  // --- waiting --------------------------------------------------------------------------------------

  /** While every attempt comes before `until`, a key that is full until then gets nothing accepted. */
  lemma {:induction false} FullUntil(cfg: Config, before: seq<Attempt>, between: seq<Attempt>, key: string, until: real)
    requires ConfigOk(cfg) && Sorted(Accepted(cfg, before, key))
    requires forall i :: 0 <= i < |between| && between[i].key == key ==> between[i].at < until
    requires
      var s := Accepted(cfg, before, key);
      |s| >= cfg.limit(key) && s[|s| - cfg.limit(key)] + cfg.window == until
    ensures Accepted(cfg, before + between, key) == Accepted(cfg, before, key)
  {
    hide Judge, Sorted;
    if between == [] {
      assert before + between == before;
    } else {
      var n := |between| - 1;
      assert (before + between)[..|before + between| - 1] == before + between[..n];
      FullUntil(cfg, before, between[..n], key, until);
      JudgeByNthLast(Accepted(cfg, before, key), between[n].at, cfg.limit(key), cfg.window);
    }
  }

  /** The advertised wait ends when the limit-th last accepted attempt leaves the window. */
  lemma RetryValue(s: seq<real>, now: real, limit: nat, window: real)
    requires Sorted(s) && Spaced(s, limit, window) && UpTo(s, now) && limit >= 1 && Judge(s, now, limit, window).Some?
    ensures |s| >= limit
    ensures
      var retry := Judge(s, now, limit, window).value;
      retry > 0.0 && now + retry == s[|s| - limit] + window
  {
    assert |s| > limit ==> s[|s| - (limit + 1)] <= s[|s| - 1] - window;
    NthLastDecides(s, limit + 1, now - window);
    NthLastDecides(s, limit, now - window);
  }

  predicate Before(attempts: seq<Attempt>, key: string, until: real) {
    forall i :: 0 <= i < |attempts| && attempts[i].key == key ==> attempts[i].at < until
  }

  /**
   * A rejected caller told to wait `retry` seconds: whatever is attempted in the meantime, an
   * attempt before that is rejected, and the first one at or after it is accepted.
   */
  lemma RetryAfterIsExact(cfg: Config, before: seq<Attempt>, between: seq<Attempt>, key: string, now: real, t: real)
    requires ConfigOk(cfg) && Monotone(before) && (before != [] ==> before[|before| - 1].at <= now)
    requires Judge(Accepted(cfg, before, key), now, cfg.limit(key), cfg.window).Some?
    requires Before(between, key, now + Judge(Accepted(cfg, before, key), now, cfg.limit(key), cfg.window).value)
    ensures
      var retry := Judge(Accepted(cfg, before, key), now, cfg.limit(key), cfg.window).value;
      var later := Accepted(cfg, before + [Attempt(key, now)] + between, key);
      && retry > 0.0
      && (Judge(later, t, cfg.limit(key), cfg.window).Some? <==> t < now + retry)
  {
    hide Judge, Sorted, Spaced, Accepted;
    var s, limit := Accepted(cfg, before, key), cfg.limit(key);
    var retry := Judge(s, now, limit, cfg.window).value;
    AcceptedIsSpaced(cfg, before, key, now);
    RetryValue(s, now, limit, cfg.window);
    var rest := [Attempt(key, now)] + between;
    assert before + [Attempt(key, now)] + between == before + rest;
    FullUntil(cfg, before, rest, key, now + retry);
    JudgeByNthLast(s, t, limit, cfg.window);
  }

  /** The Retry-After header: whole seconds, rounded up past the wait (backend/app/api/deps.py:77-79). */
  function RetryAfterSeconds(retry: real): (seconds: int)
    requires retry >= 0.0
    ensures seconds >= 1 && seconds as real >= retry && (seconds as real) <= retry + 1.0
  {
    if retry.Floor + 1 > 1 then retry.Floor + 1 else 1
  }

  /** Waiting the advertised whole seconds is always enough. */
  lemma WaitingSecondsIsEnough(cfg: Config, before: seq<Attempt>, between: seq<Attempt>, key: string, now: real)
    requires ConfigOk(cfg) && Monotone(before) && (before != [] ==> before[|before| - 1].at <= now)
    requires Judge(Accepted(cfg, before, key), now, cfg.limit(key), cfg.window).Some?
    requires Before(between, key, now + Judge(Accepted(cfg, before, key), now, cfg.limit(key), cfg.window).value)
    ensures
      var retry := Judge(Accepted(cfg, before, key), now, cfg.limit(key), cfg.window).value;
      var t := now + RetryAfterSeconds(retry) as real;
      Judge(Accepted(cfg, before + [Attempt(key, now)] + between, key), t, cfg.limit(key), cfg.window).None?
  {
    var retry := Judge(Accepted(cfg, before, key), now, cfg.limit(key), cfg.window).value;
    RetryAfterIsExact(cfg, before, between, key, now, now + RetryAfterSeconds(retry) as real);
  }

  // --- the limiter that runs ------------------------------------------------------------------------

  function Bucket(hits: map<string, seq<real>>, key: string): seq<real> { if key in hits then hits[key] else [] }

  const SWEEP_THRESHOLD: nat := 10_000

  /** A bucket without an attempt in the window. */
  predicate Stale(bucket: seq<real>, cutoff: real) { bucket == [] || bucket[|bucket| - 1] <= cutoff }

  lemma StaleHasNothingRecent(bucket: seq<real>, cutoff: real)
    requires Sorted(bucket) && Stale(bucket, cutoff)
    ensures Recent(bucket, cutoff) == []
  {
    NthLastDecides(bucket, 1, cutoff);
  }

  /** A bucket still holds every accepted attempt that counts from `now` on, and none from the future. */
  ghost predicate Faithful(cfg: Config, attempts: seq<Attempt>, hits: map<string, seq<real>>, key: string, now: real)
    requires ConfigOk(cfg)
  {
    && Sorted(Bucket(hits, key)) && UpTo(Bucket(hits, key), now)
    && Recent(Bucket(hits, key), now - cfg.window) == Recent(Accepted(cfg, attempts, key), now - cfg.window)
  }

  ghost predicate AllFaithful(cfg: Config, attempts: seq<Attempt>, hits: map<string, seq<real>>, now: real)
    requires ConfigOk(cfg)
  {
    forall key :: Faithful(cfg, attempts, hits, key, now)
  }

  class Limiter {
    const cfg: Config
    var hits: map<string, seq<real>>
    ghost var attempts: seq<Attempt>

    /** Buckets may have forgotten attempts, but none that any later attempt could count. */
    ghost predicate Valid()
      reads this
    {
      && ConfigOk(cfg) && Monotone(attempts)
      && (attempts == [] ==> hits == map[])
      && (attempts != [] ==> AllFaithful(cfg, attempts, hits, attempts[|attempts| - 1].at))
    }

    constructor (cfg: Config)
      requires ConfigOk(cfg)
      ensures Valid() && attempts == [] && this.cfg == cfg
    {
      this.cfg := cfg;
      hits := map[];
      attempts := [];
    }

    /** Records one attempt and answers as the limiter that forgets nothing would. */
    method Hit(key: string, now: real) returns (retry: Option<real>)
      requires Valid() && (attempts != [] ==> attempts[|attempts| - 1].at <= now)
      modifies this
      ensures Valid() && attempts == old(attempts) + [Attempt(key, now)]
      ensures retry == Judge(Accepted(cfg, old(attempts), key), now, cfg.limit(key), cfg.window)
      ensures retry.None? && |hits| > SWEEP_THRESHOLD ==> forall k :: k in hits ==> !Stale(hits[k], now - cfg.window)
    {
      hide Judge, Recent, Accepted, Sorted, UpTo;
      var cutoff := now - cfg.window;
      AtLater(cfg, attempts, hits, now);
      assert Faithful(cfg, attempts, hits, key, now);
      var bucket := Pruned(Bucket(hits, key), cutoff, now);
      JudgeOfBucket(Accepted(cfg, attempts, key), bucket, now, cfg.limit(key), cfg.window);
      ghost var before := attempts;
      attempts := attempts + [Attempt(key, now)];
      if |bucket| >= cfg.limit(key) {
        var wait := bucket[0] + cfg.window - now;
        retry := Some(if wait > 0.0 then wait else 0.0);
        hits := hits[key := bucket];
        RejectedStaysFaithful(cfg, before, old(hits), bucket, key, now);
      } else {
        retry := None;
        hits := hits[key := bucket + [now]];
        AcceptedStaysFaithful(cfg, before, old(hits), bucket, key, now);
        if |hits| > SWEEP_THRESHOLD {
          Sweep(cutoff, now);
        }
      }
    }

    /** Drops the buckets that no later attempt can count. */
    method Sweep(cutoff: real, ghost now: real)
      requires ConfigOk(cfg) && cutoff == now - cfg.window && AllFaithful(cfg, attempts, hits, now)
      modifies this`hits
      ensures AllFaithful(cfg, attempts, hits, now)
      ensures hits.Keys == set k | k in old(hits) && !Stale(old(hits)[k], cutoff)
      ensures forall k :: k in hits ==> hits[k] == old(hits)[k]
    {
      var stale := set k | k in hits && Stale(hits[k], cutoff);
      var todo := stale;
      while todo != {}
        invariant todo <= stale && hits == old(hits) - (stale - todo)
        decreases todo
      {
        var k :| k in todo;
        hits := hits - {k};
        todo := todo - {k};
      }
      SweptStaysFaithful(cfg, attempts, old(hits), hits, now);
    }
  }

  lemma JudgeOfBucket(accepted: seq<real>, bucket: seq<real>, now: real, limit: nat, window: real)
    requires limit >= 1 && bucket == Recent(accepted, now - window)
    ensures Judge(accepted, now, limit, window).Some? <==> |bucket| >= limit
    ensures |bucket| >= limit ==>
      Judge(accepted, now, limit, window)
        == Some(if bucket[0] + window - now > 0.0 then bucket[0] + window - now else 0.0)
  {
  }

  /** Pops the attempts that have left the window off the front of the deque. */
  method Pruned(full: seq<real>, cutoff: real, ghost now: real) returns (bucket: seq<real>)
    requires Sorted(full) && UpTo(full, now)
    ensures bucket == Recent(full, cutoff) && Sorted(bucket) && UpTo(bucket, now)
  {
    bucket := full;
    while bucket != [] && bucket[0] <= cutoff
      invariant Sorted(bucket) && Recent(bucket, cutoff) == Recent(full, cutoff)
      invariant UpTo(bucket, now)
      decreases |bucket|
    {
      RecentDropsExpired(bucket, cutoff);
      bucket := bucket[1..];
    }
    RecentAllOrNone(bucket, cutoff);
  }

  lemma SweptStaysFaithful(
    cfg: Config, attempts: seq<Attempt>, hits: map<string, seq<real>>, hits': map<string, seq<real>>, now: real)
    requires ConfigOk(cfg) && AllFaithful(cfg, attempts, hits, now)
    requires hits' == hits - set k | k in hits && Stale(hits[k], now - cfg.window)
    ensures AllFaithful(cfg, attempts, hits', now)
  {
    forall key ensures Faithful(cfg, attempts, hits', key, now) {
      assert Faithful(cfg, attempts, hits, key, now);
      if key in hits && key !in hits' { StaleHasNothingRecent(hits[key], now - cfg.window); }
    }
  }

  lemma StillFaithful(
    cfg: Config, attempts: seq<Attempt>, hits: map<string, seq<real>>, key: string, was: real, now: real)
    requires ConfigOk(cfg) && was <= now && Faithful(cfg, attempts, hits, key, was)
    ensures Faithful(cfg, attempts, hits, key, now)
  {
    hide Recent, Accepted, Sorted;
    RecentOfRecent(Bucket(hits, key), was - cfg.window, now - cfg.window);
    RecentOfRecent(Accepted(cfg, attempts, key), was - cfg.window, now - cfg.window);
  }

  /** What counts now is part of what counted at the previous attempt. */
  lemma AtLater(cfg: Config, attempts: seq<Attempt>, hits: map<string, seq<real>>, now: real)
    requires ConfigOk(cfg)
    requires attempts == [] ==> hits == map[]
    requires attempts != [] ==>
      attempts[|attempts| - 1].at <= now && AllFaithful(cfg, attempts, hits, attempts[|attempts| - 1].at)
    ensures AllFaithful(cfg, attempts, hits, now)
  {
    hide Faithful;
    forall key ensures Faithful(cfg, attempts, hits, key, now) {
      if attempts == [] { FreshIsFaithful(cfg, key, now); }
      else { StillFaithful(cfg, attempts, hits, key, attempts[|attempts| - 1].at, now); }
    }
  }

  lemma FreshIsFaithful(cfg: Config, key: string, now: real)
    requires ConfigOk(cfg)
    ensures Faithful(cfg, [], map[], key, now)
  {
  }

  lemma RejectedStaysFaithful(
    cfg: Config, before: seq<Attempt>, hits: map<string, seq<real>>, bucket: seq<real>, key: string, now: real)
    requires ConfigOk(cfg) && AllFaithful(cfg, before, hits, now)
    requires Judge(Accepted(cfg, before, key), now, cfg.limit(key), cfg.window).Some?
    requires bucket == Recent(Accepted(cfg, before, key), now - cfg.window) && Sorted(bucket) && UpTo(bucket, now)
    ensures AllFaithful(cfg, before + [Attempt(key, now)], hits[key := bucket], now)
  {
    hide Judge, Recent, Sorted;
    var after := before + [Attempt(key, now)];
    assert after[..|before|] == before;
    var hits' := hits[key := bucket];
    forall k ensures Faithful(cfg, after, hits', k, now) {
      assert Faithful(cfg, before, hits, k, now);
      RecentOfRecent(Accepted(cfg, before, k), now - cfg.window, now - cfg.window);
    }
  }

  lemma AcceptedStaysFaithful(
    cfg: Config, before: seq<Attempt>, hits: map<string, seq<real>>, bucket: seq<real>, key: string, now: real)
    requires ConfigOk(cfg) && AllFaithful(cfg, before, hits, now)
    requires Judge(Accepted(cfg, before, key), now, cfg.limit(key), cfg.window).None?
    requires bucket == Recent(Accepted(cfg, before, key), now - cfg.window) && Sorted(bucket) && UpTo(bucket, now)
    ensures AllFaithful(cfg, before + [Attempt(key, now)], hits[key := bucket + [now]], now)
  {
    hide Judge, Recent, Sorted;
    var after := before + [Attempt(key, now)];
    assert after[..|before|] == before;
    SortedAppend(bucket, now);
    var hits' := hits[key := bucket + [now]];
    forall k ensures Faithful(cfg, after, hits', k, now) {
      assert Faithful(cfg, before, hits, k, now);
      RecentOfRecent(Accepted(cfg, before, k), now - cfg.window, now - cfg.window);
      if k == key {
        RecentAppend(Accepted(cfg, before, k), now, now - cfg.window);
        RecentAppend(bucket, now, now - cfg.window);
      }
    }
  }

  lemma SortedAppend(s: seq<real>, x: real)
    requires Sorted(s) && UpTo(s, x)
    ensures Sorted(s + [x])
  {
  }
}
