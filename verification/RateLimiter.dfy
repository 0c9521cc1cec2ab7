/** The sliding-window limit on plan submissions. */
module RateLimiting {

  const WINDOW: real := 60.0

  /** Drop the old timestamps at the front. */
  function Purge(dq: seq<real>, cutoff: real): (r: seq<real>)
    ensures |r| <= |dq|
  {
    if dq != [] && dq[0] < cutoff then Purge(dq[1..], cutoff) else dq
  }

  function Queue(hits: map<string, seq<real>>, client: string): seq<real> {
    if client in hits then hits[client] else []
  }

  /** The new table, and whether the request is refused. */
  function Admit(max: int, hits: map<string, seq<real>>, client: string, now: real): (map<string, seq<real>>, bool) {
    var dq := Purge(Queue(hits, client), now - WINDOW);
    if |dq| >= max then (hits[client := dq], true) else (hits[client := dq + [now]], false)
  }

  class RateLimiter {
    const max: int
    var hits: map<string, seq<real>>

    constructor (max: int)
      ensures this.max == max && hits == map[]
    {
      this.max, hits := max, map[];
    }

    /** `_is_rate_limited`, at time `now`. */
    method IsRateLimited(client: string, now: real) returns (limited: bool)
      modifies this
      ensures (hits, limited) == Admit(max, old(hits), client, now)
      ensures forall c | c != client :: Queue(hits, c) == Queue(old(hits), c)
    {
      if client !in hits {
        hits := hits[client := []];
      }
      var dq := hits[client];
      while dq != [] && dq[0] < now - WINDOW
        invariant Purge(dq, now - WINDOW) == Purge(Queue(old(hits), client), now - WINDOW)
        invariant forall c | c != client :: Queue(hits, c) == Queue(old(hits), c)
        invariant hits == old(hits)[client := Queue(old(hits), client)]
        decreases |dq|
      {
        dq := dq[1..];
      }
      limited := |dq| >= max;
      hits := hits[client := if limited then dq else dq + [now]];
      assert hits == old(hits)[client := if limited then dq else dq + [now]];
    }
  }

  // ---- Runs ----

  datatype Request = Request(client: string, time: real)

  ghost predicate Chronological(rs: seq<Request>) {
    forall i, j | 0 <= i <= j < |rs| :: rs[i].time <= rs[j].time
  }

  function RunAll(max: int, rs: seq<Request>): map<string, seq<real>> {
    if rs == [] then map[]
    else Admit(max, RunAll(max, rs[..|rs| - 1]), rs[|rs| - 1].client, rs[|rs| - 1].time).0
  }

  /** Is request `i` refused? */
  predicate Refused(max: int, rs: seq<Request>, i: nat)
    requires i < |rs|
  {
    Admit(max, RunAll(max, rs[..i]), rs[i].client, rs[i].time).1
  }

  /** The times of the client's accepted requests. */
  function Accepted(max: int, rs: seq<Request>, client: string): seq<real> {
    if rs == [] then []
    else
      var n := |rs| - 1;
      Accepted(max, rs[..n], client) + (if rs[n].client == client && !Refused(max, rs, n) then [rs[n].time] else [])
  }

  ghost predicate Sorted(ts: seq<real>) {
    forall i, j | 0 <= i <= j < |ts| :: ts[i] <= ts[j]
  }

  /** Positions of `ts` whose times lie in the closed interval. */
  ghost function Within(ts: seq<real>, lo: real, hi: real): set<nat> {
    set i: nat | i < |ts| && lo <= ts[i] <= hi
  }

  lemma {:induction false} PurgeSorted(ts: seq<real>, c: real)
    requires Sorted(ts)
    ensures var k := |ts| - |Purge(ts, c)|;
      Purge(ts, c) == ts[k..] && (forall i | 0 <= i < k :: ts[i] < c) && (forall i | k <= i < |ts| :: c <= ts[i])
  {
    if ts != [] && ts[0] < c {
      PurgeSorted(ts[1..], c);
      forall i | 0 < i < |ts| ensures ts[i] == ts[1..][i - 1] {}
    }
  }

  /** The queue is a tail of the accepted times; what is missing was too old at time `t` already. */
  ghost predicate IsTail(q: seq<real>, a: seq<real>, t: real) {
    && |q| <= |a| && q == a[|a| - |q|..]
    && forall i | 0 <= i < |a| - |q| :: a[i] < t - WINDOW
  }

  ghost predicate IsSplit(a: seq<real>, c: real, k: nat) {
    k <= |a| && (forall i | 0 <= i < k :: a[i] < c) && (forall i | k <= i < |a| :: c <= a[i])
  }

  lemma SplitUnique(a: seq<real>, c: real, j: nat, k: nat)
    requires IsSplit(a, c, j) && IsSplit(a, c, k)
    ensures j == k
  {
    assert j < |a| ==> c <= a[j];
    assert k < |a| ==> c <= a[k];
  }

  /** Splitting a tail splits the whole, when what is missing comes before the split. */
  lemma SplitShift(q: seq<real>, a: seq<real>, c: real, k: nat)
    requires |q| <= |a| && q == a[|a| - |q|..] && (forall i | 0 <= i < |a| - |q| :: a[i] < c) && IsSplit(q, c, k)
    ensures IsSplit(a, c, |a| - |q| + k) && q[k..] == a[|a| - |q| + k..]
  {
    var d := |a| - |q|;
    forall i | d <= i < |a| ensures a[i] == q[i - d] {}
  }

  lemma PurgeTail(q: seq<real>, a: seq<real>, t: real, now: real)
    requires Sorted(a) && IsTail(q, a, t) && t <= now
    ensures Purge(q, now - WINDOW) == Purge(a, now - WINDOW)
    ensures IsTail(Purge(q, now - WINDOW), a, now)
  {
    var c := now - WINDOW;
    PurgeSorted(a, c);
    PurgeSorted(q, c);
    SplitShift(q, a, c, |q| - |Purge(q, c)|);
    SplitUnique(a, c, |a| - |Purge(a, c)|, |a| - |q| + (|q| - |Purge(q, c)|));
  }

  lemma {:induction false} AcceptedSorted(max: int, rs: seq<Request>, client: string, now: real)
    requires Chronological(rs) && (rs != [] ==> rs[|rs| - 1].time <= now)
    ensures var a := Accepted(max, rs, client); Sorted(a) && forall i | 0 <= i < |a| :: a[i] <= now
  {
    if rs != [] {
      AcceptedSorted(max, rs[..|rs| - 1], client, rs[|rs| - 1].time);
    }
  }

  lemma TailAppend(q: seq<real>, a: seq<real>, t: real)
    requires IsTail(q, a, t)
    ensures IsTail(q + [t], a + [t], t)
  {
    assert q + [t] == (a + [t])[|a| - |q|..];
  }

  lemma TailLater(q: seq<real>, a: seq<real>, t: real, now: real)
    requires IsTail(q, a, t) && t <= now
    ensures IsTail(q, a, now)
  {
  }

  /** A request of another client, one that is refused, or one that is accepted. */
  ghost predicate IsStep(q: seq<real>, a: seq<real>, q': seq<real>, a': seq<real>, t: real) {
    (q' == q && a' == a) || (q' == Purge(q, t - WINDOW) && a' == a) || (q' == Purge(q, t - WINDOW) + [t] && a' == a + [t])
  }

  lemma TailStep(q: seq<real>, a: seq<real>, q': seq<real>, a': seq<real>, t: real, now: real)
    requires Sorted(a) && IsTail(q, a, t) && t <= now && IsStep(q, a, q', a', t)
    ensures IsTail(q', a', now)
  {
    PurgeTail(q, a, t, t);
    TailAppend(Purge(q, t - WINDOW), a, t);
    TailLater(q', a', t, now);
  }

  /** What the last request does to a client's queue and accepted times. */
  lemma QueueStep(max: int, rs: seq<Request>, client: string)
    requires rs != []
    ensures var n := |rs| - 1;
      var q, a := Queue(RunAll(max, rs[..n]), client), Accepted(max, rs[..n], client);
      var q', a' := Queue(RunAll(max, rs), client), Accepted(max, rs, client);
      var kept := Purge(q, rs[n].time - WINDOW);
      if rs[n].client != client then q' == q && a' == a
      else if Refused(max, rs, n) then q' == kept && a' == a
      else q' == kept + [rs[n].time] && a' == a + [rs[n].time]
  {
  }

  lemma {:induction false} QueueIsTail(max: int, rs: seq<Request>, client: string, now: real)
    requires Chronological(rs) && (rs != [] ==> rs[|rs| - 1].time <= now)
    ensures IsTail(Queue(RunAll(max, rs), client), Accepted(max, rs, client), now)
  {
    if rs != [] {
      var n := |rs| - 1;
      ChronologicalInit(rs);
      QueueIsTail(max, rs[..n], client, rs[n].time);
      AcceptedSorted(max, rs[..n], client, rs[n].time);
      LastRequest(max, rs, client, now);
    }
  }

  lemma QueueIsStep(max: int, rs: seq<Request>, client: string)
    requires rs != []
    ensures var before := rs[..|rs| - 1];
      IsStep(Queue(RunAll(max, before), client), Accepted(max, before, client),
             Queue(RunAll(max, rs), client), Accepted(max, rs, client), rs[|rs| - 1].time)
  {
    QueueStep(max, rs, client);
  }

  lemma LastRequest(max: int, rs: seq<Request>, client: string, now: real)
    requires rs != [] && rs[|rs| - 1].time <= now
    requires var before := rs[..|rs| - 1];
      Sorted(Accepted(max, before, client)) && IsTail(Queue(RunAll(max, before), client), Accepted(max, before, client), rs[|rs| - 1].time)
    ensures IsTail(Queue(RunAll(max, rs), client), Accepted(max, rs, client), now)
  {
    var before := rs[..|rs| - 1];
    QueueIsStep(max, rs, client);
    TailStep(Queue(RunAll(max, before), client), Accepted(max, before, client),
             Queue(RunAll(max, rs), client), Accepted(max, rs, client), rs[|rs| - 1].time, now);
  }

  lemma ChronologicalInit(rs: seq<Request>)
    requires Chronological(rs) && rs != []
    ensures Chronological(rs[..|rs| - 1]) && (|rs| > 1 ==> rs[..|rs| - 1][|rs| - 2].time <= rs[|rs| - 1].time)
  {
  }

  /** `kept` is the part of `a` from `lo` on, and nothing in `a` is after `hi`. */
  ghost predicate IsRecent(kept: seq<real>, a: seq<real>, lo: real, hi: real) {
    && |kept| <= |a| && kept == a[|a| - |kept|..]
    && (forall i | 0 <= i < |a| - |kept| :: a[i] < lo)
    && (forall i | |a| - |kept| <= i < |a| :: lo <= a[i] <= hi)
  }

  lemma PurgeIsRecent(q: seq<real>, a: seq<real>, now: real)
    requires Sorted(a) && IsTail(q, a, now) && forall i | 0 <= i < |a| :: a[i] <= now
    ensures IsRecent(Purge(q, now - WINDOW), a, now - WINDOW, now)
  {
    PurgeTail(q, a, now, now);
    PurgeSorted(a, now - WINDOW);
  }

  /** What the limiter counts: the accepted times since `now - 60`. */
  lemma CountedExactly(max: int, rs: seq<Request>, client: string, now: real)
    requires Chronological(rs) && (rs != [] ==> rs[|rs| - 1].time <= now)
    ensures IsRecent(Purge(Queue(RunAll(max, rs), client), now - WINDOW), Accepted(max, rs, client), now - WINDOW, now)
  {
    QueueIsTail(max, rs, client, now);
    AcceptedSorted(max, rs, client, now);
    PurgeIsRecent(Queue(RunAll(max, rs), client), Accepted(max, rs, client), now);
  }

  /** A request is refused exactly when at least `max` accepted ones of its client lie in [now - 60, now]. */
  lemma RefusedExactly(max: int, rs: seq<Request>, i: nat)
    requires Chronological(rs) && i < |rs|
    ensures Refused(max, rs, i)
      <==> |Within(Accepted(max, rs[..i], rs[i].client), rs[i].time - 60.0, rs[i].time)| >= max
  {
    var now, a := rs[i].time, Accepted(max, rs[..i], rs[i].client);
    var kept := Purge(Queue(RunAll(max, rs[..i]), rs[i].client), now - WINDOW);
    CountedExactly(max, rs[..i], rs[i].client, now);
    WithinTail(a, |a| - |kept|, now - WINDOW, now);
  }

  lemma WithinTail(a: seq<real>, k: nat, lo: real, hi: real)
    requires k <= |a|
    requires (forall i | 0 <= i < k :: a[i] < lo) && forall i | k <= i < |a| :: lo <= a[i] <= hi
    ensures |Within(a, lo, hi)| == |a| - k
  {
    assert Within(a, lo, hi) == Range(k, |a|);
  }

  ghost function Range(lo: nat, hi: nat): (r: set<nat>)
    requires lo <= hi
    ensures |r| == hi - lo && forall j :: j in r <==> lo <= j < hi
  {
    if lo == hi then {} else Range(lo, hi - 1) + {hi - 1}
  }

  /** Times `max` apart in order are more than a window apart. */
  ghost predicate Spread(a: seq<real>, max: int) {
    (max <= 0 ==> a == []) && forall i, j | 0 <= i < j < |a| && j - i >= max :: a[j] - a[i] > WINDOW
  }

  lemma SpreadWithin(a: seq<real>, max: int, i: nat, j: nat)
    requires Spread(a, max) && max > 0 && i <= j < |a| && a[j] - a[i] <= WINDOW
    ensures j < i + max
  {
  }

  lemma SpreadStep(a: seq<real>, kept: seq<real>, t: real, max: int)
    requires Spread(a, max) && IsRecent(kept, a, t - WINDOW, t) && |kept| < max
    ensures Spread(a + [t], max)
  {
    forall i, j | 0 <= i < j < |a + [t]| && j - i >= max ensures (a + [t])[j] - (a + [t])[i] > WINDOW {
      if j == |a| {
        assert i < |a| - |kept|;
      }
    }
  }

  lemma HasRoom(max: int, rs: seq<Request>, i: nat)
    requires i < |rs|
    ensures Refused(max, rs, i) <==> |Purge(Queue(RunAll(max, rs[..i]), rs[i].client), rs[i].time - WINDOW)| >= max
  {
  }

  lemma {:induction false} AcceptedSpread(max: int, rs: seq<Request>, client: string)
    requires Chronological(rs)
    ensures Spread(Accepted(max, rs, client), max)
  {
    if rs != [] {
      var n := |rs| - 1;
      AcceptedSpread(max, rs[..n], client);
      QueueStep(max, rs, client);
      if rs[n].client == client && !Refused(max, rs, n) {
        CountedExactly(max, rs[..n], client, rs[n].time);
        HasRoom(max, rs, n);
        SpreadStep(Accepted(max, rs[..n], client), Purge(Queue(RunAll(max, rs[..n]), client), rs[n].time - WINDOW), rs[n].time, max);
      }
    }
  }

  /** The limit: in every run, for every client, any closed window holds at most `max` accepted requests. */
  lemma WindowBound(max: int, rs: seq<Request>, client: string, start: real)
    requires Chronological(rs)
    ensures |Within(Accepted(max, rs, client), start, start + 60.0)| <= if max > 0 then max else 0
  {
    var a := Accepted(max, rs, client);
    var w := Within(a, start, start + WINDOW);
    AcceptedSpread(max, rs, client);
    if max > 0 && w != {} {
      AcceptedSorted(max, rs, client, if rs == [] then 0.0 else rs[|rs| - 1].time);
      var lo := Least(w);
      forall i | i in w ensures lo <= i < lo + max {
        SpreadWithin(a, max, lo, i);
      }
      assert w <= Range(lo, lo + max);
      SubsetSize(w, Range(lo, lo + max));
    }
  }

  lemma Least(s: set<nat>) returns (m: nat)
    requires s != {}
    ensures m in s && forall x | x in s :: m <= x
    decreases |s|
  {
    var x :| x in s;
    if s == {x} {
      m := x;
    } else {
      var r := Least(s - {x});
      m := if x < r then x else r;
      assert s == (s - {x}) + {x};
    }
  }

  lemma SubsetSize(a: set<nat>, b: set<nat>)
    requires a <= b
    ensures |a| <= |b|
  {
    assert b == a + (b - a);
  }
}
