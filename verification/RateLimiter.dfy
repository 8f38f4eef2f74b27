/** The sliding-window limiter: a pruned queue of accepted calls per key. */
module RateLimiter {

  /** Drops entries from the front while they are no later than the cutoff. */
  function Prune(q: seq<real>, cutoff: real): seq<real> {
    if q != [] && q[0] <= cutoff then Prune(q[1..], cutoff) else q
  }

  /** One call on a key's queue: the answer and the queue it leaves. */
  function Call(q: seq<real>, limit: int, window: real, now: real): (bool, seq<real>) {
    var kept := Prune(q, now - window);
    if |kept| >= limit then (false, kept) else (true, kept + [now])
  }

  class Limiter<Key(==)> {
    var hits: map<Key, seq<real>>

    constructor ()
      ensures hits == map[]
    {
      hits := map[];
    }

    method Allow(key: Key, limit: int, window: real, now: real) returns (allowed: bool)
      modifies this
      ensures var call := Call(if key in old(hits) then old(hits)[key] else [], limit, window, now);
              allowed == call.0 && hits == old(hits)[key := call.1]
    {
      var q := if key in hits then hits[key] else [];
      ghost var start := q;
      while q != [] && q[0] <= now - window
        invariant Prune(q, now - window) == Prune(start, now - window)
      {
        q := q[1..];
      }
      if |q| >= limit {
        hits := hits[key := q];
        return false;
      }
      hits := hits[key := q + [now]];
      return true;
    }
  }

  // ------------------------------------------------------------ sequences of calls

  /** What a sequence of calls on one key leaves: its queue, every accepted time, every answer. */
  datatype Trace = Trace(queue: seq<real>, accepted: seq<real>, answers: seq<bool>)

  const START := Trace([], [], [])

  function After(t: Trace, limit: int, window: real, now: real): Trace {
    var call := Call(t.queue, limit, window, now);
    Trace(call.1, if call.0 then t.accepted + [now] else t.accepted, t.answers + [call.0])
  }

  function Play(times: seq<real>, limit: int, window: real): Trace {
    if times == [] then START else After(Play(times[..|times| - 1], limit, window), limit, window, times[|times| - 1])
  }

  /** Number of hits in the half-open window (lo, hi]. */
  function CountIn(hits: seq<real>, lo: real, hi: real): nat {
    if hits == [] then 0
    else CountIn(hits[..|hits| - 1], lo, hi) + if lo < hits[|hits| - 1] <= hi then 1 else 0
  }

  predicate Nondecreasing(s: seq<real>) {
    forall i, j :: 0 <= i <= j < |s| ==> s[i] <= s[j]
  }

  lemma {:induction false} PruneSplits(q: seq<real>, cutoff: real) returns (k: nat)
    ensures k <= |q| && Prune(q, cutoff) == q[k..]
    ensures forall i :: 0 <= i < k ==> q[i] <= cutoff
    ensures k < |q| ==> q[k] > cutoff
  {
    k := 0;
    if q != [] && q[0] <= cutoff {
      var j := PruneSplits(q[1..], cutoff);
      k := j + 1;
      forall i | 0 <= i < k ensures q[i] <= cutoff {
        if i > 0 { assert q[1..][i - 1] == q[i]; }
      }
      assert k < |q| ==> q[1..][j] == q[k];
    }
  }

  /** When the first `k` hits are too early and the rest are inside, the count is the rest. */
  lemma {:induction false} CountTail(hits: seq<real>, k: nat, lo: real, hi: real)
    requires k <= |hits|
    requires forall i :: 0 <= i < k ==> hits[i] <= lo
    requires forall i :: k <= i < |hits| ==> lo < hits[i] <= hi
    ensures CountIn(hits, lo, hi) == |hits| - k
  {
    if hits != [] {
      CountTail(hits[..|hits| - 1], if k == |hits| then k - 1 else k, lo, hi);
    }
  }

  /** The queue is the end of the accepted times; everything before it is outside every later window. */
  ghost predicate Tracks(t: Trace, window: real, last: real) {
    && |t.queue| <= |t.accepted| && t.queue == t.accepted[|t.accepted| - |t.queue|..]
    && Nondecreasing(t.accepted)
    && (forall i :: 0 <= i < |t.accepted| ==> t.accepted[i] <= last)
    && (forall i :: 0 <= i < |t.accepted| - |t.queue| ==> t.accepted[i] <= last - window)
  }

  lemma NondecreasingAppend(s: seq<real>, x: real)
    requires Nondecreasing(s) && forall i :: 0 <= i < |s| ==> s[i] <= x
    ensures Nondecreasing(s + [x])
  {
  }

  /** The accepted hits split into those outside the window that ends at `now` and the pruned queue. */
  lemma WindowSplits(t: Trace, window: real, now: real) returns (k: nat)
    requires Tracks(t, window, now)
    ensures k <= |t.accepted| && Prune(t.queue, now - window) == t.accepted[k..]
    ensures forall i :: 0 <= i < k ==> t.accepted[i] <= now - window
    ensures forall i :: k <= i < |t.accepted| ==> now - window < t.accepted[i] <= now
  {
    var j := PruneSplits(t.queue, now - window);
    var d := |t.accepted| - |t.queue|;
    k := d + j;
    assert t.queue[j..] == t.accepted[k..];
    forall i | 0 <= i < k ensures t.accepted[i] <= now - window {
      if i >= d { assert t.queue[i - d] == t.accepted[i]; }
    }
    if k < |t.accepted| {
      assert t.queue[j] == t.accepted[k];
    }
  }

  /** One call at a time not before the last: its answer counts all accepted hits of its window. */
  lemma CallCounts(t: Trace, limit: int, window: real, now: real)
    requires Tracks(t, window, now)
    ensures Call(t.queue, limit, window, now).0 <==> CountIn(t.accepted, now - window, now) < limit
  {
    var k := WindowSplits(t, window, now);
    CountTail(t.accepted, k, now - window, now);
  }

  lemma CallKeepsTracks(t: Trace, limit: int, window: real, now: real)
    requires Tracks(t, window, now)
    ensures Tracks(After(t, limit, window, now), window, now)
  {
    var k := WindowSplits(t, window, now);
    NondecreasingAppend(t.accepted, now);
    CallTracks(t, limit, window, now, k);
  }

  lemma CallTracks(t: Trace, limit: int, window: real, now: real, k: nat)
    requires k <= |t.accepted| && Prune(t.queue, now - window) == t.accepted[k..]
    requires Nondecreasing(t.accepted) && Nondecreasing(t.accepted + [now])
    requires forall i :: 0 <= i < k ==> t.accepted[i] <= now - window
    requires forall i :: 0 <= i < |t.accepted| ==> t.accepted[i] <= now
    ensures Tracks(After(t, limit, window, now), window, now)
  {
    var kept := t.accepted[k..];
    if |kept| >= limit {
      TracksFrom(After(t, limit, window, now), k, window, now);
    } else {
      var all := t.accepted + [now];
      assert all[k..] == kept + [now];
      assert forall i :: 0 <= i < |all| ==> all[i] <= now;
      assert forall i :: 0 <= i < k ==> all[i] == t.accepted[i];
      TracksFrom(Trace(kept + [now], all, t.answers + [true]), k, window, now);
    }
  }

  lemma TracksFrom(t: Trace, k: nat, window: real, now: real)
    requires k <= |t.accepted| && t.queue == t.accepted[k..] && Nondecreasing(t.accepted)
    requires forall i :: 0 <= i < |t.accepted| ==> t.accepted[i] <= now
    requires forall i :: 0 <= i < k ==> t.accepted[i] <= now - window
    ensures Tracks(t, window, now)
  {
  }

  lemma {:induction false} PlayTracks(times: seq<real>, limit: int, window: real, now: real)
    requires Nondecreasing(times + [now])
    ensures Tracks(Play(times, limit, window), window, now)
  {
    if times != [] {
      var n := |times| - 1;
      assert times == times[..n] + [times[n]] == (times + [now])[..n + 1];
      assert (times + [now])[n] <= (times + [now])[n + 1];
      PrefixNondecreasing(times + [now], n + 1);
      PlayTracks(times[..n], limit, window, times[n]);
      CallKeepsTracks(Play(times[..n], limit, window), limit, window, times[n]);
    }
  }

  lemma PrefixNondecreasing(s: seq<real>, n: nat)
    requires Nondecreasing(s) && n <= |s|
    ensures Nondecreasing(s[..n])
  {
  }

  /** With a clock that never goes back, the answer to each further call is the answer of counting all
      past accepted hits in the window that ends now. */
  lemma AnswersAreExact(times: seq<real>, limit: int, window: real, now: real)
    requires Nondecreasing(times + [now])
    ensures var before := Play(times, limit, window);
            Play(times + [now], limit, window).answers
                == before.answers + [CountIn(before.accepted, now - window, now) < limit]
  {
    PlayTracks(times, limit, window, now);
    PlayAppend(times, limit, window, now);
    CallCounts(Play(times, limit, window), limit, window, now);
  }

  lemma PlayAppend(times: seq<real>, limit: int, window: real, now: real)
    ensures Play(times + [now], limit, window) == After(Play(times, limit, window), limit, window, now)
  {
  }

  lemma {:induction false} CountMonotone(hits: seq<real>, lo: real, hi: real, lo': real, hi': real)
    requires lo' <= lo && forall i :: 0 <= i < |hits| ==> hits[i] <= hi'
    ensures CountIn(hits, lo, hi) <= CountIn(hits, lo', hi')
  {
    if hits != [] {
      CountMonotone(hits[..|hits| - 1], lo, hi, lo', hi');
    }
  }

  /** No half-open window of the limiter's length, wherever it ends, holds more than `limit` accepted calls. */
  lemma {:induction false} WindowsHoldAtMostLimit(times: seq<real>, limit: int, window: real, t: real)
    requires Nondecreasing(times)
    ensures CountIn(Play(times, limit, window).accepted, t - window, t) <= if limit > 0 then limit else 0
  {
    if times != [] {
      var n := |times| - 1;
      var before, now := Play(times[..n], limit, window), times[n];
      assert times[..n] + [now] == times;
      PrefixNondecreasing(times, n);
      WindowsHoldAtMostLimit(times[..n], limit, window, t);
      PlayTracks(times[..n], limit, window, now);
      CallCounts(before, limit, window, now);
      CountAfter(before, limit, window, now, t);
    }
  }

  lemma CountAfter(before: Trace, limit: int, window: real, now: real, t: real)
    requires Tracks(before, window, now)
    requires Call(before.queue, limit, window, now).0 ==> CountIn(before.accepted, now - window, now) < limit
    requires CountIn(before.accepted, t - window, t) <= if limit > 0 then limit else 0
    ensures CountIn(After(before, limit, window, now).accepted, t - window, t) <= if limit > 0 then limit else 0
  {
    var all := After(before, limit, window, now).accepted;
    if all != before.accepted {
      assert all == before.accepted + [now] && all[..|all| - 1] == before.accepted;
      if t - window < now <= t {
        CountMonotone(before.accepted, t - window, t, now - window, now);
      }
    }
  }

  /** When the clock goes back, the pruned queue has forgotten hits that are in the window again. */
  lemma ClockGoingBackOverfills()
    ensures var t := Play([0.0, 0.0, 20.0, 5.0], 2, 10.0);
            t.answers == [true, true, true, true] && CountIn(t.accepted, -5.0, 5.0) == 3
  {
    OverfilledTrace();
    OverfilledCount();
  }

  lemma OverfilledTrace()
    ensures Play([0.0, 0.0, 20.0, 5.0], 2, 10.0) == Trace([20.0, 5.0], [0.0, 0.0, 20.0, 5.0], [true, true, true, true])
  {
    PlayAppend([], 2, 10.0, 0.0);
    assert [] + [0.0] == [0.0];
    PlayAppend([0.0], 2, 10.0, 0.0);
    assert [0.0] + [0.0] == [0.0, 0.0];
    PlayAppend([0.0, 0.0], 2, 10.0, 20.0);
    assert [0.0, 0.0] + [20.0] == [0.0, 0.0, 20.0];
    QueueForgets();
    PlayAppend([0.0, 0.0, 20.0], 2, 10.0, 5.0);
    assert [0.0, 0.0, 20.0] + [5.0] == [0.0, 0.0, 20.0, 5.0];
  }

  lemma QueueForgets()
    ensures Prune([0.0, 0.0], 10.0) == []
  {
  }

  lemma OverfilledCount()
    ensures CountIn([0.0, 0.0, 20.0, 5.0], -5.0, 5.0) == 3
  {
    CountAppend([], 0.0, -5.0, 5.0);
    CountAppend([0.0], 0.0, -5.0, 5.0);
    CountAppend([0.0, 0.0], 20.0, -5.0, 5.0);
    CountAppend([0.0, 0.0, 20.0], 5.0, -5.0, 5.0);
    assert [] + [0.0] == [0.0] && [0.0] + [0.0] == [0.0, 0.0];
    assert [0.0, 0.0] + [20.0] == [0.0, 0.0, 20.0] && [0.0, 0.0, 20.0] + [5.0] == [0.0, 0.0, 20.0, 5.0];
  }

  lemma CountAppend(hits: seq<real>, now: real, lo: real, hi: real)
    ensures CountIn(hits + [now], lo, hi) == CountIn(hits, lo, hi) + if lo < now <= hi then 1 else 0
  {
  }

  // ------------------------------------------------------ exactly when it counts

  /** The answer to call `n` is the one that counting the accepted hits of its window gives. */
  predicate CountsAt(times: seq<real>, n: nat, limit: int, window: real)
    requires n < |times|
  {
    var before := Play(times[..n], limit, window);
    Call(before.queue, limit, window, times[n]).0 <==> CountIn(before.accepted, times[n] - window, times[n]) < limit
  }

  /** A bound on the size of all times. */
  function Bound(times: seq<real>): real {
    if times == [] then 0.0
    else
      var before, last := Bound(times[..|times| - 1]), times[|times| - 1];
      var size := if last >= 0.0 then last else -last;
      if size > before then size else before
  }

  lemma {:induction false} Bounded(times: seq<real>)
    ensures forall i :: 0 <= i < |times| ==> -Bound(times) <= times[i] <= Bound(times)
  {
    if times != [] {
      var front := times[..|times| - 1];
      Bounded(front);
      forall i | 0 <= i < |times| ensures -Bound(times) <= times[i] <= Bound(times) {
        assert i < |front| ==> front[i] == times[i];
      }
    }
  }

  /** Under a limit that is not reached and a window wider than all times, everything is accepted and kept. */
  lemma {:induction false} AllKept(times: seq<real>, limit: int, window: real)
    requires |times| <= limit
    requires forall i, j :: 0 <= i < |times| && 0 <= j < |times| ==> times[i] > times[j] - window
    ensures Play(times, limit, window).queue == times && Play(times, limit, window).accepted == times
  {
    if times != [] {
      var n := |times| - 1;
      var front := times[..n];
      forall i, j | 0 <= i < n && 0 <= j < n ensures front[i] > front[j] - window {
        assert times[i] > times[j] - window;
      }
      AllKept(front, limit, window);
      NothingPruned(front, times[n] - window);
      assert front + [times[n]] == times;
    }
  }

  lemma NothingPruned(q: seq<real>, cutoff: real)
    requires forall i :: 0 <= i < |q| ==> q[i] > cutoff
    ensures Prune(q, cutoff) == q
  {
  }

  lemma {:induction false} CountMisses(hits: seq<real>, lo: real, hi: real)
    requires hits != [] && hits[|hits| - 1] > hi
    ensures CountIn(hits, lo, hi) < |hits|
  {
    CountAtMost(hits[..|hits| - 1], lo, hi);
  }

  lemma {:induction false} CountAtMost(hits: seq<real>, lo: real, hi: real)
    ensures CountIn(hits, lo, hi) <= |hits|
  {
    if hits != [] {
      CountAtMost(hits[..|hits| - 1], lo, hi);
    }
  }

  /** When everything so far is kept, one more call that comes before the last one is refused, although one
      of the kept hits lies outside its window. */
  lemma EarlyCall(past: seq<real>, window: real, now: real)
    requires past != [] && now < past[|past| - 1]
    requires forall i, j :: 0 <= i < |past| && 0 <= j < |past| ==> past[i] > past[j] - window
    requires forall i :: 0 <= i < |past| ==> past[i] > now - window
    ensures var before := Play(past, |past|, window);
            !Call(before.queue, |past|, window, now).0 && CountIn(before.accepted, now - window, now) < |past|
  {
    AllKept(past, |past|, window);
    NothingPruned(past, now - window);
    CountMisses(past, now - window, now);
  }

  /** A call earlier than the one before it is refused where counting would accept it. */
  lemma EarlyCallMiscounts(times: seq<real>, n: nat)
    requires 0 < n < |times| && times[n] < times[n - 1]
    ensures exists limit: int, window: real :: !CountsAt(times, n, limit, window)
  {
    var past, bound := times[..n], Bound(times);
    var window := bound + bound + 1.0;
    Bounded(times);
    forall i | 0 <= i < n ensures -bound <= past[i] <= bound {
      assert past[i] == times[i];
    }
    EarlyCall(past, window, times[n]);
    assert !CountsAt(times, n, |past|, window);
  }

  ghost predicate NeighboursOrdered(times: seq<real>) {
    forall n :: 0 < n < |times| ==> times[n - 1] <= times[n]
  }

  lemma {:induction false} OrderedApart(times: seq<real>, i: nat, j: nat)
    requires NeighboursOrdered(times) && i <= j < |times|
    ensures times[i] <= times[j]
  {
    if i < j {
      OrderedApart(times, i, j - 1);
    }
  }

  lemma NeighboursDecide(times: seq<real>)
    ensures Nondecreasing(times) <==> NeighboursOrdered(times)
  {
    if NeighboursOrdered(times) {
      forall i, j | 0 <= i <= j < |times| ensures times[i] <= times[j] {
        OrderedApart(times, i, j);
      }
    }
  }

  /** The pruned queue gives the counted answer to every call, whatever the limit and the window, exactly
      when the clock never goes back. */
  lemma CountsIffClockNeverGoesBack(times: seq<real>)
    ensures Nondecreasing(times) <==>
            forall n: nat, limit: int, window: real :: n < |times| ==> CountsAt(times, n, limit, window)
  {
    NeighboursDecide(times);
    if Nondecreasing(times) {
      forall n: nat, limit: int, window: real | n < |times| ensures CountsAt(times, n, limit, window) {
        PrefixNondecreasing(times, n);
        PlayTracks(times[..n], limit, window, times[n]);
        CallCounts(Play(times[..n], limit, window), limit, window, times[n]);
      }
    } else {
      var n :| 0 < n < |times| && times[n] < times[n - 1];
      EarlyCallMiscounts(times, n);
    }
  }

  // ------------------------------------------------------------------- many keys

  function HitsAfter<Key>(calls: seq<(Key, real)>, limit: Key -> int, window: Key -> real): map<Key, seq<real>> {
    if calls == [] then map[]
    else
      var before, c := HitsAfter(calls[..|calls| - 1], limit, window), calls[|calls| - 1];
      before[c.0 := Call(if c.0 in before then before[c.0] else [], limit(c.0), window(c.0), c.1).1]
  }

  function TimesOf<Key(==)>(calls: seq<(Key, real)>, key: Key): seq<real> {
    if calls == [] then []
    else TimesOf(calls[..|calls| - 1], key) + if calls[|calls| - 1].0 == key then [calls[|calls| - 1].1] else []
  }

  /** A key's queue depends on that key's own calls only. */
  lemma {:induction false} KeysAreIndependent<Key>(calls: seq<(Key, real)>, limit: Key -> int, window: Key -> real,
                                                   key: Key)
    ensures var hits := HitsAfter(calls, limit, window);
            (if key in hits then hits[key] else []) == Play(TimesOf(calls, key), limit(key), window(key)).queue
  {
    if calls != [] {
      var front := calls[..|calls| - 1];
      KeysAreIndependent(front, limit, window, key);
      if calls[|calls| - 1].0 == key {
        assert TimesOf(calls, key)[..|TimesOf(calls, key)| - 1] == TimesOf(front, key);
      } else {
        assert TimesOf(calls, key) == TimesOf(front, key);
      }
    }
  }
}
