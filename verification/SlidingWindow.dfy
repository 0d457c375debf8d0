/** The camera probe's frame-rate counters: two queues of time stamps, trimmed to the last second. */
module SlidingWindow {
  import opened RateGate
  const SECOND := 1_000_000_000

  datatype State = State(stream: seq<int>, depth: seq<int>)

  /** What a status message reports. */
  datatype Rates = Rates(streamFps: nat, depthFps: nat)

  datatype Event =
    | StreamSample(now: int, later: int)   // the sample, and the status published at its end
    | DepthSample(now: int)
    | Status(now: int)

  function Trim(q: seq<int>, cutoff: int): seq<int> {
    if q == [] || q[0] >= cutoff then q else Trim(q[1..], cutoff)
  }

  function TrimBoth(s: State, now: int): State {
    State(Trim(s.stream, now - SECOND), Trim(s.depth, now - SECOND))
  }

  function Step(s: State, e: Event): State {
    match e
    case StreamSample(now, later) => TrimBoth(s.(stream := Trim(s.stream + [now], now - SECOND)), later)
    case DepthSample(now) => s.(depth := Trim(s.depth + [now], now - SECOND))
    case Status(now) => TrimBoth(s, now)
  }

  function After(es: seq<Event>): State {
    if es == [] then State([], []) else Step(After(es[..|es| - 1]), es[|es| - 1])
  }

  // ---- the definition of a rate ----

  function StreamArrivals(es: seq<Event>): seq<int> {
    if es == [] then []
    else
      var e, before := es[|es| - 1], StreamArrivals(es[..|es| - 1]);
      if e.StreamSample? then before + [e.now] else before
  }

  function DepthArrivals(es: seq<Event>): seq<int> {
    if es == [] then []
    else
      var e, before := es[|es| - 1], DepthArrivals(es[..|es| - 1]);
      if e.DepthSample? then before + [e.now] else before
  }

  /** The arrivals not older than the cutoff. */
  function Recent(a: seq<int>, cutoff: int): seq<int> {
    if a == [] then []
    else
      var n := |a| - 1;
      Recent(a[..n], cutoff) + (if a[n] >= cutoff then [a[n]] else [])
  }

  function Clock(start: int, es: seq<Event>): int {
    if es == [] then start
    else
      match es[|es| - 1]
      case StreamSample(_, later) => later
      case DepthSample(now) => now
      case Status(now) => now
  }

  /** The clock never runs backwards. */
  ghost predicate Monotone(start: int, es: seq<Event>) {
    es == [] ||
    (var e, before := es[|es| - 1], es[..|es| - 1];
     Monotone(start, before) && Clock(start, before) <= e.now && (e.StreamSample? ==> e.now <= e.later))
  }

  // ---- proof ----

  ghost predicate UpTo(a: seq<int>, now: int) {
    forall k :: 0 <= k < |a| ==> a[k] <= now
  }

  /** The window of a is what a trim at some time up to now left of it. */
  ghost predicate WindowOf(q: seq<int>, a: seq<int>, now: int) {
    exists cutoff :: cutoff <= now - SECOND && q == Recent(a, cutoff)
  }

  lemma {:induction false} RecentFacts(a: seq<int>, cutoff: int)
    ensures forall x :: x in Recent(a, cutoff) ==> x in a && x >= cutoff
    ensures NonDecreasing(a) ==> NonDecreasing(Recent(a, cutoff))
  {
    if a != [] {
      var n := |a| - 1;
      RecentFacts(a[..n], cutoff);
      var r := Recent(a[..n], cutoff);
      if NonDecreasing(a) {
        assert NonDecreasing(a[..n]);
        forall i, j | 0 <= i < j < |Recent(a, cutoff)| ensures Recent(a, cutoff)[i] <= Recent(a, cutoff)[j] {
          assert r[i] in r;
        }
      }
    }
  }

  lemma {:induction false} TrimSorted(q: seq<int>, cutoff: int)
    requires NonDecreasing(q)
    ensures Trim(q, cutoff) == Recent(q, cutoff)
  {
    if q == [] {
    } else if q[0] >= cutoff {
      RecentAll(q, cutoff);
    } else {
      TrimSorted(q[1..], cutoff);
      RecentDropOld(q, cutoff);
    }
  }

  lemma {:induction false} RecentAll(q: seq<int>, cutoff: int)
    requires forall k :: 0 <= k < |q| ==> q[k] >= cutoff
    ensures Recent(q, cutoff) == q
  {
    if q != [] {
      RecentAll(q[..|q| - 1], cutoff);
    }
  }

  lemma {:induction false} RecentDropOld(q: seq<int>, cutoff: int)
    requires q != [] && q[0] < cutoff
    ensures Recent(q, cutoff) == Recent(q[1..], cutoff)
  {
    var n := |q| - 1;
    if n > 0 {
      RecentDropOld(q[..n], cutoff);
      assert q[..n][1..] == q[1..][..n - 1];
    }
  }

  lemma {:induction false} RecentTwice(a: seq<int>, c1: int, c2: int)
    requires c1 <= c2
    ensures Recent(Recent(a, c1), c2) == Recent(a, c2)
  {
    if a != [] {
      var n := |a| - 1;
      RecentTwice(a[..n], c1, c2);
      var r := Recent(a[..n], c1);
      if a[n] >= c1 {
        var q := r + [a[n]];
        assert q[..|q| - 1] == r;
        assert Recent(q, c2) == Recent(r, c2) + (if a[n] >= c2 then [a[n]] else []);
      } else {
        assert Recent(a, c1) == r && Recent(a, c2) == Recent(a[..n], c2);
      }
    }
  }

  lemma TrimWindow(q: seq<int>, a: seq<int>, before: int, now: int)
    requires before <= now && NonDecreasing(a) && WindowOf(q, a, before)
    ensures Trim(q, now - SECOND) == Recent(a, now - SECOND)
    ensures WindowOf(Trim(q, now - SECOND), a, now)
  {
    var c :| c <= before - SECOND && q == Recent(a, c);
    RecentFacts(a, c);
    TrimSorted(q, now - SECOND);
    RecentTwice(a, c, now - SECOND);
  }

  lemma PushWindow(q: seq<int>, a: seq<int>, before: int, now: int)
    requires before <= now && UpTo(a, before) && WindowOf(q, a, before)
    ensures WindowOf(q + [now], a + [now], now) && UpTo(a + [now], now)
    ensures NonDecreasing(a) ==> NonDecreasing(a + [now])
  {
    var c :| c <= before - SECOND && q == Recent(a, c);
    assert (a + [now])[..|a|] == a;
    assert q + [now] == Recent(a + [now], c);
  }

  ghost predicate Inv(q: seq<int>, a: seq<int>, now: int) {
    NonDecreasing(a) && UpTo(a, now) && WindowOf(q, a, now)
  }

  lemma WindowLater(q: seq<int>, a: seq<int>, before: int, now: int)
    requires before <= now && Inv(q, a, before)
    ensures Inv(q, a, now)
  {
    var c :| c <= before - SECOND && q == Recent(a, c);
    assert c <= now - SECOND;
  }

  lemma EmptyWindow(now: int)
    ensures Inv([], [], now)
  {
    assert Recent([], now - SECOND) == [];
  }

  ghost predicate BothKept(s: State, stream: seq<int>, depth: seq<int>, now: int) {
    Inv(s.stream, stream, now) && Inv(s.depth, depth, now)
  }

  lemma SampleKept(s: State, sa: seq<int>, da: seq<int>, before: int, now: int, later: int)
    requires BothKept(s, sa, da, before) && before <= now <= later
    ensures BothKept(Step(s, StreamSample(now, later)), sa + [now], da, later)
  {
    hide Trim, Inv;
    Pushed(s.stream, sa, before, now);
    Trimmed(Trim(s.stream + [now], now - SECOND), sa + [now], now, later);
    Trimmed(s.depth, da, before, later);
  }

  lemma DepthKept(s: State, sa: seq<int>, da: seq<int>, before: int, now: int)
    requires BothKept(s, sa, da, before) && before <= now
    ensures BothKept(Step(s, DepthSample(now)), sa, da + [now], now)
  {
    hide Trim, Inv;
    Pushed(s.depth, da, before, now);
    WindowLater(s.stream, sa, before, now);
  }

  lemma StatusKept(s: State, sa: seq<int>, da: seq<int>, before: int, now: int)
    requires BothKept(s, sa, da, before) && before <= now
    ensures BothKept(Step(s, Status(now)), sa, da, now)
  {
    hide Trim, Inv;
    Trimmed(s.stream, sa, before, now);
    Trimmed(s.depth, da, before, now);
  }

  lemma {:induction false} WindowsKept(start: int, es: seq<Event>)
    requires Monotone(start, es)
    ensures BothKept(After(es), StreamArrivals(es), DepthArrivals(es), Clock(start, es))
  {
    if es == [] {
      hide Inv;
      EmptyWindow(start);
    } else {
      hide BothKept, Step;
      var e, before := es[|es| - 1], es[..|es| - 1];
      WindowsKept(start, before);
      var s, sa, da, t := After(before), StreamArrivals(before), DepthArrivals(before), Clock(start, before);
      match e
      case StreamSample(now, later) => SampleKept(s, sa, da, t, now, later);
      case DepthSample(now) => DepthKept(s, sa, da, t, now);
      case Status(now) => StatusKept(s, sa, da, t, now);
    }
  }

  lemma Trimmed(q: seq<int>, a: seq<int>, before: int, now: int)
    requires before <= now && Inv(q, a, before)
    ensures Trim(q, now - SECOND) == Recent(a, now - SECOND)
    ensures Inv(Trim(q, now - SECOND), a, now)
  {
    hide Trim, Recent, NonDecreasing, WindowOf;
    TrimWindow(q, a, before, now);
  }

  lemma Pushed(q: seq<int>, a: seq<int>, before: int, now: int)
    requires before <= now && Inv(q, a, before)
    ensures Inv(Trim(q + [now], now - SECOND), a + [now], now)
  {
    hide Trim, Recent, NonDecreasing, UpTo, WindowOf;
    PushWindow(q, a, before, now);
    TrimWindow(q + [now], a + [now], now, now);
  }

  /** On a clock that never runs backwards, every status reports exactly how many frames of each kind came in the second
      before it, whatever the interleaving of samples and statuses was. */
  lemma RatesExact(start: int, es: seq<Event>, now: int)
    requires Monotone(start, es + [Status(now)])
    ensures After(es + [Status(now)])
         == State(Recent(StreamArrivals(es), now - SECOND), Recent(DepthArrivals(es), now - SECOND))
  {
    var all := es + [Status(now)];
    assert all[..|es|] == es;
    WindowsKept(start, es);
    Trimmed(After(es).stream, StreamArrivals(es), Clock(start, es), now);
    Trimmed(After(es).depth, DepthArrivals(es), Clock(start, es), now);
  }

  /** So does the status that each stream sample publishes at its end, the sample itself included. */
  lemma SampleRatesExact(start: int, es: seq<Event>, now: int, later: int)
    requires Monotone(start, es + [StreamSample(now, later)])
    ensures After(es + [StreamSample(now, later)])
         == State(Recent(StreamArrivals(es) + [now], later - SECOND), Recent(DepthArrivals(es), later - SECOND))
  {
    var all := es + [StreamSample(now, later)];
    assert all[..|es|] == es;
    WindowsKept(start, es);
    Pushed(After(es).stream, StreamArrivals(es), Clock(start, es), now);
    Trimmed(Trim(After(es).stream + [now], now - SECOND), StreamArrivals(es) + [now], now, later);
    Trimmed(After(es).depth, DepthArrivals(es), Clock(start, es), later);
  }

  // ---- the probe ----

  class CamProbe {
    var streamTimestamps: seq<int>
    var depthTimestamps: seq<int>

    function Value(): State
      reads this
    {
      State(streamTimestamps, depthTimestamps)
    }

    constructor ()
      ensures Value() == After([])
    {
      streamTimestamps := [];
      depthTimestamps := [];
    }

    method OnStreamSample(now: int, later: int) returns (rates: Rates)
      modifies this
      ensures Value() == Step(old(Value()), StreamSample(now, later))
      ensures rates == Rates(|Value().stream|, |Value().depth|)
    {
      streamTimestamps := streamTimestamps + [now];
      ghost var pushed := streamTimestamps;
      var cutoff := now - SECOND;
      while streamTimestamps != [] && streamTimestamps[0] < cutoff
        invariant Trim(pushed, cutoff) == Trim(streamTimestamps, cutoff)
        invariant depthTimestamps == old(depthTimestamps)
        decreases |streamTimestamps|
      {
        streamTimestamps := streamTimestamps[1..];
      }
      rates := PublishStatus(later);
    }

    method OnDepthImage(now: int)
      modifies this`depthTimestamps
      ensures Value() == Step(old(Value()), DepthSample(now))
    {
      depthTimestamps := depthTimestamps + [now];
      ghost var pushed := depthTimestamps;
      var cutoff := now - SECOND;
      while depthTimestamps != [] && depthTimestamps[0] < cutoff
        invariant Trim(pushed, cutoff) == Trim(depthTimestamps, cutoff)
        decreases |depthTimestamps|
      {
        depthTimestamps := depthTimestamps[1..];
      }
    }

    method PublishStatus(now: int) returns (rates: Rates)
      modifies this
      ensures Value() == Step(old(Value()), Status(now))
      ensures rates == Rates(|Value().stream|, |Value().depth|)
    {
      var cutoff := now - SECOND;
      while streamTimestamps != [] && streamTimestamps[0] < cutoff
        invariant Trim(old(streamTimestamps), cutoff) == Trim(streamTimestamps, cutoff)
        invariant depthTimestamps == old(depthTimestamps)
        decreases |streamTimestamps|
      {
        streamTimestamps := streamTimestamps[1..];
      }
      while depthTimestamps != [] && depthTimestamps[0] < cutoff
        invariant streamTimestamps == Trim(old(streamTimestamps), cutoff)
        invariant Trim(old(depthTimestamps), cutoff) == Trim(depthTimestamps, cutoff)
        decreases |depthTimestamps|
      {
        depthTimestamps := depthTimestamps[1..];
      }
      rates := Rates(|streamTimestamps|, |depthTimestamps|);
    }
  }
}
