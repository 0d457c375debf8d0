/** When a sample leaves the queue: which frame takes it can be told before the frame is handled. */
module ImuQueue {
  import opened ImuOrdering

  /** A sample older than x would be registered and throw. */
  ghost predicate Thrower(p: seq<Imu>, last: int, x: int, throws: set<int>) {
    exists w :: w in p && last < w.ts < x && w.ts in throws
  }

  /** In the node that stops at a throw, a sample waits behind one that throws. */
  ghost predicate Blocked(cfg: Node, s: State, e: Event, m: Imu)
    requires e.Frame?
  {
    cfg.stopsOnThrow && s.lastTrack != 0 && Thrower(s.pending, s.lastTrack, m.ts, e.registerThrows)
  }

  /** The event is a frame that reaches the tracker, the sample is queued and older, and no throw is in its way. */
  ghost predicate Takes(cfg: Node, s: State, e: Event, m: Imu) {
    cfg.useImu && Reaches(s, e) && m in s.pending && m.ts < e.ts && !Blocked(cfg, s, e, m)
  }

  // ---- one flush ----

  lemma ThrowerHead(p: seq<Imu>, last: int, x: int, throws: set<int>)
    requires p != []
    ensures Thrower(p, last, x, throws)
            <==> (last < p[0].ts < x && p[0].ts in throws) || Thrower(p[1..], last, x, throws)
  {
    assert forall w :: w in p <==> w == p[0] || w in p[1..];
  }

  lemma NoThrowerBelowHead(p: seq<Imu>, last: int, throws: set<int>)
    requires p != [] && Increasing(p)
    ensures !Thrower(p, last, p[0].ts, throws)
  {
    HeadOldest(p);
    assert forall w :: w in p <==> w == p[0] || w in p[1..];
  }

  lemma {:induction false} RegisterRest(p: seq<Imu>, last: int, ts: int, throws: set<int>)
    ensures |Register(p, last, ts, throws).rest| <= |p|
    ensures |RegisterAll(p, last, ts, throws).rest| <= |p|
    ensures |Discard(p, ts)| <= |p|
  {
    if p != [] && p[0].ts < ts {
      RegisterRest(p[1..], last, ts, throws);
    }
  }

  lemma {:induction false} RegisterTakes(p: seq<Imu>, last: int, ts: int, throws: set<int>, i: nat)
    requires Increasing(p) && i < |p|
    ensures i < |p| - |Register(p, last, ts, throws).rest|
            <==> p[i].ts < ts && !Thrower(p, last, p[i].ts, throws)
  {
    RegisterRest(p[1..], last, ts, throws);
    if p[0].ts < ts {
      if i == 0 {
        NoThrowerBelowHead(p, last, throws);
      } else {
        IncreasingTail(p, 1);
        ThrowerHead(p, last, p[i].ts, throws);
        RegisterTakes(p[1..], last, ts, throws, i - 1);
      }
    }
  }

  lemma {:induction false} RegisterAllTakes(p: seq<Imu>, last: int, ts: int, throws: set<int>, i: nat)
    requires Increasing(p) && i < |p|
    ensures i < |p| - |RegisterAll(p, last, ts, throws).rest| <==> p[i].ts < ts
    ensures i < |p| - |Discard(p, ts)| <==> p[i].ts < ts
  {
    RegisterRest(p[1..], last, ts, throws);
    if p[0].ts < ts && i > 0 {
      IncreasingTail(p, 1);
      RegisterAllTakes(p[1..], last, ts, throws, i - 1);
    }
  }

  /** What a flush takes of the queue. */
  lemma FlushTakesExactly(cfg: Node, s: State, e: Event, i: nat)
    requires e.Frame? && s.ready && Increasing(s.pending) && i < |s.pending|
    ensures var rest := Flush(cfg, s, e.ts, e.registerThrows).rest;
            && |rest| <= |s.pending|
            && (i < |s.pending| - |rest|
                <==> cfg.useImu && s.pending[i].ts < e.ts && !Blocked(cfg, s, e, s.pending[i]))
  {
    hide Increasing, Thrower;
    RegisterRest(s.pending, s.lastTrack, e.ts, e.registerThrows);
    RegisterTakes(s.pending, s.lastTrack, e.ts, e.registerThrows, i);
    RegisterAllTakes(s.pending, s.lastTrack, e.ts, e.registerThrows, i);
  }

  lemma MemberAt(s: State, k: nat)
    requires QueueInv(s) && k < |s.accepted|
    ensures s.accepted[k] in s.pending <==> k >= Consumed(s)
  {
    if k >= Consumed(s) {
      assert s.accepted[k] == s.pending[k - Consumed(s)];
    } else {
      forall j | 0 <= j < |s.pending| ensures s.pending[j] != s.accepted[k] {
        assert s.pending[j] == s.accepted[Consumed(s) + j];
      }
    }
  }

  lemma FlushShrinks(cfg: Node, s: State, ts: int, throws: set<int>)
    ensures |Flush(cfg, s, ts, throws).rest| <= |s.pending|
  {
    RegisterRest(s.pending, s.lastTrack, ts, throws);
  }

  /** One step: an accepted sample is gone exactly if it was gone before or the step takes it. */
  lemma GoneStep(cfg: Node, s: State, e: Event, k: nat)
    requires QueueInv(s) && k < |s.accepted|
    ensures k < Consumed(Step(cfg, s, e)) <==> k < Consumed(s) || Takes(cfg, s, e, s.accepted[k])
  {
    MemberAt(s, k);
    PendingIncreasing(s);
    if Reaches(s, e) {
      FlushShrinks(cfg, s, e.ts, e.registerThrows);
      if k >= Consumed(s) {
        var i := k - Consumed(s);
        assert s.pending[i] == s.accepted[k];
        hide QueueInv, Increasing, Blocked, Flush;
        FlushTakesExactly(cfg, s, e, i);
      }
    }
  }

  // ---- runs ----

  lemma {:induction false} InvFrom(cfg: Node, s: State, es: seq<Event>)
    requires Inv(s)
    ensures Inv(Run(cfg, s, es))
  {
    if es != [] {
      hide Inv, Step;
      InvFrom(cfg, s, es[..|es| - 1]);
      InvStep(cfg, Run(cfg, s, es[..|es| - 1]), es[|es| - 1]);
    }
  }

  /** Event j of the run takes the sample. */
  ghost predicate TakesAt(cfg: Node, s: State, es: seq<Event>, j: nat, m: Imu)
    requires j < |es|
  {
    Takes(cfg, Run(cfg, s, es[..j]), es[j], m)
  }

  lemma TakesAtPrefix(cfg: Node, s: State, es: seq<Event>, n: nat, j: nat, m: Imu)
    requires j < n <= |es|
    ensures TakesAt(cfg, s, es[..n], j, m) <==> TakesAt(cfg, s, es, j, m)
  {
    assert es[..n][..j] == es[..j];
  }

  lemma QueueOf(s: State)
    requires Inv(s)
    ensures QueueInv(s)
  {
  }

  /** Over a run, a queued or later accepted sample has left the queue exactly if some frame of the run took it. */
  lemma {:induction false} GoneExactly(cfg: Node, s: State, es: seq<Event>, k: nat)
    requires Inv(s) && Consumed(s) <= k < |Run(cfg, s, es).accepted|
    ensures k < Consumed(Run(cfg, s, es))
            <==> exists j :: 0 <= j < |es| && TakesAt(cfg, s, es, j, Run(cfg, s, es).accepted[k])
  {
    if es != [] {
      var n := |es| - 1;
      var r := Run(cfg, s, es[..n]);
      InvFrom(cfg, s, es[..n]);
      QueueOf(r);
      TraceGrows(cfg, r, es[n]);
      var m := Run(cfg, s, es).accepted[k];
      forall j | 0 <= j < n ensures TakesAt(cfg, s, es[..n], j, m) <==> TakesAt(cfg, s, es, j, m) {
        TakesAtPrefix(cfg, s, es, n, j, m);
      }
      if k < |r.accepted| {
        GoneExactly(cfg, s, es[..n], k);
        GoneStep(cfg, r, es[n], k);
        hide Takes, Step, Run, Inv, QueueInv;
        assert TakesAt(cfg, s, es, n, m) <==> Takes(cfg, r, es[n], m);
      } else {
        NewSample(cfg, s, es, k);
      }
    }
  }

  lemma Arrival(cfg: Node, s: State, e: Event)
    requires |Step(cfg, s, e).accepted| > |s.accepted|
    ensures e.ImuArrives? && e.m.ts > s.lastReceived
    ensures Step(cfg, s, e).accepted == s.accepted + [e.m] && Step(cfg, s, e).pending == s.pending + [e.m]
  {
  }

  /** The sample the last event brought is queued, and no earlier frame can have taken it. */
  lemma NewSample(cfg: Node, s: State, es: seq<Event>, k: nat)
    requires Inv(s) && es != []
    requires |Run(cfg, s, es[..|es| - 1]).accepted| <= k < |Run(cfg, s, es).accepted|
    ensures k >= Consumed(Run(cfg, s, es))
    ensures forall j :: 0 <= j < |es| ==> !TakesAt(cfg, s, es, j, Run(cfg, s, es).accepted[k])
  {
    var n := |es| - 1;
    var r := Run(cfg, s, es[..n]);
    InvFrom(cfg, s, es[..n]);
    QueueOf(r);
    Arrival(cfg, r, es[n]);
    assert Run(cfg, s, es).accepted[k] == es[n].m;
    hide Inv, Step, QueueInv, TakesAt, Run;
    forall j | 0 <= j < |es| ensures !TakesAt(cfg, s, es, j, es[n].m) {
      NotTakenAt(cfg, s, es, j);
    }
  }

  lemma NotTakenAt(cfg: Node, s: State, es: seq<Event>, j: nat)
    requires Inv(s) && j < |es| && es[|es| - 1].ImuArrives?
    requires es[|es| - 1].m.ts > Run(cfg, s, es[..|es| - 1]).lastReceived
    ensures !TakesAt(cfg, s, es, j, es[|es| - 1].m)
  {
    hide Inv, Run, Blocked;
    if j < |es| - 1 {
      NotQueuedBefore(cfg, s, es[..|es| - 1], j, es[|es| - 1].m);
      assert es[..|es| - 1][..j] == es[..j];
    }
  }

  lemma NotQueuedBefore(cfg: Node, s: State, es: seq<Event>, j: nat, m: Imu)
    requires Inv(s) && j <= |es| && m.ts > Run(cfg, s, es).lastReceived
    ensures m !in Run(cfg, s, es[..j]).pending
  {
    OlderThanLater(cfg, s, es, j);
  }

  lemma {:induction false} OlderThanLater(cfg: Node, s: State, es: seq<Event>, j: nat)
    requires Inv(s) && j <= |es|
    ensures var r := Run(cfg, s, es); forall m :: m in Run(cfg, s, es[..j]).pending ==> m.ts <= r.lastReceived
    decreases |es|
  {
    if j == |es| {
      assert es[..j] == es;
      InvFrom(cfg, s, es);
      PendingReceived(Run(cfg, s, es));
    } else {
      var n := |es| - 1;
      OlderThanLater(cfg, s, es[..n], j);
      assert es[..n][..j] == es[..j];
    }
  }

  /** When no registration throws, it is enough to look at stamps: a sample of the run is gone exactly if a frame that
      reached the tracker after its arrival is stamped later. */
  lemma GoneWithoutThrows(cfg: Node, es: seq<Event>, k: nat)
    requires cfg.useImu && k < |After(cfg, es).accepted|
    requires forall j :: 0 <= j < |es| && es[j].Frame? ==> es[j].registerThrows == {}
    ensures k < Consumed(After(cfg, es))
            <==> exists j :: 0 <= j < |es| && Reaches(After(cfg, es[..j]), es[j])
                   && k < |After(cfg, es[..j]).accepted| && After(cfg, es).accepted[k].ts < es[j].ts
  {
    hide Run, Step, Inv, Takes;
    InvInitial();
    var m := After(cfg, es).accepted[k];
    GoneExactly(cfg, INITIAL, es, k);
    forall j | 0 <= j < |es| && k < |After(cfg, es[..j]).accepted|
      ensures After(cfg, es[..j]).accepted[k] == m
    {
      Earlier(cfg, es, j);
    }
    if j :| 0 <= j < |es| && TakesAt(cfg, INITIAL, es, j, m) {
      TakenHasArrived(cfg, es, j, k);
    } else if j :| 0 <= j < |es| && Reaches(After(cfg, es[..j]), es[j])
                   && k < |After(cfg, es[..j]).accepted| && m.ts < es[j].ts {
      LateIsGone(cfg, es, j, k);
    }
  }

  lemma {:induction false} Earlier(cfg: Node, es: seq<Event>, j: nat)
    requires j <= |es|
    ensures After(cfg, es[..j]).accepted <= After(cfg, es).accepted
    ensures Consumed(After(cfg, es[..j])) <= Consumed(After(cfg, es))
    decreases |es|
  {
    if j == |es| {
      assert es[..j] == es;
    } else {
      var n := |es| - 1;
      Earlier(cfg, es[..n], j);
      assert es[..n][..j] == es[..j];
      TraceGrows(cfg, After(cfg, es[..n]), es[n]);
      InvRun(cfg, es[..n]);
      var s := After(cfg, es[..n]);
      if Reaches(s, es[n]) {
        RegisterRest(s.pending, s.lastTrack, es[n].ts, es[n].registerThrows);
      }
    }
  }

  lemma TakenHasArrived(cfg: Node, es: seq<Event>, j: nat, k: nat)
    requires j < |es| && k < |After(cfg, es).accepted| && TakesAt(cfg, INITIAL, es, j, After(cfg, es).accepted[k])
    ensures Reaches(After(cfg, es[..j]), es[j]) && k < |After(cfg, es[..j]).accepted|
    ensures After(cfg, es).accepted[k].ts < es[j].ts
  {
    var r, a := After(cfg, es[..j]), After(cfg, es).accepted;
    Earlier(cfg, es, j);
    InvRun(cfg, es[..j]);
    InvRun(cfg, es);
    var i :| 0 <= i < |r.pending| && r.pending[i] == a[k];
    assert r.pending[i] == r.accepted[Consumed(r) + i] == a[Consumed(r) + i];
  }

  lemma LateIsGone(cfg: Node, es: seq<Event>, j: nat, k: nat)
    requires cfg.useImu && j < |es| && Reaches(After(cfg, es[..j]), es[j]) && es[j].registerThrows == {}
    requires k < |After(cfg, es[..j]).accepted| && After(cfg, es[..j]).accepted[k].ts < es[j].ts
    ensures k < Consumed(After(cfg, es))
  {
    var r := After(cfg, es[..j]);
    InvRun(cfg, es[..j]);
    QueueOf(r);
    MemberAt(r, k);
    GoneStep(cfg, r, es[j], k);
    assert es[..j + 1][..j] == es[..j];
    Earlier(cfg, es, j + 1);
  }
}
