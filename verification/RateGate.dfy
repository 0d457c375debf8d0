/** The greedy time gate of the odometry nodes: a message is taken when at least `interval` nanoseconds have passed
    since the last one taken. */
module RateGate {
  predicate Open(interval: int, last: int, now: int) {
    now - last >= interval
  }

  /** The arrival times the gate lets through, starting from a last acceptance at `last`. */
  function Accepted(interval: int, last: int, arrivals: seq<int>): seq<int>
    decreases |arrivals|
  {
    if arrivals == [] then []
    else if Open(interval, last, arrivals[0]) then
      [arrivals[0]] + Accepted(interval, arrivals[0], arrivals[1..])
    else
      Accepted(interval, last, arrivals[1..])
  }

  ghost predicate NonDecreasing(s: seq<int>) {
    forall i, j :: 0 <= i < j < |s| ==> s[i] <= s[j]
  }

  /** Any two distinct entries are at least `interval` apart. */
  ghost predicate Spaced(interval: int, s: seq<int>) {
    forall i, j :: 0 <= i < j < |s| ==> s[i] + interval <= s[j]
  }

  ghost predicate Subsequence(t: seq<int>, s: seq<int>) {
    if t == [] then true
    else if s == [] then false
    else (t[0] == s[0] && Subsequence(t[1..], s[1..])) || Subsequence(t, s[1..])
  }

  /** How many entries of s lie in [lo, hi]. */
  function CountIn(s: seq<int>, lo: int, hi: int): nat {
    if s == [] then 0 else (if lo <= s[0] <= hi then 1 else 0) + CountIn(s[1..], lo, hi)
  }

  /** The last acceptance after the arrivals. */
  function LastTaken(interval: int, last: int, arrivals: seq<int>): int
    decreases |arrivals|
  {
    if arrivals == [] then last
    else LastTaken(interval, if Open(interval, last, arrivals[0]) then arrivals[0] else last, arrivals[1..])
  }

  /** One more arrival is judged against the last acceptance so far: what a node's gate does call by call. */
  lemma {:induction false} AcceptedAppend(interval: int, last: int, arrivals: seq<int>, now: int)
    ensures var taken := LastTaken(interval, last, arrivals);
            var opens := Open(interval, taken, now);
            && Accepted(interval, last, arrivals + [now])
               == Accepted(interval, last, arrivals) + (if opens then [now] else [])
            && LastTaken(interval, last, arrivals + [now]) == (if opens then now else taken)
    decreases |arrivals|
  {
    var all := arrivals + [now];
    if arrivals == [] {
      assert all[1..] == [];
      assert Accepted(interval, now, all[1..]) == [] && Accepted(interval, last, all[1..]) == [];
    } else {
      assert all[1..] == arrivals[1..] + [now];
      AcceptedAppend(interval, if Open(interval, last, arrivals[0]) then arrivals[0] else last, arrivals[1..], now);
    }
  }

  // ---- what is accepted ----

  /** Whatever the arrivals are, the accepted ones are spaced and follow the last acceptance. */
  lemma {:induction false} AcceptedSpaced(interval: nat, last: int, arrivals: seq<int>)
    ensures Spaced(interval, [last] + Accepted(interval, last, arrivals))
    decreases |arrivals|
  {
    if arrivals != [] {
      var a, rest := arrivals[0], arrivals[1..];
      if Open(interval, last, a) {
        AcceptedSpaced(interval, a, rest);
        var tail := [a] + Accepted(interval, a, rest);
        var whole := [last] + Accepted(interval, last, arrivals);
        assert whole == [last] + tail;
        forall i, j | 0 <= i < j < |whole| ensures whole[i] + interval <= whole[j] {
          if i == 0 {
            assert tail[0] == a && (j > 1 ==> tail[0] + interval <= tail[j - 1]);
          } else {
            assert whole[i] == tail[i - 1] && whole[j] == tail[j - 1];
          }
        }
      } else {
        AcceptedSpaced(interval, last, rest);
      }
    }
  }

  lemma {:induction false} SubsequenceDropHead(t: seq<int>, s: seq<int>)
    requires t != [] && Subsequence(t, s)
    ensures s != [] && Subsequence(t[1..], s[1..])
  {
    if !(t[0] == s[0] && Subsequence(t[1..], s[1..])) {
      SubsequenceDropHead(t, s[1..]);
      if t[1..] != [] {
        assert Subsequence(t[1..], s[1..][1..]);
      }
    }
  }

  lemma {:induction false} AcceptedSubsequence(interval: int, last: int, arrivals: seq<int>)
    ensures Subsequence(Accepted(interval, last, arrivals), arrivals)
    decreases |arrivals|
  {
    if arrivals != [] {
      var a, rest := arrivals[0], arrivals[1..];
      if Open(interval, last, a) {
        AcceptedSubsequence(interval, a, rest);
        var t := Accepted(interval, last, arrivals);
        assert t[1..] == Accepted(interval, a, rest);
      } else {
        AcceptedSubsequence(interval, last, rest);
      }
    }
  }

  // ---- the rate ----

  lemma {:induction false} CountAbove(s: seq<int>, lo: int, lo': int, hi: int)
    requires lo <= lo' && forall i :: 0 <= i < |s| ==> lo' <= s[i]
    ensures CountIn(s, lo, hi) == CountIn(s, lo', hi)
    ensures hi < lo' ==> CountIn(s, lo, hi) == 0
  {
    if s != [] {
      CountAbove(s[1..], lo, lo', hi);
    }
  }

  lemma Distribute(n: int, interval: int)
    ensures n * interval == (n - 1) * interval + interval
  {
  }

  lemma MulMonotone(a: int, b: int, k: int)
    requires k > 0
    ensures a <= b ==> a * k <= b * k
  {
  }

  lemma DivideBound(n: int, interval: int, length: nat)
    requires interval > 0 && (n > 0 ==> (n - 1) * interval <= length)
    ensures n <= length / interval + 1
  {
    var q := length / interval;
    assert length < (q + 1) * interval by {
      assert length == q * interval + length % interval;
      Distribute(q + 1, interval);
    }
    MulMonotone(q + 1, n - 1, interval);
  }

  lemma {:induction false} SpacedWindow(interval: int, s: seq<int>, lo: int, length: nat)
    requires interval > 0 && Spaced(interval, s)
    ensures CountIn(s, lo, lo + length) > 0 ==> (CountIn(s, lo, lo + length) - 1) * interval <= length
    decreases |s|
  {
    if s != [] {
      var rest := s[1..];
      assert Spaced(interval, rest) by {
        forall i, j | 0 <= i < j < |rest| ensures rest[i] + interval <= rest[j] {
          assert rest[i] == s[i + 1] && rest[j] == s[j + 1];
        }
      }
      if lo <= s[0] <= lo + length {
        var next := s[0] + interval;
        forall i | 0 <= i < |rest| ensures next <= rest[i] {
          assert rest[i] == s[i + 1];
        }
        CountAbove(rest, lo, next, lo + length);
        var left := lo + length - next;
        if left >= 0 {
          SpacedWindow(interval, rest, next, left);
          Distribute(CountIn(rest, next, next + left), interval);
        }
      } else {
        SpacedWindow(interval, rest, lo, length);
      }
    }
  }

  /** Any window of the given length holds at most length / interval + 1 accepted messages. */
  lemma AcceptedRate(interval: int, last: int, arrivals: seq<int>, lo: int, length: nat)
    requires interval > 0
    ensures CountIn(Accepted(interval, last, arrivals), lo, lo + length) <= length / interval + 1
  {
    AcceptedSpaced(interval, last, arrivals);
    var acc := Accepted(interval, last, arrivals);
    assert Spaced(interval, acc) by {
      var whole := [last] + acc;
      forall i, j | 0 <= i < j < |acc| ensures acc[i] + interval <= acc[j] {
        assert acc[i] == whole[i + 1] && acc[j] == whole[j + 1];
      }
    }
    SpacedWindow(interval, acc, lo, length);
    DivideBound(CountIn(acc, lo, lo + length), interval, length);
  }

  // ---- optimality ----

  lemma {:induction false} GreedyBeats(interval: nat, last: int, arrivals: seq<int>, t: seq<int>)
    requires NonDecreasing(arrivals) && Subsequence(t, arrivals) && Spaced(interval, t)
    requires t != [] ==> last + interval <= t[0]
    ensures |t| <= |Accepted(interval, last, arrivals)|
    decreases |arrivals|
  {
    if t != [] && arrivals != [] {
      var a, rest := arrivals[0], arrivals[1..];
      if Open(interval, last, a) {
        SubsequenceDropHead(t, arrivals);
        InArrivals(t, arrivals);
        GreedyBeats(interval, a, rest, t[1..]);
      } else {
        GreedyBeats(interval, last, rest, t);
      }
    }
  }

  /** The head of a subsequence is not below the head of a non-decreasing sequence. */
  lemma {:induction false} InArrivals(t: seq<int>, s: seq<int>)
    requires t != [] && Subsequence(t, s) && NonDecreasing(s)
    ensures s[0] <= t[0]
  {
    if t[0] != s[0] {
      InArrivals(t, s[1..]);
    }
  }

  /** For arrivals in order, the first one at least an interval after the node's zero start, the accepted messages are
      a largest spaced selection. */
  lemma GreedyOptimal(interval: nat, arrivals: seq<int>, t: seq<int>)
    requires NonDecreasing(arrivals) && (arrivals != [] ==> interval <= arrivals[0])
    requires Subsequence(t, arrivals) && Spaced(interval, t)
    ensures var accepted := Accepted(interval, 0, arrivals);
            Subsequence(accepted, arrivals) && Spaced(interval, accepted) && |t| <= |accepted|
  {
    if t != [] {
      InArrivals(t, arrivals);
    }
    GreedyBeats(interval, 0, arrivals, t);
    AcceptedSubsequence(interval, 0, arrivals);
    SpacedAfter(interval, 0, arrivals);
  }

  lemma SpacedAfter(interval: nat, last: int, arrivals: seq<int>)
    ensures Spaced(interval, Accepted(interval, last, arrivals))
  {
    AcceptedSpaced(interval, last, arrivals);
    var accepted := Accepted(interval, last, arrivals);
    assert forall k :: 0 <= k < |accepted| ==> ([last] + accepted)[k + 1] == accepted[k];
  }

  /** With a clock that may start anywhere at or after zero, as a simulated one does, the zero start costs at most one
      message. */
  lemma GreedyNearlyOptimal(interval: nat, arrivals: seq<int>, t: seq<int>)
    requires NonDecreasing(arrivals) && (arrivals != [] ==> 0 <= arrivals[0])
    requires Subsequence(t, arrivals) && Spaced(interval, t)
    ensures |t| <= |Accepted(interval, 0, arrivals)| + 1
  {
    if t != [] {
      InArrivals(t, arrivals);
      SubsequenceDropHead(t, arrivals);
      var rest := t[1..];
      assert Subsequence(rest, arrivals);
      assert rest != [] ==> rest[0] == t[1];
      GreedyBeats(interval, 0, arrivals, rest);
    }
  }

  /** The gate lets as many messages through as any spaced selection if and only if a gate that starts open lets no more
      through. */
  lemma GreedyOptimalExactly(interval: nat, arrivals: seq<int>)
    requires arrivals != [] && NonDecreasing(arrivals)
    ensures (forall t :: Subsequence(t, arrivals) && Spaced(interval, t) ==> |t| <= |Accepted(interval, 0, arrivals)|)
            <==> |Accepted(interval, arrivals[0] - interval, arrivals)| <= |Accepted(interval, 0, arrivals)|
  {
    var open := arrivals[0] - interval;
    AcceptedSubsequence(interval, open, arrivals);
    SpacedAfter(interval, open, arrivals);
    hide Accepted, Spaced, NonDecreasing;
    forall t | Subsequence(t, arrivals) && Spaced(interval, t) ensures |t| <= |Accepted(interval, open, arrivals)| {
      if t != [] {
        InArrivals(t, arrivals);
      }
      GreedyBeats(interval, open, arrivals, t);
    }
  }

  /** The lost message is real: one message arriving before the first interval is over is not taken. */
  lemma ZeroStartCostsOne(interval: int, now: int)
    requires 0 <= now < interval
    ensures Subsequence([now], [now]) && Spaced(interval, [now])
    ensures |[now]| == |Accepted(interval, 0, [now])| + 1
  {
    assert [now][1..] == [];
    assert Accepted(interval, 0, [now]) == Accepted(interval, 0, []);
  }
}
