/** A transform cache that is asked in a run: which lookup the remembered mount comes from. */
module MountCache {
  import opened Options
  import opened RigidBody
  import opened Reexpression

  /** A frame, what a lookup of it would find, and whether it counts: others leave the cache alone. */
  datatype Lookup = Lookup(counts: bool, frame: string, found: Option<Pose>)

  /** The cache keeps what it has for a frame; for another one it takes what is found, or nothing. */
  function Asked(cache: Option<Cached>, l: Lookup): Option<Cached> {
    if !l.counts || (cache.Some? && cache.value.sensorFrame == l.frame) then cache
    else if l.found.Some? then Some(Cached(l.frame, l.found.value))
    else None
  }

  function CacheAfter(ls: seq<Lookup>): Option<Cached> {
    if ls == [] then None else Asked(CacheAfter(ls[..|ls| - 1]), ls[|ls| - 1])
  }

  /** From lookup i on, all that count are of this frame. */
  ghost predicate Stretch(ls: seq<Lookup>, i: nat, frame: string) {
    forall l :: i <= l < |ls| && ls[l].counts ==> ls[l].frame == frame
  }

  /** Lookup j finds a mount, and the frame has not changed since. */
  ghost predicate Holds(ls: seq<Lookup>, j: nat, frame: string) {
    j < |ls| && ls[j].counts && ls[j].found.Some? && Stretch(ls, j, frame)
  }

  /** It is the first to do so since the frame was another. */
  ghost predicate InForce(ls: seq<Lookup>, j: nat, frame: string) {
    Holds(ls, j, frame) && forall i :: 0 <= i < j ==> !Holds(ls, i, frame)
  }

  lemma HoldsSnoc(ls: seq<Lookup>, l: Lookup, j: nat, frame: string)
    requires j < |ls|
    ensures Holds(ls + [l], j, frame) <==> Holds(ls, j, frame) && (l.counts ==> l.frame == frame)
  {
    var all := ls + [l];
    assert forall i :: 0 <= i < |ls| ==> all[i] == ls[i];
    assert all[|ls|] == l;
  }

  /** If some lookup holds, the cache has the frame. */
  lemma {:induction false} HoldsIsCached(ls: seq<Lookup>, j: nat, frame: string)
    requires Holds(ls, j, frame)
    ensures CacheAfter(ls).Some? && CacheAfter(ls).value.sensorFrame == frame
  {
    var n := |ls| - 1;
    assert ls == ls[..n] + [ls[n]];
    if j < n {
      HoldsSnoc(ls[..n], ls[n], j, frame);
      HoldsIsCached(ls[..n], j, frame);
    }
  }

  lemma {:induction false} Source(ls: seq<Lookup>) returns (j: nat)
    requires CacheAfter(ls).Some?
    ensures var c := CacheAfter(ls).value; j < |ls| && InForce(ls, j, c.sensorFrame) && ls[j].found == Some(c.mount)
  {
    j := 0;
    if ls != [] {
      var n := |ls| - 1;
      var before, l := CacheAfter(ls[..n]), ls[n];
      assert ls == ls[..n] + [l];
      if !l.counts || (before.Some? && before.value.sensorFrame == l.frame) {
        j := Source(ls[..n]);
        HoldsSnoc(ls[..n], l, j, before.value.sensorFrame);
        forall i | 0 <= i < j ensures !Holds(ls, i, before.value.sensorFrame) {
          HoldsSnoc(ls[..n], l, i, before.value.sensorFrame);
        }
      } else {
        j := n;
        forall i | 0 <= i < n ensures !Holds(ls, i, l.frame) {
          HoldsSnoc(ls[..n], l, i, l.frame);
          if Holds(ls[..n], i, l.frame) {
            HoldsIsCached(ls[..n], i, l.frame);
          }
        }
      }
    }
  }

  /** In every run the cache holds exactly what the first successful lookup since the last change of frame found. */
  lemma CacheExactly(ls: seq<Lookup>, frame: string, x: Pose)
    ensures CacheAfter(ls) == Some(Cached(frame, x))
            <==> exists j :: 0 <= j < |ls| && InForce(ls, j, frame) && ls[j].found == Some(x)
  {
    hide CacheAfter, Holds;
    if CacheAfter(ls).Some? {
      var j := Source(ls);
      if i :| 0 <= i < |ls| && InForce(ls, i, frame) && ls[i].found == Some(x) {
        HoldsIsCached(ls, i, frame);
        assert i == j;
      }
    } else if i :| 0 <= i < |ls| && InForce(ls, i, frame) && ls[i].found == Some(x) {
      HoldsIsCached(ls, i, frame);
    }
  }
}
