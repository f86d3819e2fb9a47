/**
 * What one pass of `_handleParticles` does to the particle list and to the
 * canvas, stated on values: the list after the pass, the operations painted
 * during it, and how repeated passes drain any burst.
 */
module Frame {
  import opened Particles

  /** The join-line test `Math.sqrt(dx * dx + dy * dy) < maxDistance`, stated
      without the square root (see NearIsDistanceBelow). */
  predicate Near(x1: real, y1: real, x2: real, y2: real, maxDistance: real)
  {
    0.0 <= maxDistance && (x1 - x2) * (x1 - x2) + (y1 - y2) * (y1 - y2) < maxDistance * maxDistance
  }

  /** `dist` is the Euclidean distance between the two centres. */
  ghost predicate IsDistance(x1: real, y1: real, x2: real, y2: real, dist: real)
  {
    0.0 <= dist && dist * dist == (x1 - x2) * (x1 - x2) + (y1 - y2) * (y1 - y2)
  }

  lemma MulPos(a: real, b: real)
    requires 0.0 < a && 0.0 < b
    ensures 0.0 < a * b
  {
  }

  /** The squared comparison decides the same as the square-root comparison of
      the source, for every threshold; at equal distance there is no line. */
  lemma NearIsDistanceBelow(x1: real, y1: real, x2: real, y2: real, maxDistance: real, dist: real)
    requires IsDistance(x1, y1, x2, y2, dist)
    ensures Near(x1, y1, x2, y2, maxDistance) <==> dist < maxDistance
  {
    if 0.0 <= maxDistance {
      assert maxDistance * maxDistance - dist * dist == (maxDistance - dist) * (maxDistance + dist);
      if dist < maxDistance {
        MulPos(maxDistance - dist, maxDistance + dist);
      } else if dist > maxDistance {
        MulPos(dist - maxDistance, maxDistance + dist);
      }
    }
  }

  /** The line stroked from particle `p` to particle `q`, in `p`'s colour. */
  function LineTo(p: PState, q: PState): CanvasOp
  {
    StrokeLine(p.x, p.y, q.x, q.y, p.color)
  }

  /** The inner loop of a pass: lines from `p` to each of `qs`, in order, for
      those within the threshold. */
  function Joins(p: PState, qs: seq<PState>, maxDistance: real): seq<CanvasOp>
    decreases |qs|
  {
    if qs == [] then []
    else
      var q := qs[|qs| - 1];
      Joins(p, qs[..|qs| - 1], maxDistance) + (if Near(p.x, p.y, q.x, q.y, maxDistance) then [LineTo(p, q)] else [])
  }

  /** The lines of the inner loop are exactly the lines from `p`, in `p`'s
      colour, to the centres of those of `qs` within the threshold; there are
      never more lines than candidates. */
  lemma {:induction false} JoinsExactlyNear(p: PState, qs: seq<PState>, maxDistance: real)
    ensures |Joins(p, qs, maxDistance)| <= |qs|
    ensures forall op :: op in Joins(p, qs, maxDistance) <==>
              exists q :: q in qs && Near(p.x, p.y, q.x, q.y, maxDistance) && op == LineTo(p, q)
    decreases |qs|
  {
    if qs != [] {
      var n := |qs| - 1;
      var front := qs[..n];
      JoinsExactlyNear(p, front, maxDistance);
      assert qs == front + [qs[n]];
      forall op | op in Joins(p, qs, maxDistance)
        ensures exists q :: q in qs && Near(p.x, p.y, q.x, q.y, maxDistance) && op == LineTo(p, q)
      {
        if op in Joins(p, front, maxDistance) {
          var q :| q in front && Near(p.x, p.y, q.x, q.y, maxDistance) && op == LineTo(p, q);
          assert q in qs;
        } else {
          assert qs[n] in qs;
        }
      }
      forall q | q in qs && Near(p.x, p.y, q.x, q.y, maxDistance)
        ensures LineTo(p, q) in Joins(p, qs, maxDistance)
      {
        if q !in front {
          assert q == qs[n];
        }
      }
    }
  }

  lemma {:induction false} JoinsAppend(p: PState, a: seq<PState>, b: seq<PState>, maxDistance: real)
    ensures Joins(p, a + b, maxDistance) == Joins(p, a, maxDistance) + Joins(p, b, maxDistance)
    decreases |b|
  {
    if b == [] {
      assert a + b == a;
    } else {
      var b' := b[..|b| - 1];
      assert (a + b)[..|a + b| - 1] == a + b';
      JoinsAppend(p, a, b', maxDistance);
    }
  }

  /** Everything painted while the pass handles the particle at index `k` of
      the list `s` as it was when the pass began: its circle after the update,
      then the lines to itself (j == i) and to every later particle, which the
      pass has not updated yet and so still stands where `s` has it. */
  function ElementOps(s: seq<PState>, k: nat, maxDistance: real): seq<CanvasOp>
    requires k < |s|
  {
    var p := Step(s[k]);
    [ArcOf(p)] + Joins(p, [p] + s[k + 1..], maxDistance)
  }

  /** What the pass paints for the first `n` particles of `s`. */
  function PassOps(s: seq<PState>, n: nat, maxDistance: real): seq<CanvasOp>
    requires n <= |s|
  {
    if n == 0 then [] else PassOps(s, n - 1, maxDistance) + ElementOps(s, n - 1, maxDistance)
  }

  lemma PassOpsSnoc(s: seq<PState>, k: nat, maxDistance: real)
    requires k < |s|
    ensures PassOps(s, k + 1, maxDistance) == PassOps(s, k, maxDistance) + ElementOps(s, k, maxDistance)
  {
  }

  /** What a whole pass over the list `s` paints. */
  function PassTrace(s: seq<PState>, maxDistance: real): seq<CanvasOp>
  {
    PassOps(s, |s|, maxDistance)
  }

  /** The self-pair (j == i) is joined by a zero-length line exactly when the
      threshold is positive; with a threshold of zero or less nothing is joined. */
  lemma SelfJoin(s: seq<PState>, k: nat, maxDistance: real)
    requires k < |s|
    ensures var p := Step(s[k]);
            0.0 < maxDistance ==>
              2 <= |ElementOps(s, k, maxDistance)| && ElementOps(s, k, maxDistance)[..2] == [ArcOf(p), LineTo(p, p)]
    ensures maxDistance <= 0.0 ==> ElementOps(s, k, maxDistance) == [ArcOf(Step(s[k]))]
  {
    var p := Step(s[k]);
    var rest := s[k + 1..];
    JoinsAppend(p, [p], rest, maxDistance);
    var self := Joins(p, [p], maxDistance);
    var later := Joins(p, rest, maxDistance);
    assert ElementOps(s, k, maxDistance) == [ArcOf(p)] + self + later;
    if 0.0 < maxDistance {
      MulPos(maxDistance, maxDistance);
      JoinsOne(p, p, maxDistance);
    } else {
      JoinsOne(p, p, maxDistance);
      NoneNear(p, rest, maxDistance);
    }
  }

  lemma FirstIn<T>(t: seq<T>)
    requires t != []
    ensures t[0] in t
  {
  }

  lemma JoinsOne(p: PState, q: PState, maxDistance: real)
    ensures Joins(p, [q], maxDistance) == if Near(p.x, p.y, q.x, q.y, maxDistance) then [LineTo(p, q)] else []
  {
    assert [q][..0] == [];
  }

  lemma NoneNear(p: PState, qs: seq<PState>, maxDistance: real)
    requires maxDistance <= 0.0
    ensures Joins(p, qs, maxDistance) == []
  {
    var lines := Joins(p, qs, maxDistance);
    JoinsExactlyNear(p, qs, maxDistance);
    if lines != [] {
      FirstIn(lines);
      assert false;
    }
  }

  /** The circles a sequence of operations paints, in order. */
  function Arcs(ops: seq<CanvasOp>): seq<CanvasOp>
    decreases |ops|
  {
    if ops == [] then []
    else Arcs(ops[..|ops| - 1]) + (if ops[|ops| - 1].FillArc? then [ops[|ops| - 1]] else [])
  }

  lemma {:induction false} ArcsAppend(a: seq<CanvasOp>, b: seq<CanvasOp>)
    ensures Arcs(a + b) == Arcs(a) + Arcs(b)
    decreases |b|
  {
    if b == [] {
      assert a + b == a;
    } else {
      assert (a + b)[..|a + b| - 1] == a + b[..|b| - 1];
      assert (a + b)[|a + b| - 1] == b[|b| - 1];
      ArcsAppend(a, b[..|b| - 1]);
    }
  }

  lemma {:induction false} NoArcsInJoins(p: PState, qs: seq<PState>, maxDistance: real)
    ensures Arcs(Joins(p, qs, maxDistance)) == []
    decreases |qs|
  {
    if qs != [] {
      var q := qs[|qs| - 1];
      NoArcsInJoins(p, qs[..|qs| - 1], maxDistance);
      ArcsAppend(Joins(p, qs[..|qs| - 1], maxDistance), if Near(p.x, p.y, q.x, q.y, maxDistance) then [LineTo(p, q)] else []);
      if Near(p.x, p.y, q.x, q.y, maxDistance) {
        assert [LineTo(p, q)][..0] == [];
      }
    }
  }

  /** The list `s` with every particle updated once, in order. */
  function Stepped(s: seq<PState>): seq<PState>
  {
    seq(|s|, k requires 0 <= k < |s| => Step(s[k]))
  }

  /** The circles painted for the particles `t`, one each, in order. */
  function ArcsOf(t: seq<PState>): seq<CanvasOp>
  {
    seq(|t|, k requires 0 <= k < |t| => ArcOf(t[k]))
  }

  lemma SteppedSnoc(s: seq<PState>, k: nat)
    requires k < |s|
    ensures Stepped(s[..k + 1]) == Stepped(s[..k]) + [Step(s[k])]
  {
  }

  lemma SteppedArcsSnoc(s: seq<PState>, n: nat)
    requires 0 < n <= |s|
    ensures ArcsOf(Stepped(s[..n])) == ArcsOf(Stepped(s[..n - 1])) + [ArcOf(Step(s[n - 1]))]
  {
  }

  /** A pass draws every particle of the list exactly once, in list order, in
      its updated state: the n-th circle painted is the n-th particle after `update`. */
  lemma {:induction false} PassDrawsEachOnce(s: seq<PState>, n: nat, maxDistance: real)
    requires n <= |s|
    ensures Arcs(PassOps(s, n, maxDistance)) == ArcsOf(Stepped(s[..n]))
    decreases n
  {
    if n > 0 {
      var p := Step(s[n - 1]);
      var joins := Joins(p, [p] + s[n..], maxDistance);
      PassDrawsEachOnce(s, n - 1, maxDistance);
      ArcsAppend(PassOps(s, n - 1, maxDistance), ElementOps(s, n - 1, maxDistance));
      ArcsAppend([ArcOf(p)], joins);
      NoArcsInJoins(p, [p] + s[n..], maxDistance);
      assert Arcs([ArcOf(p)]) == [ArcOf(p)] by {
        assert [ArcOf(p)][..0] == [];
      }
      SteppedArcsSnoc(s, n);
    }
  }

  /** The particles of `t` above the decay floor, in their order. */
  function Alive(t: seq<PState>): seq<PState>
    decreases |t|
  {
    if t == [] then []
    else Alive(t[..|t| - 1]) + (if t[|t| - 1].size > Decrement then [t[|t| - 1]] else [])
  }

  /** Filtering never lengthens, and keeps exactly the particles above the floor. */
  lemma {:induction false} AliveExactly(t: seq<PState>)
    ensures |Alive(t)| <= |t|
    ensures forall q :: q in Alive(t) <==> q in t && q.size > Decrement
    decreases |t|
  {
    if t != [] {
      var front := t[..|t| - 1];
      AliveExactly(front);
      assert t == front + [t[|t| - 1]];
    }
  }

  /** A list whose particles are all above the floor loses none of them to the splices. */
  lemma {:induction false} AllAlive(t: seq<PState>)
    requires forall k :: 0 <= k < |t| ==> t[k].size > Decrement
    ensures Alive(t) == t
    decreases |t|
  {
    if t != [] {
      var n := |t| - 1;
      AllAlive(t[..n]);
      assert t[..n] + [t[n]] == t;
    }
  }

  /** The list after one pass: every particle updated once, the decayed ones dropped. */
  function Survivors(s: seq<PState>): seq<PState>
  {
    Alive(Stepped(s))
  }

  /** A pass never lengthens the list and keeps only particles above the floor. */
  lemma SurvivorsShrink(s: seq<PState>)
    ensures |Survivors(s)| <= |s|
    ensures forall q :: q in Survivors(s) ==> q.size > Decrement
  {
    AliveExactly(Stepped(s));
  }

  /** Handling one more particle extends the survivors of the prefix by that
      particle after its update, or by nothing when it has decayed. */
  lemma SurvivorsSnoc(s: seq<PState>, k: nat)
    requires k < |s|
    ensures Survivors(s[..k + 1]) ==
            Survivors(s[..k]) + (if Step(s[k]).size > Decrement then [Step(s[k])] else [])
  {
    var t := Stepped(s[..k + 1]);
    assert t[..k] == Stepped(s[..k]);
    assert t[k] == Step(s[k]);
  }

  /** The sizes of all particles of `s` lie below `bound`. */
  predicate SizesBelow(s: seq<PState>, bound: real)
  {
    forall q :: q in s ==> q.size < bound
  }

  /** Every survivor of a pass lost exactly the decrement, so the bound drops by it. */
  lemma SurvivorsLowerBound(s: seq<PState>, bound: real)
    requires SizesBelow(s, bound)
    ensures SizesBelow(Survivors(s), bound - Decrement)
  {
    AliveExactly(Stepped(s));
    forall q | q in Survivors(s)
      ensures q.size < bound - Decrement
    {
      var k :| 0 <= k < |s| && Stepped(s)[k] == q;
      assert s[k] in s;
    }
  }

  /** The list after `n` frames. */
  function Frames(s: seq<PState>, n: nat): seq<PState>
  {
    if n == 0 then s else Survivors(Frames(s, n - 1))
  }

  lemma FramesNext(s: seq<PState>, n: nat)
    ensures Frames(s, n + 1) == Survivors(Frames(s, n))
  {
  }

  lemma {:induction false} FramesLowerBound(s: seq<PState>, bound: real, n: nat)
    requires SizesBelow(s, bound)
    ensures SizesBelow(Frames(s, n), bound - (n as real) * Decrement)
  {
    if n > 0 {
      FramesLowerBound(s, bound, n - 1);
      SurvivorsLowerBound(Frames(s, n - 1), bound - ((n - 1) as real) * Decrement);
    }
  }

  /** Particles whose sizes are all below (n + 1) * 0.2 are all gone after n frames. */
  lemma FramesDrain(s: seq<PState>, n: nat)
    requires 0 < n
    requires SizesBelow(s, ((n + 1) as real) * Decrement)
    ensures Frames(s, n) == []
  {
    FramesLowerBound(s, ((n + 1) as real) * Decrement, n - 1);
    var last := Frames(s, n - 1);
    assert SizesBelow(last, 2.0 * Decrement);
    SurvivorsLowerBound(last, 2.0 * Decrement);
    SurvivorsShrink(last);
    NoneAboveFloor(Frames(s, n));
  }

  lemma NoneAboveFloor(t: seq<PState>)
    requires forall q :: q in t ==> q.size > Decrement
    requires SizesBelow(t, Decrement)
    ensures t == []
  {
    if t != [] {
      FirstIn(t);
      assert false;
    }
  }

  /** The most frames a burst can live: sizes start below 17 = 85 * 0.2. */
  const MaxFrames: nat := 84

  /** Every burst is gone after at most 84 frames. */
  lemma BurstDrains(s: seq<PState>)
    requires SizesBelow(s, MaxSpawnSize)
    ensures Frames(s, MaxFrames) == []
  {
    FramesDrain(s, MaxFrames);
  }

  /** Once the list is empty it stays empty. */
  lemma {:induction false} FramesStayEmpty(s: seq<PState>, n: nat, m: nat)
    requires n <= m && Frames(s, n) == []
    ensures Frames(s, m) == []
    decreases m
  {
    if n < m {
      FramesStayEmpty(s, n, m - 1);
    }
  }

  /** A burst still has particles only before frame `MaxFrames`. */
  lemma StillAliveBound(s: seq<PState>, n: nat)
    requires SizesBelow(s, MaxSpawnSize) && Frames(s, n) != []
    ensures n < MaxFrames
  {
    if MaxFrames <= n {
      BurstDrains(s);
      FramesStayEmpty(s, MaxFrames, n);
    }
  }

  /** If the last of `k` frames started from a non-empty list and left it empty,
      then `k` is the first frame count at which the list is empty. */
  lemma FirstEmpty(s: seq<PState>, k: nat)
    requires Frames(s, k) == [] && (k > 0 ==> Frames(s, k - 1) != [])
    ensures forall n :: 0 <= n < k ==> Frames(s, n) != []
  {
    forall n | 0 <= n < k
      ensures Frames(s, n) != []
    {
      if Frames(s, n) == [] {
        FramesStayEmpty(s, n, k - 1);
      }
    }
  }

  /** What one frame paints: a full clear, the pass, and one more clear when
      the pass left no particle (the canvas is left blank). */
  function FrameTrace(s: seq<PState>, maxDistance: real): seq<CanvasOp>
  {
    [ClearRect] + PassTrace(s, maxDistance) + (if Survivors(s) == [] then [ClearRect] else [])
  }

  /** What the first `n` frames paint, starting from the list `s`. */
  function Animation(s: seq<PState>, n: nat, maxDistance: real): seq<CanvasOp>
  {
    if n == 0 then [] else Animation(s, n - 1, maxDistance) + FrameTrace(Frames(s, n - 1), maxDistance)
  }

  /** An animation that ran until the list emptied leaves the canvas cleared. */
  lemma AnimationEndsBlank(s: seq<PState>, n: nat, maxDistance: real)
    requires 0 < n && Frames(s, n) == []
    ensures |Animation(s, n, maxDistance)| > 0
    ensures Animation(s, n, maxDistance)[|Animation(s, n, maxDistance)| - 1] == ClearRect
  {
  }
}
