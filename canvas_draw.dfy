/**
 * The `canvas-draw` element: its particle list, its animating flag, its two
 * configuration attributes, and the canvas it paints on (kept as the list of
 * operations painted so far). A pointer-down starts a burst; each call of
 * `Animate` is one animation frame, and its result says whether the element
 * asked for another frame.
 */
module CanvasDrawing {
  import opened Particles
  import opened Frame

  datatype Option<T> = None | Some(value: T)

  /** Field initialisers of the element. */
  const InitialParticles: real := 40.0
  const InitialMaxDistance: real := 80.0

  /** Values an attribute change falls back to when the new value is missing or empty. */
  const FallbackParticles: real := 100.0
  const FallbackMaxDistance: real := 80.0

  /** `value || fallback` for an attribute value: null and "" are the only falsy
      strings, both written `None`; any other value is kept. */
  function OrElse(value: Option<real>, fallback: real): real
  {
    if value.Some? then value.value else fallback
  }

  /** How many times `for (let i = 0; i < count; i++)` runs: the least
      natural number not below `count`. */
  function BurstSize(count: real): nat
  {
    if count <= 0.0 then 0 else -((-count).Floor)
  }

  lemma BurstSizeCounts(count: real, i: nat)
    ensures (i as real) < count <==> i < BurstSize(count)
  {
    if 0.0 < count {
      var f := (-count).Floor;
      assert (f as real) <= -count < (f as real) + 1.0;
    }
  }

  /** The particles a burst creates, one per sample, all at the event point in
      the trigger's background colour. */
  function Burst(x: real, y: real, color: string, samples: seq<Sample>): (ps: seq<PState>)
    requires forall k :: 0 <= k < |samples| ==> ValidSample(samples[k])
    ensures |ps| == |samples|
    ensures forall q :: q in ps ==>
              q.x == x && q.y == y && q.color == color && 1.0 <= q.size < MaxSpawnSize &&
              -5.0 <= q.speedX < 5.0 && -5.0 <= q.speedY < 5.0
  {
    seq(|samples|, k requires 0 <= k < |samples| => Spawn(x, y, color, samples[k]))
  }

  /** Every particle of a burst outlives its first frame: a spawned radius is
      at least 1, so one update leaves it at least 0.8. */
  lemma BurstSurvives(x: real, y: real, color: string, samples: seq<Sample>)
    requires forall k :: 0 <= k < |samples| ==> ValidSample(samples[k])
    ensures Survivors(Burst(x, y, color, samples)) == Stepped(Burst(x, y, color, samples))
    ensures |Survivors(Burst(x, y, color, samples))| == |samples|
  {
    var b := Burst(x, y, color, samples);
    forall k | 0 <= k < |b|
      ensures Stepped(b)[k].size > Decrement
    {
      assert b[k] in b;
    }
    AllAlive(Stepped(b));
  }

  predicate Distinct(ps: seq<Particle>)
  {
    forall i, j :: 0 <= i < j < |ps| ==> ps[i] != ps[j]
  }

  /** The particles `ps` hold the values `s`, index by index. */
  ghost predicate Shows(ps: seq<Particle>, s: seq<PState>)
    reads ps
  {
    |ps| == |s| && forall m {:trigger ps[m]} :: 0 <= m < |ps| ==> ps[m].State() == s[m]
  }

  /** The particles of `os` whose values in `vs` are above the decay floor, in
      their order: the objects a pass keeps when `vs` is what it made of them. */
  function Select(os: seq<Particle>, vs: seq<PState>): seq<Particle>
    requires |os| == |vs|
    decreases |os|
  {
    if os == [] then []
    else Select(os[..|os| - 1], vs[..|vs| - 1]) +
         (if vs[|vs| - 1].size > Decrement then [os[|os| - 1]] else [])
  }

  lemma SelectSnoc(os: seq<Particle>, vs: seq<PState>, o: Particle, v: PState)
    requires |os| == |vs|
    ensures Select(os + [o], vs + [v]) == Select(os, vs) + (if v.size > Decrement then [o] else [])
  {
    assert (os + [o])[..|os|] == os;
    assert (vs + [v])[..|vs|] == vs;
  }

  /** The selected objects hold the surviving values, in order. */
  lemma {:induction false} SelectShows(os: seq<Particle>, vs: seq<PState>)
    requires Shows(os, vs)
    ensures Shows(Select(os, vs), Alive(vs))
    decreases |os|
  {
    if os != [] {
      var n := |os| - 1;
      assert Shows(os[..n], vs[..n]) by {
        assert forall m :: 0 <= m < n ==> os[..n][m] == os[m];
      }
      SelectShows(os[..n], vs[..n]);
      if vs[n].size > Decrement {
        ShowsSnoc(Select(os[..n], vs[..n]), Alive(vs[..n]), os[n], vs[n]);
      }
    }
  }

  /** Selection picks only objects of `os`, and every one whose value survives. */
  lemma {:induction false} SelectMembers(os: seq<Particle>, vs: seq<PState>)
    requires |os| == |vs|
    ensures forall q :: q in Select(os, vs) ==> q in os
    ensures forall m :: 0 <= m < |os| && vs[m].size > Decrement ==> os[m] in Select(os, vs)
    decreases |os|
  {
    if os != [] {
      var n := |os| - 1;
      var front := Select(os[..n], vs[..n]);
      SelectMembers(os[..n], vs[..n]);
      assert Select(os, vs) == front + (if vs[n].size > Decrement then [os[n]] else []);
      forall q | q in Select(os, vs)
        ensures q in os
      {
        if q in front {
          assert q in os[..n];
        }
      }
      forall m | 0 <= m < |os| && vs[m].size > Decrement
        ensures os[m] in Select(os, vs)
      {
        if m < n {
          assert os[..n][m] == os[m] && vs[..n][m] == vs[m];
        }
      }
    }
  }

  /** Selecting from distinct objects gives distinct objects. */
  lemma {:induction false} SelectDistinct(os: seq<Particle>, vs: seq<PState>)
    requires |os| == |vs| && Distinct(os)
    ensures Distinct(Select(os, vs))
    decreases |os|
  {
    if os != [] {
      var n := |os| - 1;
      SelectDistinct(os[..n], vs[..n]);
      SelectMembers(os[..n], vs[..n]);
      assert os[n] !in os[..n];
    }
  }

  /** `update` on the `k`-th of the distinct particles `a0`, which hold `vs`:
      only that particle's value changes, by one step. */
  method UpdateOne(p: Particle, ghost a0: seq<Particle>, ghost vs: seq<PState>, ghost k: nat)
    requires Distinct(a0) && Shows(a0, vs) && k < |a0| && a0[k] == p
    modifies p
    ensures Shows(a0, vs[k := Step(vs[k])])
  {
    OthersDiffer(a0, k);
    p.Update();
  }

  /** What a finished pass leaves, where `done` are the values the pass made
      of the particles `a0`, which held `s0` before it. */
  lemma PassFinished(a0: seq<Particle>, s0: seq<PState>, done: seq<PState>)
    requires Distinct(a0) && |done| == |a0| == |s0|
    requires done == Stepped(s0[..|done|]) && Shows(a0, done + s0[|done|..])
    ensures Distinct(Select(a0, done))
    ensures forall k :: 0 <= k < |s0| ==> a0[k].State() == Step(s0[k])
    ensures forall p :: p in Select(a0[..|done|], done) <==> p in a0 && p.size > Decrement
    ensures Select(a0[..|done|], done) == Select(a0, done)
    ensures Shows(Select(a0, done), Survivors(s0))
  {
    assert a0[..|done|] == a0;
    assert s0[..|done|] == s0;
    assert done + s0[|done|..] == done;
    SelectDistinct(a0, done);
    SelectShows(a0, done);
    SelectMembers(a0, done);
    AliveExactly(done);
  }

  /** The values `done + s[|done|..]` after the one at `|done|` is replaced by `v`. */
  lemma Advance(done: seq<PState>, s: seq<PState>, v: PState)
    requires |done| < |s|
    ensures (done + s[|done|..])[|done|] == s[|done|]
    ensures (done + s[|done|..])[|done| + 1..] == s[|done| + 1..]
    ensures (done + s[|done|..])[|done| := v] == (done + [v]) + s[|done| + 1..]
  {
  }

  lemma OthersDiffer(ps: seq<Particle>, k: nat)
    requires Distinct(ps) && k < |ps|
    ensures forall m :: 0 <= m < |ps| && m != k ==> ps[m] != ps[k]
  {
  }

  /** The list `kept + a0[k..]` seen around its element at index `|kept|`. */
  lemma Splice<T>(kept: seq<T>, a0: seq<T>, k: nat)
    requires k < |a0|
    ensures (kept + a0[k..])[|kept|] == a0[k]
    ensures (kept + a0[k..])[|kept| + 1..] == a0[k + 1..]
    ensures (kept + a0[k..])[..|kept|] + (kept + a0[k..])[|kept| + 1..] == kept + a0[k + 1..]
    ensures kept + a0[k..] == (kept + [a0[k]]) + a0[k + 1..]
  {
    assert (kept + a0[k..])[..|kept|] == kept;
  }

  lemma ShowsTail(ps: seq<Particle>, s: seq<PState>, k: nat)
    requires Shows(ps, s) && k < |ps|
    ensures Shows(ps[k + 1..], s[k + 1..])
  {
  }

  lemma TakeSnoc<T>(s: seq<T>, k: nat)
    requires k < |s|
    ensures s[..k + 1] == s[..k] + [s[k]]
  {
  }

  lemma AppendAssoc<T>(a: seq<T>, b: seq<T>, c: seq<T>)
    ensures (a + b) + c == a + (b + c)
  {
  }

  /** Radii between frames: above the decay floor and below the largest spawn size. */
  predicate SizesInRange(s: seq<PState>)
  {
    forall q :: q in s ==> Decrement < q.size < MaxSpawnSize
  }

  lemma SurvivorsInRange(s: seq<PState>)
    requires SizesBelow(s, MaxSpawnSize)
    ensures SizesInRange(Survivors(s))
  {
    SurvivorsLowerBound(s, MaxSpawnSize);
    SurvivorsShrink(s);
  }

  /** Particles holding values in range have radii in range. */
  lemma ShowsInRange(ps: seq<Particle>, t: seq<PState>)
    requires Shows(ps, t) && SizesInRange(t)
    ensures forall p :: p in ps ==> Decrement < p.size < MaxSpawnSize
  {
    forall p | p in ps
      ensures Decrement < p.size < MaxSpawnSize
    {
      var m :| 0 <= m < |ps| && ps[m] == p;
      assert t[m] in t;
    }
  }

  /** The values of particles whose radii are below the largest spawn size. */
  lemma ShowsBelow(ps: seq<Particle>, t: seq<PState>)
    requires Shows(ps, t) && forall p :: p in ps ==> p.size < MaxSpawnSize
    ensures SizesBelow(t, MaxSpawnSize)
  {
    forall q | q in t
      ensures q.size < MaxSpawnSize
    {
      var m :| 0 <= m < |t| && t[m] == q;
      assert ps[m] in ps;
    }
  }

  lemma ShowsSnoc(ps: seq<Particle>, s: seq<PState>, p: Particle, v: PState)
    requires Shows(ps, s) && p.State() == v
    ensures Shows(ps + [p], s + [v])
  {
  }

  class CanvasDraw {
    var particlesArray: seq<Particle>
    var animating: bool
    var particles: real
    var maxDistanceJoinParticles: real
    /** Everything painted on the element's canvas so far, in order. */
    var drawing: seq<CanvasOp>

    /** Each particle is in the list at most once. */
    ghost predicate Valid()
      reads this
    {
      Distinct(particlesArray)
    }

    /** The state after the pointer-down handler returns and between frames: a
        frame is pending exactly when particles remain. */
    ghost predicate Settled()
      reads this, particlesArray
    {
      Valid() && (animating <==> particlesArray != []) &&
      forall p :: p in particlesArray ==> Decrement < p.size < MaxSpawnSize
    }

    constructor ()
      ensures Settled()
      ensures particlesArray == [] && !animating && drawing == []
      ensures particles == InitialParticles && maxDistanceJoinParticles == InitialMaxDistance
    {
      particlesArray := [];
      animating := false;
      particles := InitialParticles;
      maxDistanceJoinParticles := InitialMaxDistance;
      drawing := [];
    }

    /** `attributeChangedCallback`: only the named setting changes. */
    method AttributeChanged(name: string, newValue: Option<real>)
      modifies this`particles, this`maxDistanceJoinParticles
      ensures name == "particles" ==> particles == OrElse(newValue, FallbackParticles)
      ensures name != "particles" ==> particles == old(particles)
      ensures name == "max-distance-join-particles" ==>
                maxDistanceJoinParticles == OrElse(newValue, FallbackMaxDistance)
      ensures name != "max-distance-join-particles" ==>
                maxDistanceJoinParticles == old(maxDistanceJoinParticles)
    {
      if name == "particles" {
        particles := OrElse(newValue, FallbackParticles);
      } else if name == "max-distance-join-particles" {
        maxDistanceJoinParticles := OrElse(newValue, FallbackMaxDistance);
      }
    }

    /** `_handleParticles`: update and draw each particle, stroke its join
        lines, and splice it out in place once it has decayed. Every particle
        present at the start is updated exactly once; the survivors keep their
        order. `s0` names the values the particles hold at the start. */
    method HandleParticles(ghost s0: seq<PState>)
      requires Valid() && Shows(particlesArray, s0)
      modifies this`particlesArray, this`drawing, particlesArray
      ensures Valid()
      ensures forall k :: 0 <= k < |s0| ==> old(particlesArray)[k].State() == Step(s0[k])
      ensures forall p :: p in particlesArray <==> p in old(particlesArray) && p.size > Decrement
      ensures particlesArray == Select(old(particlesArray), Stepped(s0))
      ensures Shows(particlesArray, Survivors(s0))
      ensures drawing == old(drawing) + PassTrace(s0, maxDistanceJoinParticles)
    {
      ghost var a0 := particlesArray;
      ghost var d0 := drawing;
      ghost var md := maxDistanceJoinParticles;
      ghost var done: seq<PState> := [];
      ghost var kept: seq<Particle> := [];
      var i := 0;
      while i < |particlesArray|
        invariant |done| <= |a0| && done == Stepped(s0[..|done|])
        invariant kept == Select(a0[..|done|], done) && i == |kept|
        invariant particlesArray == kept + a0[|done|..]
        invariant Shows(a0, done + s0[|done|..])
        invariant maxDistanceJoinParticles == md
        invariant drawing == d0 + PassOps(s0, |done|, md)
        decreases |particlesArray| - i
      {
        ghost var k := |done|;
        var removed := HandleAt(i, a0, s0, done, kept);
        ghost var v := Step(s0[k]);
        ghost var kept' := kept + if removed then [] else [a0[k]];
        assert kept' == Select(a0[..k + 1], done + [v]) by {
          SelectSnoc(a0[..k], done, a0[k], v);
          TakeSnoc(a0, k);
        }
        assert done + [v] == Stepped(s0[..k + 1]) by {
          SteppedSnoc(s0, k);
        }
        assert drawing == d0 + PassOps(s0, k + 1, md) by {
          PassOpsSnoc(s0, k, md);
          AppendAssoc(d0, PassOps(s0, k, md), ElementOps(s0, k, md));
        }
        if !removed {
          i := i + 1;
        }
        kept := kept';
        done := done + [v];
      }
      assert |done| == |a0| by {
        assert |particlesArray| == |kept| + (|a0| - |done|);
      }
      assert particlesArray == kept by {
        assert a0[|done|..] == [];
      }
      assert s0[..|done|] == s0;
      PassFinished(a0, s0, done);
    }

    /** One turn of the outer loop of `_handleParticles`, for the particle at
        index `i`: the objects before it are `kept`, and it is the object
        `a0[k]` with `k == |done|`, where `done` are the values of the objects
        already handled and `s0` the values all objects `a0` held before the
        pass. Update it, draw it, stroke its join lines, and splice it out of
        the list if it has decayed (the caller then steps `i` back). */
    method HandleAt(i: nat, ghost a0: seq<Particle>, ghost s0: seq<PState>, ghost done: seq<PState>,
                    ghost kept: seq<Particle>)
        returns (removed: bool)
      requires Distinct(a0) && |done| < |a0| == |s0| && Shows(a0, done + s0[|done|..])
      requires i == |kept| && particlesArray == kept + a0[|done|..]
      modifies this`particlesArray, this`drawing, a0[|done|]
      ensures Shows(a0, (done + [Step(s0[|done|])]) + s0[|done| + 1..])
      ensures removed <==> Step(s0[|done|]).size <= Decrement
      ensures particlesArray == (kept + if removed then [] else [a0[|done|]]) + a0[|done| + 1..]
      ensures drawing == old(drawing) + ElementOps(s0, |done|, maxDistanceJoinParticles)
    {
      ghost var k := |done|;
      ghost var v := Step(s0[k]);
      ghost var after := (done + [v]) + s0[k + 1..];
      assert particlesArray[i] == a0[k] && particlesArray[i + 1..] == a0[k + 1..] by {
        Splice(kept, a0, k);
      }
      var p := particlesArray[i];
      UpdateOne(p, a0, done + s0[k..], k);
      assert Shows(a0, after) by {
        Advance(done, s0, v);
      }
      assert Shows(particlesArray[i + 1..], s0[k + 1..]) by {
        ShowsTail(a0, after, k);
        assert after[k + 1..] == s0[k + 1..];
      }
      DrawAt(i, s0, k);
      removed := p.size <= Decrement;
      if removed {
        particlesArray := particlesArray[..i] + particlesArray[i + 1..];
        assert particlesArray == kept + a0[k + 1..] by {
          Splice(kept, a0, k);
        }
      } else {
        assert particlesArray == (kept + [a0[k]]) + a0[k + 1..] by {
          Splice(kept, a0, k);
        }
      }
      assert Shows(a0, after);
    }

    /** `draw` for the particle at index `i`, which holds `Step(s0[k])`, and its
        join lines to the particles after it, which still hold `s0[k + 1..]`. */
    method DrawAt(i: nat, ghost s0: seq<PState>, ghost k: nat)
      requires i < |particlesArray| && k < |s0| && particlesArray[i].State() == Step(s0[k])
      requires Shows(particlesArray[i + 1..], s0[k + 1..])
      modifies this`drawing
      ensures drawing == old(drawing) + ElementOps(s0, k, maxDistanceJoinParticles)
    {
      ghost var v := Step(s0[k]);
      var arc := particlesArray[i].Draw();
      drawing := drawing + [arc];
      JoinLines(i, v, s0[k + 1..]);
      AppendAssoc(old(drawing), [arc], Joins(v, [v] + s0[k + 1..], maxDistanceJoinParticles));
    }

    /** The inner `j` loop of `_handleParticles` for the particle at index `i`,
        which holds `p`, while the particles after it still hold `rest`. */
    method JoinLines(i: nat, ghost p: PState, ghost rest: seq<PState>)
      requires i < |particlesArray| && particlesArray[i].State() == p
      requires Shows(particlesArray[i + 1..], rest)
      modifies this`drawing
      ensures drawing == old(drawing) + Joins(p, [p] + rest, maxDistanceJoinParticles)
    {
      ghost var targets := [p] + rest;
      ghost var d1 := drawing;
      var j := i;
      while j < |particlesArray|
        invariant i <= j <= |particlesArray|
        invariant drawing == d1 + Joins(p, targets[..j - i], maxDistanceJoinParticles)
      {
        var pi, pj := particlesArray[i], particlesArray[j];
        assert j > i ==> particlesArray[i + 1..][j - i - 1] == pj;
        assert pj.State() == targets[j - i];
        assert targets[..j - i + 1][..j - i] == targets[..j - i];
        if Near(pi.x, pi.y, pj.x, pj.y, maxDistanceJoinParticles) {
          drawing := drawing + [StrokeLine(pi.x, pi.y, pj.x, pj.y, pi.color)];
        }
        j := j + 1;
      }
      assert targets[..j - i] == targets;
    }

    /** `_animate`: one animation frame. Clear the canvas and run one pass; if
        particles remain, ask for another frame (`rearm`), otherwise drop the
        animating flag and clear the canvas again. `s0` names the values the
        particles hold at the start. */
    method Animate(ghost s0: seq<PState>) returns (rearm: bool)
      requires Valid() && Shows(particlesArray, s0)
      modifies this`particlesArray, this`drawing, this`animating, particlesArray
      ensures Valid() && Shows(particlesArray, Survivors(s0))
      ensures forall m :: 0 <= m < |particlesArray| ==> particlesArray[m] in old(particlesArray)
      ensures rearm <==> Survivors(s0) != []
      ensures animating == (rearm && old(animating))
      ensures drawing == old(drawing) + FrameTrace(s0, maxDistanceJoinParticles)
      ensures old(animating) && SizesBelow(s0, MaxSpawnSize) ==> Settled()
    {
      ghost var d0 := drawing;
      ghost var md := maxDistanceJoinParticles;
      drawing := drawing + [ClearRect];
      HandleParticles(s0);
      ghost var d1 := drawing;
      rearm := |particlesArray| > 0;
      assert rearm <==> Survivors(s0) != [] by {
        assert |particlesArray| == |Survivors(s0)|;
      }
      ghost var tail: seq<CanvasOp> := if rearm then [] else [ClearRect];
      if !rearm {
        animating := false;
        drawing := drawing + [ClearRect];
      }
      assert drawing == d0 + FrameTrace(s0, md) by {
        assert drawing == d1 + tail;
        assert d1 == (d0 + [ClearRect]) + PassTrace(s0, md);
        AppendAssoc(d0, [ClearRect], PassTrace(s0, md));
        AppendAssoc(d0, [ClearRect] + PassTrace(s0, md), tail);
      }
      if old(animating) && SizesBelow(s0, MaxSpawnSize) {
        assert Settled() by {
          SurvivorsInRange(s0);
          ShowsInRange(particlesArray, Survivors(s0));
        }
      }
      assert Shows(particlesArray, Survivors(s0));
    }

    /** `_handlerMouseDown`: ignored while a burst is animating; otherwise set
        the flag, add one particle per loop turn at the event point in the
        trigger's background colour, and run the first frame at once. The
        random draws are `samples`, one per particle, in creation order;
        `s0` names the values the particles hold at the start. */
    method MouseDown(eventX: real, eventY: real, bgColor: string, samples: seq<Sample>,
                     ghost s0: seq<PState>)
        returns (frameRequested: bool)
      requires Valid() && Shows(particlesArray, s0)
      requires BurstSize(particles) <= |samples|
      requires forall k :: 0 <= k < |samples| ==> ValidSample(samples[k])
      modifies this`particlesArray, this`drawing, this`animating, particlesArray
      ensures Valid()
      ensures old(animating) ==>
                !frameRequested && animating && particlesArray == old(particlesArray) &&
                Shows(particlesArray, s0) && drawing == old(drawing)
      ensures !old(animating) ==>
                var all := s0 + Burst(eventX, eventY, bgColor, samples[..BurstSize(particles)]);
                Shows(particlesArray, Survivors(all)) &&
                drawing == old(drawing) + FrameTrace(all, maxDistanceJoinParticles) &&
                (frameRequested <==> Survivors(all) != []) && animating == frameRequested
      ensures old(Settled()) ==> Settled()
      ensures old(Settled()) && !old(animating) ==>
                |particlesArray| == BurstSize(particles) && (frameRequested <==> BurstSize(particles) > 0)
      ensures forall m :: 0 <= m < |particlesArray| ==>
                particlesArray[m] in old(particlesArray) || fresh(particlesArray[m])
    {
      if animating {
        frameRequested := false;
        return;
      }
      if Settled() {
        assert s0 == [] by {
          assert |particlesArray| == |s0|;
        }
      }
      frameRequested := StartBurst(eventX, eventY, bgColor, samples, s0);
    }

    /** `_handlerMouseDown` past its guard: set the flag, push the burst and
        run the first frame. */
    method StartBurst(eventX: real, eventY: real, bgColor: string, samples: seq<Sample>,
                      ghost s0: seq<PState>)
        returns (frameRequested: bool)
      requires !animating && Valid() && Shows(particlesArray, s0)
      requires BurstSize(particles) <= |samples|
      requires forall k :: 0 <= k < |samples| ==> ValidSample(samples[k])
      modifies this`particlesArray, this`drawing, this`animating, particlesArray
      ensures Valid()
      ensures Shows(particlesArray, Survivors(s0 + Burst(eventX, eventY, bgColor, samples[..BurstSize(particles)])))
      ensures drawing == old(drawing) +
                FrameTrace(s0 + Burst(eventX, eventY, bgColor, samples[..BurstSize(particles)]), maxDistanceJoinParticles)
      ensures frameRequested <==> Survivors(s0 + Burst(eventX, eventY, bgColor, samples[..BurstSize(particles)])) != []
      ensures animating == frameRequested
      ensures s0 == [] ==> Settled()
      ensures s0 == [] ==> |particlesArray| == BurstSize(particles)
      ensures forall m :: 0 <= m < |particlesArray| ==>
                particlesArray[m] in old(particlesArray) || fresh(particlesArray[m])
    {
      animating := true;
      PushBurst(eventX, eventY, bgColor, samples, s0);
      ghost var pushed := particlesArray;
      frameRequested := FirstFrame(eventX, eventY, bgColor, samples, s0);
      forall m | 0 <= m < |particlesArray|
        ensures particlesArray[m] in old(particlesArray) || fresh(particlesArray[m])
      {
        var k :| 0 <= k < |pushed| && pushed[k] == particlesArray[m];
      }
    }

    /** The `_animate` call that ends `_handlerMouseDown`, on the list `s0`
        followed by the burst just pushed. */
    method FirstFrame(eventX: real, eventY: real, bgColor: string, samples: seq<Sample>,
                      ghost s0: seq<PState>)
        returns (frameRequested: bool)
      requires BurstSize(particles) <= |samples|
      requires forall k :: 0 <= k < |samples| ==> ValidSample(samples[k])
      requires animating && Valid()
      requires Shows(particlesArray, s0 + Burst(eventX, eventY, bgColor, samples[..BurstSize(particles)]))
      modifies this`particlesArray, this`drawing, this`animating, particlesArray
      ensures Valid()
      ensures Shows(particlesArray, Survivors(s0 + Burst(eventX, eventY, bgColor, samples[..BurstSize(particles)])))
      ensures drawing == old(drawing) +
                FrameTrace(s0 + Burst(eventX, eventY, bgColor, samples[..BurstSize(particles)]), maxDistanceJoinParticles)
      ensures frameRequested <==> Survivors(s0 + Burst(eventX, eventY, bgColor, samples[..BurstSize(particles)])) != []
      ensures animating == frameRequested
      ensures s0 == [] ==> Settled()
      ensures s0 == [] ==> |particlesArray| == BurstSize(particles)
      ensures forall m :: 0 <= m < |particlesArray| ==> particlesArray[m] in old(particlesArray)
    {
      ghost var all := s0 + Burst(eventX, eventY, bgColor, samples[..BurstSize(particles)]);
      if s0 == [] {
        assert SizesBelow(all, MaxSpawnSize);
      }
      frameRequested := Animate(all);
      if s0 == [] {
        assert |particlesArray| == BurstSize(particles) by {
          assert all == Burst(eventX, eventY, bgColor, samples[..BurstSize(particles)]);
          BurstSurvives(eventX, eventY, bgColor, samples[..BurstSize(particles)]);
          assert |particlesArray| == |Survivors(all)|;
        }
      }
    }

    /** The loop of `_handlerMouseDown` that runs while its counter is below
        `particles`, each turn appending a new particle made from the next
        sample at the event point. */
    method PushBurst(eventX: real, eventY: real, bgColor: string, samples: seq<Sample>,
                     ghost s0: seq<PState>)
      requires Valid() && Shows(particlesArray, s0)
      requires BurstSize(particles) <= |samples|
      requires forall k :: 0 <= k < |samples| ==> ValidSample(samples[k])
      modifies this`particlesArray
      ensures Valid()
      ensures Shows(particlesArray, s0 + Burst(eventX, eventY, bgColor, samples[..BurstSize(particles)]))
      ensures forall m :: 0 <= m < |particlesArray| ==>
                particlesArray[m] in old(particlesArray) || fresh(particlesArray[m])
      ensures |old(particlesArray)| <= |particlesArray| && particlesArray[..|old(particlesArray)|] == old(particlesArray)
    {
      ghost var a0 := particlesArray;
      ghost var burst := Burst(eventX, eventY, bgColor, samples[..BurstSize(particles)]);
      var n := 0;
      while (n as real) < particles
        invariant n <= BurstSize(particles)
        invariant Distinct(particlesArray) && Shows(particlesArray, s0 + burst[..n])
        invariant forall m :: 0 <= m < |particlesArray| ==> particlesArray[m] in a0 || fresh(particlesArray[m])
        invariant |a0| <= |particlesArray| && particlesArray[..|a0|] == a0
        decreases BurstSize(particles) - n
      {
        BurstSizeCounts(particles, n);
        var p := new Particle(eventX, eventY, bgColor, samples[n]);
        assert (s0 + burst[..n]) + [burst[n]] == s0 + burst[..n + 1];
        ShowsSnoc(particlesArray, s0 + burst[..n], p, burst[n]);
        assert (particlesArray + [p])[..|a0|] == particlesArray[..|a0|];
        particlesArray := particlesArray + [p];
        n := n + 1;
      }
      BurstSizeCounts(particles, n);
      assert burst[..n] == burst;
    }

    /** The host running every frame `_animate` asks for, until one asks for
        none. From a settled element whose list holds `s0` this takes
        `frames` frames, at most `MaxFrames`, and stops at the first frame that
        empties the list. */
    method RunAnimation(ghost s0: seq<PState>) returns (frames: nat)
      requires Settled() && Shows(particlesArray, s0)
      modifies this`particlesArray, this`drawing, this`animating, particlesArray
      ensures Settled() && particlesArray == [] && !animating
      ensures frames <= MaxFrames && Frames(s0, frames) == []
      ensures forall n :: 0 <= n < frames ==> Frames(s0, n) != []
      ensures drawing == old(drawing) + Animation(s0, frames, maxDistanceJoinParticles)
    {
      assert SizesBelow(s0, MaxSpawnSize) by {
        ShowsBelow(particlesArray, s0);
      }
      frames := ServeFrames(s0, 0, drawing, particlesArray);
      assert Frames(s0, frames) == [] && (frames > 0 ==> Frames(s0, frames - 1) != []) by {
        assert |particlesArray| == |Frames(s0, frames)|;
      }
      FirstEmpty(s0, frames);
      if frames > 0 {
        StillAliveBound(s0, frames - 1);
      }
    }

    /** What holds between the frames `RunAnimation` serves: the list holds
        what `n` frames left of `s0`, a frame is pending exactly when it is
        not empty, the frame before the `n`-th did not empty it, the objects
        all come from the starting list `outer`, and the canvas holds `d0`
        followed by what the `n` frames painted. */
    ghost predicate Serving(s0: seq<PState>, n: nat, d0: seq<CanvasOp>, outer: seq<Particle>)
      reads this, particlesArray
    {
      && Valid() && Shows(particlesArray, Frames(s0, n))
      && (animating <==> particlesArray != [])
      && (n > 0 ==> Frames(s0, n - 1) != [])
      && (forall m :: 0 <= m < |particlesArray| ==> particlesArray[m] in outer)
      && drawing == d0 + Animation(s0, n, maxDistanceJoinParticles)
    }

    /** The frames served from the `n`-th on: each frame `_animate` runs
        asks for the next one through `requestAnimationFrame` while particles
        remain, and the host runs it. Ends when no frame is pending, after
        `frames` frames in all. */
    method ServeFrames(ghost s0: seq<PState>, n: nat, ghost d0: seq<CanvasOp>, ghost outer: seq<Particle>)
        returns (frames: nat)
      requires Serving(s0, n, d0, outer) && SizesBelow(s0, MaxSpawnSize)
      modifies this`particlesArray, this`drawing, this`animating, outer
      ensures Serving(s0, frames, d0, outer) && !animating
      decreases MaxFrames - n
    {
      if !animating {
        return n;
      }
      var pending := NextFrame(s0, n, d0, outer);
      if pending {
        frames := ServeFrames(s0, n + 1, d0, outer);
      } else {
        frames := n + 1;
      }
    }

    /** One frame the host runs on a pending request: it moves the state
        between frames from `n` frames to `n + 1`. */
    method NextFrame(ghost s0: seq<PState>, ghost n: nat, ghost d0: seq<CanvasOp>, ghost outer: seq<Particle>)
        returns (rearm: bool)
      requires Serving(s0, n, d0, outer) && animating
      requires SizesBelow(s0, MaxSpawnSize)
      modifies this`particlesArray, this`drawing, this`animating, outer
      ensures n < MaxFrames && Frames(s0, n) != []
      ensures Serving(s0, n + 1, d0, outer) && rearm == animating
    {
      ghost var md := maxDistanceJoinParticles;
      ghost var cur := Frames(s0, n);
      assert cur != [] by {
        assert |particlesArray| == |cur|;
      }
      StillAliveBound(s0, n);
      ghost var before := particlesArray;
      rearm := Animate(cur);
      forall m | 0 <= m < |particlesArray|
        ensures particlesArray[m] in outer
      {
        var i :| 0 <= i < |before| && before[i] == particlesArray[m];
      }
      FramesNext(s0, n);
      assert |particlesArray| == |Frames(s0, n + 1)|;
      assert drawing == d0 + Animation(s0, n + 1, md) by {
        AppendAssoc(d0, Animation(s0, n, md), FrameTrace(cur, md));
      }
    }
  }
}
