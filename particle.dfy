/**
 * One particle of the burst effect: a point with a velocity, a radius that
 * shrinks every frame, and a fixed colour. The random draws that pick the
 * radius and the velocity at creation are parameters (a `Sample`), and the
 * canvas calls of `draw` become a `CanvasOp` value appended to a trace.
 */
module Particles {

  /** Radius lost per frame, and the floor at or below which a particle is decayed. */
  const Decrement: real := 0.2

  /** Every radius a particle is created with is below this bound. */
  const MaxSpawnSize: real := 17.0

  /** The three `Math.random()` results a new particle consumes, in the order they are drawn. */
  datatype Sample = Sample(forSize: real, forSpeedX: real, forSpeedY: real)

  predicate InUnit(r: real) { 0.0 <= r < 1.0 }

  /** What `Math.random()` guarantees of each of its results. */
  predicate ValidSample(d: Sample)
  {
    InUnit(d.forSize) && InUnit(d.forSpeedX) && InUnit(d.forSpeedY)
  }

  /** The value of a particle: everything `update` and `draw` look at. */
  datatype PState = PState(x: real, y: real, speedX: real, speedY: real, size: real, color: string)

  /** Abstract canvas operations: one clearing of the whole surface, one filled
      circle (`draw`), one stroked join line of width 0.2 between two centres. */
  datatype CanvasOp =
    | ClearRect
    | FillArc(cx: real, cy: real, radius: real, fill: string)
    | StrokeLine(x1: real, y1: real, x2: real, y2: real, stroke: string)

  /** A particle as the constructor makes it from its three random draws. */
  function Spawn(x: real, y: real, fillStyle: string, d: Sample): (p: PState)
    requires ValidSample(d)
    ensures p.x == x && p.y == y && p.color == fillStyle
    ensures 1.0 <= p.size < MaxSpawnSize
    ensures -5.0 <= p.speedX < 5.0 && -5.0 <= p.speedY < 5.0
  {
    PState(x, y, d.forSpeedX * 10.0 - 5.0, d.forSpeedY * 10.0 - 5.0, d.forSize * 16.0 + 1.0, fillStyle)
  }

  /** One tick of `update`: move by the velocity, shrink while above the floor. */
  function Step(p: PState): (q: PState)
    ensures q.x == p.x + p.speedX && q.y == p.y + p.speedY
    ensures q.speedX == p.speedX && q.speedY == p.speedY && q.color == p.color
    ensures q.size <= p.size
    ensures p.size > 0.0 ==> q.size > 0.0
    ensures q.size == p.size - Decrement <==> p.size > Decrement
    ensures q.size != p.size ==> q.size == p.size - Decrement
  {
    var size := if p.size > Decrement then p.size - Decrement else p.size;
    p.(x := p.x + p.speedX, y := p.y + p.speedY, size := size)
  }

  /** The filled circle `draw` paints for a particle in state `p`. */
  function ArcOf(p: PState): CanvasOp
  {
    FillArc(p.x, p.y, p.size, p.color)
  }

  class Particle {
    var x: real
    var y: real
    const speedX: real
    const speedY: real
    var size: real
    /** Stands for both `fillStyle` (used by `draw`) and `color` (used for join
        lines): the constructor sets both to its argument and nothing reassigns them. */
    const color: string

    function State(): PState
      reads this
    {
      PState(x, y, speedX, speedY, size, color)
    }

    constructor (x: real, y: real, fillStyle: string, d: Sample)
      requires ValidSample(d)
      ensures State() == Spawn(x, y, fillStyle, d)
    {
      this.x := x;
      this.y := y;
      this.size := d.forSize * 16.0 + 1.0;
      this.speedX := d.forSpeedX * 10.0 - 5.0;
      this.speedY := d.forSpeedY * 10.0 - 5.0;
      this.color := fillStyle;
    }

    method Update()
      modifies this
      ensures State() == Step(old(State()))
    {
      x := x + speedX;
      y := y + speedY;
      if size > Decrement {
        size := size - Decrement;
      }
    }

    method Draw() returns (op: CanvasOp)
      ensures op == ArcOf(State())
    {
      op := FillArc(x, y, size, color);
    }
  }
}
