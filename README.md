# canvas-draw particle bursts, modelled in Dafny

`canvas-draw` is a custom element that paints a burst of coloured particles
on a full-window canvas whenever the user presses the pointer on one of the
page's trigger elements. A burst is a number of particles (`particles`,
40 by default) spawned at the pointer position in the trigger's background
colour, each with a random radius in [1, 17) and a random velocity in
[-5, 5) on each axis. Every animation frame clears the canvas and runs one
pass over the particle list:

- each particle moves by its velocity and shrinks by 0.2 while its radius is above 0.2;
- each particle is drawn as a filled circle;
- a thin line in the particle's colour is stroked to every particle from its
  own index onward whose centre is closer than `max-distance-join-particles`
  (80 by default);
- particles whose radius has reached 0.2 or less are spliced out of the list.

The element asks for the next frame while particles remain. Once the list is
empty it clears the canvas and accepts the next pointer press. A pointer press
while a burst is animating is ignored.

The model has three modules:

- `Particles` (`particle.dfy`) holds the `Particle` class, with the fields
  `update` changes in place. It also holds the value `PState` of a particle,
  and `Spawn` and `Step`, which say what the constructor and `update` compute.
- `Frame` (`frame.dfy`) describes, on values, what one pass of
  `_handleParticles` does:
  - `Survivors` gives the list after the pass;
  - `PassTrace` gives the canvas operations the pass paints;
  - `Frames` gives the list after `n` frames;
  - `FrameTrace` and `Animation` give what one frame, and then `n` frames,
    paint.

  It also proves how repeated frames drain any burst.
- `CanvasDrawing` (`canvas_draw.dfy`) holds the `CanvasDraw` class with the
  element's state:
  - the particle list, a sequence of `Particle` objects;
  - the animating flag;
  - the two settings;
  - the canvas, kept as the sequence of operations painted on it so far.

  `HandleParticles`, `Animate` and `MouseDown` work on this state in place,
  loop by loop as the source does. Each is proved against the `Frame`
  functions: the objects in the list hold, index by index, the values the
  functions compute, and the painted operations are exactly the ones they
  compute. `RunAnimation` is the browser serving each requested animation
  frame until none is requested.

Numbers are exact reals. The distance test `Math.sqrt(dx*dx + dy*dy) < max`
is written without the square root, and `NearIsDistanceBelow` proves the two
forms agree for every threshold. The random draws are parameters. Each particle
takes a `Sample` of three numbers in [0, 1), in the order the constructor draws
them. A burst takes one sample per particle.

The field initialiser of `particles` is 40. An attribute change to a missing
or empty `particles` value sets it to 100. The model keeps both constants
(`InitialParticles`, `FallbackParticles`).

## Model

| member | source | states |
|---|---|---|
| Particles.Spawn | src/js/canvas/script.js:4-14 | a new particle sits at the given point in the given colour, with radius in [1, 17) and both speeds in [-5, 5) |
| Particles.Particle.constructor | src/js/canvas/script.js:4-14 | the object holds exactly the value `Spawn` gives for its point, colour and three random draws |
| Particles.Step | src/js/canvas/script.js:15-19 | `update` moves by the velocity and keeps velocity and colour; the radius drops by exactly 0.2 if and only if it was above 0.2, otherwise it is unchanged; a positive radius stays positive |
| Particles.Particle.Update | src/js/canvas/script.js:15-19 | the object's new value is `Step` of its old value |
| Particles.Particle.Draw | src/js/canvas/script.js:20-25 | paints the filled circle at the particle's current centre, radius and colour |
| Frame.NearIsDistanceBelow | src/js/canvas/script.js:92-95 | the squared comparison used by the model holds exactly when the Euclidean distance is strictly below the threshold, for any threshold; equal distance gives no line |
| Frame.JoinsExactlyNear | src/js/canvas/script.js:91-103 | a line is painted by the inner loop if and only if it goes from particle i's centre, in i's colour, to the centre of one of the candidates strictly within the threshold; there are never more lines than candidates |
| Frame.SelfJoin | src/js/canvas/script.js:91-95 | because j starts at i, a particle is joined to itself by a zero-length line, right after its circle, exactly when the threshold is positive; with a threshold of zero or less the particle paints only its circle |
| Frame.PassDrawsEachOnce | src/js/canvas/script.js:87-89 | the circles of a pass are the particles of the list, each once, in list order, each in its state after `update` |
| Frame.AliveExactly | src/js/canvas/script.js:105-108 | the splice keeps exactly the particles whose radius is above 0.2 and never lengthens the list |
| Frame.AllAlive | src/js/canvas/script.js:105-108 | when every particle is above 0.2, the splices remove nothing and the list is unchanged |
| Frame.SurvivorsShrink | src/js/canvas/script.js:87-109 | after a pass the list is no longer than before and every particle left has radius above 0.2 |
| Frame.SurvivorsSnoc | src/js/canvas/script.js:87-109 | handling one more particle adds that particle after its update to the survivors, or nothing if it decayed; survivors keep their relative order |
| Frame.SurvivorsLowerBound | src/js/canvas/script.js:18 | if every radius is below b before a pass, every radius left after it is below b - 0.2 |
| Frame.FramesLowerBound | src/js/canvas/script.js:131-140 | after n frames every radius left is below the starting bound minus n times 0.2 |
| Frame.FramesDrain | src/js/canvas/script.js:131-140 | a list whose radii are all below (n + 1) * 0.2 is empty after any n >= 1 frames |
| Frame.BurstDrains | src/js/canvas/script.js:10 | since every spawned radius is below 17 = 85 * 0.2, any burst is gone after 84 frames |
| Frame.FramesStayEmpty | src/js/canvas/script.js:134-139 | once a frame leaves the list empty, all later frame counts give the empty list |
| Frame.StillAliveBound | src/js/canvas/script.js:131-140 | a burst can still hold particles only before frame 84 |
| Frame.FirstEmpty | src/js/canvas/script.js:134-139 | if the last frame run started non-empty and left the list empty, no earlier frame count gives an empty list: the animation stops at the first emptying frame |
| Frame.AnimationEndsBlank | src/js/canvas/script.js:136-139 | an animation that emptied the list ends by clearing the canvas |
| CanvasDrawing.BurstSizeCounts | src/js/canvas/script.js:118 | `i < particles` holds for a natural i exactly when i is below `BurstSize(particles)`, the number of times the loop runs; zero or a negative setting runs it zero times, a fractional one rounds up |
| CanvasDrawing.Burst | src/js/canvas/script.js:118-122 | a burst has one particle per sample, all at the event point in the trigger's colour, each with radius in [1, 17) and speeds in [-5, 5) |
| CanvasDrawing.BurstSurvives | src/js/canvas/script.js:10-18 | every particle of a burst outlives its first frame, since a spawned radius of at least 1 is still at least 0.8 after one update: the first pass over a burst keeps all of it, stepped |
| CanvasDrawing.SurvivorsInRange | src/js/canvas/script.js:105-108 | from radii below 17, a pass leaves only radii in (0.2, 17) |
| CanvasDrawing.SelectShows | src/js/canvas/script.js:105-108 | the objects the splices keep hold exactly the surviving values, in order |
| CanvasDrawing.SelectMembers | src/js/canvas/script.js:105-108 | the splices keep only objects from the list, and keep every object whose updated radius is above 0.2 |
| CanvasDrawing.SelectDistinct | src/js/canvas/script.js:105-108 | the splices never put an object in the list twice |
| CanvasDrawing.UpdateOne | src/js/canvas/script.js:88 | `update` on the i-th particle changes that particle's value by one `Step` and no other particle's value |
| CanvasDrawing.PassFinished | src/js/canvas/script.js:87-109 | at the end of the pass every particle present at the start was updated exactly once, and the list is the distinct updated objects above 0.2, in their old order, holding `Survivors` of the starting values |
| CanvasDrawing.CanvasDraw.constructor | src/js/canvas/script.js:29-32 | a new element has an empty list, is not animating, has burst size 40 and join threshold 80, has painted nothing, and is settled |
| CanvasDrawing.CanvasDraw.AttributeChanged | src/js/canvas/script.js:37-43 | `particles` becomes the new value or 100 when it is missing or empty; `max-distance-join-particles` becomes the new value or 80; any other name, and the setting not named, are unchanged |
| CanvasDrawing.CanvasDraw.HandleParticles | src/js/canvas/script.js:86-110 | one pass updates each particle present at the start exactly once. The list left is the selection, from the very objects of the old list in their old order, of those whose updated radius is above 0.2; they are distinct and hold `Survivors` of the starting values. The canvas gains exactly `PassTrace` of the starting values |
| CanvasDrawing.CanvasDraw.HandleAt | src/js/canvas/script.js:87-108 | one outer-loop turn updates the particle at index i only, paints its circle and join lines, and splices it out exactly when its radius is now at most 0.2; all other list entries are unchanged |
| CanvasDrawing.CanvasDraw.DrawAt | src/js/canvas/script.js:89-103 | paints the updated particle's circle, then its lines to itself and to the later particles, which still stand where they stood before the pass |
| CanvasDrawing.CanvasDraw.JoinLines | src/js/canvas/script.js:91-104 | the inner loop from j = i paints exactly `Joins` of particle i over itself and the later particles |
| CanvasDrawing.CanvasDraw.Animate | src/js/canvas/script.js:131-140 | one frame clears, runs one pass, and asks for another frame exactly when particles remain. Otherwise it drops the flag and clears again. From an animating element with radii below 17, the element is settled afterwards: animating exactly when particles remain, and every radius is in (0.2, 17) |
| CanvasDrawing.CanvasDraw.MouseDown | src/js/canvas/script.js:112-124 | a press while animating changes nothing and asks for no frame. Otherwise it appends the burst to the list and runs the first frame at once; the frame works on the old values followed by the burst. A settled element stays settled. A press on an idle settled element leaves exactly `BurstSize(particles)` particles after that first frame, and asks for another frame exactly when that number is positive. Every object in the list afterwards was in it before or is new |
| CanvasDrawing.CanvasDraw.StartBurst | src/js/canvas/script.js:114-123 | past the guard: the flag is set, the burst is appended, one frame runs, and the flag stays set exactly when a frame was requested. From an empty list the whole burst survives that frame. Every object in the list afterwards was in it before or is new |
| CanvasDrawing.CanvasDraw.FirstFrame | src/js/canvas/script.js:123 | the frame that ends the handler works on the old values followed by the burst and keeps only objects already in the list; from an empty list it leaves the element settled with all `BurstSize(particles)` particles |
| CanvasDrawing.CanvasDraw.PushBurst | src/js/canvas/script.js:118-122 | the loop appends `BurstSize(particles)` fresh distinct particles holding `Burst` of the samples; the existing objects stay, in place, as the prefix of the list |
| CanvasDrawing.CanvasDraw.RunAnimation | src/js/canvas/script.js:134-135 | serving every requested frame from a settled element ends with an empty list and the flag down. This takes at most 84 frames and stops at the first frame that empties the list; the canvas gains exactly `Animation` of those frames |
| CanvasDrawing.CanvasDraw.ServeFrames | src/js/canvas/script.js:131-140 | serving, from the state after n frames, each frame the previous one asked for ends with no frame pending, an empty list, and the list, canvas and flag that `Frames` and `Animation` give for the number of frames served |
| CanvasDrawing.CanvasDraw.NextFrame | src/js/canvas/script.js:131-140 | a requested frame comes before frame 84 and finds particles in the list. It turns the list and canvas after n frames into those after n + 1 frames, and asks for another frame exactly when particles remain |

## Left out

- The custom-element plumbing is not modelled: `customElements.define`, `observedAttributes`, the shadow root, the style element and `render`. The element is a class with the state the core uses.
- Listener registration (`connectedCallback`, `disconnectedCallback`) is not modelled. Pointer presses are calls of `MouseDown`. Note that `disconnectedCallback` passes a freshly bound function to `removeEventListener`, so in the source it never removes the listener it added.
- The canvas is kept only as a list of abstract operations. The 2D-context state changes behind them (`beginPath`, `closePath`, `lineWidth = 0.2`, full-circle angles) are folded into `FillArc`, `StrokeLine` and `ClearRect`. The extent of `clearRect` is not kept.
- `_calculateCanvasSize` is not modelled. It resizes the canvas to the element, which in a browser also blanks the bitmap and resets the context state. Nothing observable is lost: the handler's first frame starts with a full `ClearRect` right after, and every painting operation sets its own style.
- The timing of `requestAnimationFrame` is not modelled. `Animate` returns whether it asked for a frame, and `RunAnimation` serves those requests back to back.
- RunAnimation: does not model pointer presses or attribute changes arriving between frames, because it serves the frames back to back. A press there is a no-op, as `MouseDown` proves. A threshold change would only alter later frames' lines.
- `Math.random` is not modelled: its results are the `samples` parameter, assumed in [0, 1).
- `getComputedStyle(...).getPropertyValue("background-color")` is not modelled: the colour is the `bgColor` parameter.
- Floating-point arithmetic is not modelled: positions, speeds and radii are exact reals. IEEE rounding of `size -= 0.2` and `Math.sqrt` can make the float program behave differently near the thresholds. For example, a radius may land just above 0.2 and live one frame longer.
- Attribute values are numbers or `None`. The string values the browser passes, and JavaScript's coercion of them in `i < this.particles` and `distance < this.maxDistanceJoinParticles`, are not modelled. A non-numeric value, which compares as NaN, has no counterpart.
- `fillStyle` and `color` of a particle are one field. The constructor sets both to the same argument and nothing reassigns either.
