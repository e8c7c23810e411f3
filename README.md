# Dice reader: locator and running total

This project models the decision logic of a webcam dice reader (`main.cpp`). For each frame, the
program finds rotated rectangles. It keeps the near-square ones whose area falls in a fixed window,
and drops any whose centre lies within 10 pixels of one already kept. It counts the pips on each die
it keeps. Three process-wide variables (`currentAmount`, `previousAmount`, `firstCheck`) turn those
counts into a displayed total.

The model has three modules:

- `DiceLocator` models the shape and area filter and the centre de-duplication. `Locate` is a
  function on the candidate sequence. `LocateDice` is the source's nested loop (with its `process`
  flag and early `break`), proved equal to `Locate`.
- `PipAccumulator` models the counter as a `State` value. It has the per-die update (`AddDie`), the
  end-of-frame update (`EndFrame`), the whole-frame `Step`, and runs over many frames. It also gives
  a reference machine with two phases: `Counting`, and `Holding(total)`. Every frame of the real
  machine is proved to move as the reference machine moves.
- `FrameLoop` holds the three globals as the fields of class `DiceReader`. Its methods update them
  in place. Each method is proved against the functions above: one per die, one at frame end, one
  per frame, and one for the capture loop.

Inputs:

- Each candidate is the toolkit's rotated rectangle (centre, width, height) together with its pip
  count. The pip count is taken as an opaque non-negative input. In the source it is what the pip
  counter returns for the region cut from the frame being annotated (`main.cpp:121-123`). By then the
  boxes and labels of earlier kept dice with a positive pip count have been drawn on that frame
  (`main.cpp:125`, `132-139`), so one die's count can depend on the dice before it. Treating the count as an input takes that in.
- A stream is a sequence of frames. Each frame is given by its candidates, and the end of the
  sequence is the end of the stream.

What the proofs show:

- The kept rectangles form an order-preserving subsequence of the candidates. Each of them passes
  the filter, and any two of their centres are at least 10 apart.
- A candidate is kept exactly when it passes the filter and no earlier kept candidate is too close.
  The first-seen candidate wins.
- Counting the dice one at a time gives the same state as applying the frame's pip sum once.
- From the initial values, the two totals agree and stay non-negative after every frame. The
  accumulating phase starts from zero and lasts one frame. After that, the total is held until a
  frame's pip sum differs from it. That frame still displays the held total, and the reset shows
  on the frame after it.

The total is displayed before the end-of-frame update (`main.cpp:151`, then `157-166`), so frame
sums 5, 5, 0 display 5, 5, 5 (`PipAccumulator.TraceResetShownLate`).

## Model

| member | source | states |
|---|---|---|
| `DiceLocator.ShapeAccepted` | main.cpp:100-101 | The shape and size test on one rectangle: non-zero height, abs(w/h − 1) < 0.25, and 2000 < w·h < 4000. Its contract states that an accepted rectangle has positive width and height |
| `DiceLocator.TooClose` | main.cpp:107-108 | `norm(c − k) < 10` in squared form. Its contract states that a centre is too close to itself |
| `DiceLocator.Locate` | main.cpp:94-116 | The rectangles kept after the candidates are considered in order: each candidate that passes the filter and is not too close to any rectangle kept so far is appended. Its contract states that no more rectangles are kept than there are candidates |
| `DiceLocator.LocateDice` | main.cpp:94-116 | The nested scan with its `process` flag and `break` returns exactly `Locate(candidates)`: each candidate that passes the filter is compared in order with the rectangles kept so far and is appended when none is too close |
| `DiceLocator.KeptIndices` | main.cpp:94-116 | The kept rectangles are the candidates at strictly increasing positions, in their original order |
| `DiceLocator.ShapeAcceptedIff` | main.cpp:100-101 | A rectangle passes the filter exactly when its height is positive, 0.75·h < w < 1.25·h, and 2000 < w·h < 4000, all strict |
| `DiceLocator.AspectWithoutDivision` | main.cpp:100 | For a positive height, abs(w/h − 1) < 0.25 holds exactly when 0.75·h < w < 1.25·h |
| `DiceLocator.SquarePassesAspect` | main.cpp:100 | A square of any positive size passes the aspect test |
| `DiceLocator.AreaWindowIsStrict` | main.cpp:101 | An area of exactly 2000 or 4000 is rejected; a 50 by 50 square is accepted |
| `DiceLocator.ZeroHeightRejectedByArea` | main.cpp:100-101 | A zero-height rectangle fails the area test, so the explicit height guard changes no outcome |
| `DiceLocator.LocateAccepted` | main.cpp:101-116 | Every kept rectangle passes the shape and area filter |
| `DiceLocator.LocateSeparated` | main.cpp:104-116 | Any two kept rectangles have centres at squared distance at least 100, that is at least 10 apart |
| `DiceLocator.LocatePrefix` | main.cpp:92-116 | `diceRects` only grows by appending: what is kept from a prefix of the candidates is a prefix of what is kept from all of them |
| `DiceLocator.KeptIff` | main.cpp:94-116 | Candidate i is kept if and only if it passes the filter and no candidate kept at an earlier position has its centre too close |
| `DiceLocator.DroppedHasEarlierTwin` | main.cpp:104-111 | A candidate that passes the filter but is dropped has a candidate kept at an earlier position within distance 10: the first one seen wins |
| `DiceLocator.LocateIdempotent` | main.cpp:94-116 | Running the locator on its own output returns that output unchanged |
| `DiceLocator.SeparationBoundary` | main.cpp:105-111 | Of two accepted candidates, the second is kept at distance exactly 10 and dropped at any smaller distance |
| `PipAccumulator.AddDie` | main.cpp:125-144 | One counted die leaves the phase unchanged, changes only one of the two totals, and raises the current total minus the previous total by the die's pips (zero pips change nothing) |
| `PipAccumulator.AddDice` | main.cpp:94-148 | The dice of a frame counted in order leave the phase unchanged and raise the current total minus the previous total by the frame's pip sum |
| `PipAccumulator.Sum` | main.cpp:123-144 | The pip sum of a frame's dice; no single die's count exceeds it |
| `PipAccumulator.ApplySum` | main.cpp:141-144 | A frame's pip sum applied in one go leaves the phase unchanged, changes only one of the two totals, and raises their difference by the sum |
| `PipAccumulator.Shown` | main.cpp:151 | The total displayed for a frame is the total plus the frame sum while accumulating, and the unchanged total while settling |
| `PipAccumulator.Step` | main.cpp:141-166 | After any frame the two totals are equal; a machine sent back to accumulating has total 0; otherwise the total is the one displayed for that frame |
| `PipAccumulator.Run` | main.cpp:68-176 | After one or more frames from any state, the two totals are equal, and the total is 0 whenever the machine is accumulating |
| `PipAccumulator.Displays` | main.cpp:150-151 | One displayed total per frame |
| `PipAccumulator.DisplaysAt` | main.cpp:150-166 | Frame k displays what the state reached after the first k frames shows for frame k's sum |
| `PipAccumulator.EndFrame` | main.cpp:157-166 | After the end-of-frame update, the previous total equals the current total. The machine resets (total 0, accumulating) exactly when it was settling and the previous total was not 0; otherwise it settles with its total unchanged |
| `PipAccumulator.AddDiceIsApplySum` | main.cpp:125-144 | Applying the per-die updates in order, with zero counts skipped, gives the same state as applying the frame's pip sum once |
| `PipAccumulator.AccumulatingStep` | main.cpp:141-166 | While accumulating, a frame adds its sum to the total, shows the new total, moves to settling, and leaves the previous total equal to the new total |
| `PipAccumulator.SettlingStep` | main.cpp:143-166 | While settling with equal totals, a frame resets the machine to its initial values exactly when its sum differs from the total, and otherwise changes nothing; it shows the total from before any reset |
| `PipAccumulator.StepRefinesPhase` | main.cpp:141-166 | Each frame keeps the state reachable (equal, non-negative totals, and zero while accumulating), moves the phase as the reference machine does, and shows what it shows |
| `PipAccumulator.RunRefinesPhase` | main.cpp:12-166 | From the initial values, after any frames, the state is reachable, its phase is the reference machine's, and the displayed totals are the reference machine's |
| `PipAccumulator.TraceResetShownLate` | main.cpp:151-166 | For any sums a, b with b ≠ a, frame sums a, a, b display a, a, a and end in the initial state, and a fourth frame with sum c displays c; with a = 5, b = 0, c = 3 this is 5, 5, 5, 3 |
| `FrameLoop.PipsOf` | main.cpp:116-123 | The pip counts of the kept dice, one per die and in the order they were kept |
| `FrameLoop.FrameSum` | main.cpp:123-144 | The pips of all dice kept in a frame. It is 0 when no die is kept, and no kept die has more pips than it |
| `FrameLoop.DiceReader.constructor` | main.cpp:12-14 | The counters start at total 0, previous total 0, accumulating |
| `FrameLoop.DiceReader.CountDie` | main.cpp:125-144 | One die updates the fields as `AddDie` does: a positive count goes to the total while accumulating, or comes off the previous total while settling |
| `FrameLoop.DiceReader.FinishFrame` | main.cpp:157-166 | The fields are updated as `EndFrame` does, and the previous total ends equal to the current one |
| `FrameLoop.DiceReader.ProcessFrame` | main.cpp:92-166 | One frame returns the located dice, shows the total after the frame's dice, and leaves the fields as one `Step` on the frame's pip sum |
| `FrameLoop.DiceReader.RunCapture` | main.cpp:68-176 | Over a stream of frames, the totals shown and the final fields are those of `Displays` and `Run` on the frames' pip sums |
| `FrameLoop.RunFromStart` | main.cpp:12-176 | A reader started fresh displays, frame by frame, exactly what the reference phase machine displays |

## Left out

- The pip counter (`main.cpp:18-56`) is a chain of image-toolkit calls: resize, brightening, greyscale, blur, Otsu threshold, flood fills and blob detection. Only its result is modelled, as the non-negative `pips` of each candidate.
- Preprocessing, contour extraction, `minAreaRect`, `boundingRect` and cropping (`main.cpp:78-90`, `97`, `119-121`) are toolkit calls. Their output is given as the candidate sequence. The rectangle's rotation angle is never read by the logic and is left out.
- Capture, the end-of-stream test, windows, drawing, `imshow` and the quit key (`main.cpp:61-76`, `128-139`, `153-154`, `168-175`) are input and output. A stream is a finite sequence of frames, and quitting early is taking a prefix of it.
- DiceLocator.ShapeAccepted: sizes, centres, the aspect ratio, the area and the distance use exact reals. The C++ uses `float` and `double`, so rounding at the boundaries is not modelled.
- DiceLocator.TooClose: `norm(d) < 10` is written as `dx² + dy² < 100`. The two agree on exact reals.
- FrameLoop.DiceReader.ProcessFrame: the source counts each die inside the locating loop, right after appending it. The model locates first and then counts the kept dice in the same order. The two are equivalent because locating never reads the counters, and the pip counter does not write them.
- FrameLoop.DiceReader.CountDie: `currentAmount` and `previousAmount` are unbounded integers. The C++ `int` could overflow only after about 2³¹ pips, which is not modelled.
