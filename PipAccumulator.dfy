/** The running total of the dice reader: three process-wide variables updated once per
    counted die and once at the end of every frame. This module gives their transitions
    as functions on a state value and proves what they amount to. */
module PipAccumulator {

  /** currentAmount, previousAmount and firstCheck. */
  datatype State = State(current: int, previous: int, firstCheck: bool)

  /** The values the three variables start with. */
  const Initial: State := State(0, 0, true)

  /** One counted die: a positive pip count is added to the total while accumulating and
      taken off the previous total while settling; a die showing no pips changes nothing. */
  function AddDie(s: State, pips: nat): (r: State)
    ensures r.firstCheck == s.firstCheck
    ensures r.current - r.previous == s.current - s.previous + pips
    ensures r.current == s.current || r.previous == s.previous
  {
    if pips > 0 then
      if s.firstCheck then s.(current := s.current + pips) else s.(previous := s.previous - pips)
    else s
  }

  /** The dice of one frame, counted in order. */
  function AddDice(s: State, counts: seq<nat>): (r: State)
    ensures r.firstCheck == s.firstCheck
    ensures r.current - r.previous == s.current - s.previous + Sum(counts)
    decreases |counts|
  {
    if counts == [] then s else AddDie(AddDice(s, counts[..|counts| - 1]), counts[|counts| - 1])
  }

  /** The total of the counts; no single count exceeds it. */
  function Sum(counts: seq<nat>): (total: nat)
    ensures forall k :: 0 <= k < |counts| ==> counts[k] <= total
    decreases |counts|
  {
    if counts == [] then 0 else Sum(counts[..|counts| - 1]) + counts[|counts| - 1]
  }

  /** A frame's pip sum applied in one go. */
  function ApplySum(s: State, frameSum: int): (r: State)
    ensures r.firstCheck == s.firstCheck
    ensures r.current - r.previous == s.current - s.previous + frameSum
    ensures r.current == s.current || r.previous == s.previous
  {
    if s.firstCheck then s.(current := s.current + frameSum) else s.(previous := s.previous - frameSum)
  }

  /** The end-of-frame update: while settling, a previous total that has not come down to
      zero resets the count; otherwise the machine settles. The previous total then takes
      the current one, so the two agree after every frame. */
  function EndFrame(s: State): (r: State)
    ensures r.previous == r.current
    ensures r.firstCheck == (!s.firstCheck && s.previous != 0)
    ensures r.current == (if r.firstCheck then 0 else s.current)
  {
    var t := if !s.firstCheck && s.previous != 0 then s.(current := 0, firstCheck := true)
             else s.(firstCheck := false);
    t.(previous := t.current)
  }

  /** The total displayed for a frame: taken after the frame's dice, before the end-of-frame update. */
  function Shown(s: State, frameSum: int): (shown: int)
    ensures !s.firstCheck ==> shown == s.current
    ensures s.firstCheck ==> shown == s.current + frameSum
  {
    ApplySum(s, frameSum).current
  }

  /** One whole frame with the given pip sum. */
  function Step(s: State, frameSum: int): (r: State)
    ensures r.previous == r.current
    ensures r.firstCheck ==> r.current == 0
    ensures !r.firstCheck ==> r.current == Shown(s, frameSum)
  {
    EndFrame(ApplySum(s, frameSum))
  }

  /** The state after a sequence of frames. */
  function Run(s: State, sums: seq<nat>): (r: State)
    ensures sums == [] || (r.previous == r.current && (r.firstCheck ==> r.current == 0))
    decreases |sums|
  {
    if sums == [] then s else Step(Run(s, sums[..|sums| - 1]), sums[|sums| - 1])
  }

  /** The totals displayed for a sequence of frames, one per frame. */
  function Displays(s: State, sums: seq<nat>): (shown: seq<int>)
    ensures |shown| == |sums|
    decreases |sums|
  {
    if sums == [] then []
    else
      var n := |sums| - 1;
      Displays(s, sums[..n]) + [Shown(Run(s, sums[..n]), sums[n])]
  }

  /** Frame k displays what the state after the first k frames shows for frame k's sum. */
  lemma {:induction false} DisplaysAt(s: State, sums: seq<nat>, k: nat)
    requires k < |sums|
    ensures Displays(s, sums)[k] == Shown(Run(s, sums[..k]), sums[k])
    decreases |sums|
  {
    var n := |sums| - 1;
    if k < n {
      DisplaysAt(s, sums[..n], k);
      assert sums[..n][..k] == sums[..k];
    }
  }

  // ---------------------------------------------------------------------------
  // The per-die updates against the frame sum

  /** Counting the dice one at a time ends in the same state as applying their sum once:
      skipping the dice with no pips is harmless because no count is negative. */
  lemma {:induction false} AddDiceIsApplySum(s: State, counts: seq<nat>)
    ensures AddDice(s, counts) == ApplySum(s, Sum(counts))
    decreases |counts|
  {
    if counts != [] {
      AddDiceIsApplySum(s, counts[..|counts| - 1]);
    }
  }

  // ---------------------------------------------------------------------------
  // One frame, phase by phase

  /** Accumulating: the total grows by the frame sum, the machine goes on to settle, and
      the previous total ends equal to the new total. */
  lemma AccumulatingStep(s: State, frameSum: int)
    requires s.firstCheck
    ensures Step(s, frameSum) == State(s.current + frameSum, s.current + frameSum, false)
    ensures Shown(s, frameSum) == s.current + frameSum
  {
  }

  /** Settling, with the two totals equal as they are after every frame: the machine resets
      exactly when the frame sum differs from the total, and otherwise stays as it was. The
      total displayed for the frame is the total before any reset. */
  lemma SettlingStep(s: State, frameSum: int)
    requires !s.firstCheck && s.previous == s.current
    ensures Step(s, frameSum).firstCheck <==> frameSum != s.current
    ensures frameSum != s.current ==> Step(s, frameSum) == Initial
    ensures frameSum == s.current ==> Step(s, frameSum) == s
    ensures Shown(s, frameSum) == s.current
  {
  }

  // ---------------------------------------------------------------------------
  // A reference reading of the machine

  /** The two phases the three variables encode: counting the next frame, or holding a total. */
  datatype Phase = Counting | Holding(total: nat)

  /** Counting takes the frame's sum and holds it; holding keeps the total while frames
      show the same sum and goes back to counting on the first frame that does not. */
  function PhaseStep(p: Phase, frameSum: nat): Phase
  {
    match p
    case Counting => Holding(frameSum)
    case Holding(t) => if frameSum == t then Holding(t) else Counting
  }

  /** Counting displays the frame's own sum; holding displays the held total. */
  function PhaseShown(p: Phase, frameSum: nat): nat
  {
    match p
    case Counting => frameSum
    case Holding(t) => t
  }

  /** The states reachable from Initial: the two totals agree and are never negative, and
      the accumulating phase always starts from zero. */
  predicate Reachable(s: State)
  {
    s.previous == s.current && s.current >= 0 && (s.firstCheck ==> s.current == 0)
  }

  function PhaseOf(s: State): Phase
    requires Reachable(s)
  {
    if s.firstCheck then Counting else Holding(s.current)
  }

  /** Every frame keeps the state reachable, moves it as the reference machine moves, and
      displays what the reference machine displays. */
  lemma StepRefinesPhase(s: State, frameSum: nat)
    requires Reachable(s)
    ensures Reachable(Step(s, frameSum))
    ensures PhaseOf(Step(s, frameSum)) == PhaseStep(PhaseOf(s), frameSum)
    ensures Shown(s, frameSum) == PhaseShown(PhaseOf(s), frameSum)
  {
  }

  function PhaseRun(p: Phase, sums: seq<nat>): Phase
    decreases |sums|
  {
    if sums == [] then p else PhaseStep(PhaseRun(p, sums[..|sums| - 1]), sums[|sums| - 1])
  }

  function PhaseDisplays(p: Phase, sums: seq<nat>): seq<nat>
    decreases |sums|
  {
    if sums == [] then []
    else
      var n := |sums| - 1;
      PhaseDisplays(p, sums[..n]) + [PhaseShown(PhaseRun(p, sums[..n]), sums[n])]
  }

  /** From the initial values, after any sequence of frames, the state is reachable (so
      the totals agree and are non-negative), the phase is the one the reference machine
      reaches, and the totals displayed are the ones it displays. */
  lemma {:induction false} RunRefinesPhase(sums: seq<nat>)
    ensures Reachable(Run(Initial, sums))
    ensures PhaseOf(Run(Initial, sums)) == PhaseRun(Counting, sums)
    ensures Displays(Initial, sums) == PhaseDisplays(Counting, sums)
    decreases |sums|
  {
    if sums != [] {
      var n := |sums| - 1;
      RunRefinesPhase(sums[..n]);
      StepRefinesPhase(Run(Initial, sums[..n]), sums[n]);
    }
  }

  /** A held total is displayed once more on the frame that resets it, and the reset shows
      on the frame after, which displays its own sum: frame sums a, a, b with b != a display
      a, a, a and end in the initial state, and a fourth frame with sum c displays c. With
      a = 5, b = 0 and c = 3 this is the trace 5, 5, 0, 3 displaying 5, 5, 5, 3. */
  lemma TraceResetShownLate(a: nat, b: nat, c: nat)
    requires b != a
    ensures Displays(Initial, [a, a, b]) == [a, a, a]
    ensures Run(Initial, [a, a, b]) == Initial
    ensures Displays(Initial, [a, a, b, c]) == [a, a, a, c]
  {
    var held := State(a, a, false);
    assert [a][..0] == [];
    assert Run(Initial, [a]) == held;
    assert Displays(Initial, [a]) == [a];
    assert [a, a][..1] == [a];
    assert Run(Initial, [a, a]) == held;
    assert Displays(Initial, [a, a]) == [a, a];
    assert [a, a, b][..2] == [a, a];
    assert Run(Initial, [a, a, b]) == Initial;
    assert Displays(Initial, [a, a, b]) == [a, a, a];
    assert [a, a, b, c][..3] == [a, a, b];
  }
}
