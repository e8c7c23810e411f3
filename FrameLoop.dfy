/** The frame loop of the dice reader, without its capture, drawing and key handling: the
    three process-wide counters as an object, the work done on one frame, and the loop
    over the frames of a stream. */
module FrameLoop {
  import opened DiceLocator
  import opened PipAccumulator

  /** The pip counts of the located dice, in the order they were kept. */
  function PipsOf(dice: seq<Candidate>): (counts: seq<nat>)
    ensures |counts| == |dice|
    ensures forall k :: 0 <= k < |dice| ==> counts[k] == dice[k].pips
  {
    seq(|dice|, k requires 0 <= k < |dice| => dice[k].pips)
  }

  /** The frame sum: the pips of all dice kept in the frame. It is 0 when no die is kept,
      and no kept die has more pips than it. */
  function FrameSum(candidates: seq<Candidate>): (frameSum: nat)
    ensures Locate(candidates) == [] ==> frameSum == 0
    ensures forall k :: 0 <= k < |Locate(candidates)| ==> Locate(candidates)[k].pips <= frameSum
  {
    Sum(PipsOf(Locate(candidates)))
  }

  /** currentAmount, previousAmount and firstCheck, updated in place. */
  class DiceReader {
    var currentAmount: int
    var previousAmount: int
    var firstCheck: bool

    function Snapshot(): State
      reads this
    {
      State(currentAmount, previousAmount, firstCheck)
    }

    constructor ()
      ensures Snapshot() == Initial
    {
      currentAmount := 0;
      previousAmount := 0;
      firstCheck := true;
    }

    /** The update for one counted die. */
    method CountDie(pips: nat)
      modifies this
      ensures Snapshot() == AddDie(old(Snapshot()), pips)
    {
      if pips > 0 {
        if firstCheck {
          currentAmount := currentAmount + pips;
        } else {
          previousAmount := previousAmount - pips;
        }
      }
    }

    /** The update at the end of a frame. */
    method FinishFrame()
      modifies this
      ensures Snapshot() == EndFrame(old(Snapshot()))
      ensures previousAmount == currentAmount
    {
      if !firstCheck && previousAmount != 0 {
        currentAmount := 0;
        firstCheck := true;
      } else {
        firstCheck := false;
      }
      previousAmount := currentAmount;
    }

    /** One frame: locate the dice, count each kept die in order, note the total to display,
        then make the end-of-frame update. The frame as a whole is one Step on its pip sum. */
    method ProcessFrame(candidates: seq<Candidate>) returns (diceRects: seq<Candidate>, shown: int)
      modifies this
      ensures diceRects == Locate(candidates)
      ensures shown == Shown(old(Snapshot()), FrameSum(candidates))
      ensures Snapshot() == Step(old(Snapshot()), FrameSum(candidates))
    {
      diceRects := LocateDice(candidates);
      var counts := PipsOf(diceRects);
      var i := 0;
      while i < |diceRects|
        invariant 0 <= i <= |diceRects|
        invariant Snapshot() == AddDice(old(Snapshot()), counts[..i])
      {
        CountDie(diceRects[i].pips);
        assert counts[..i + 1][..i] == counts[..i];
        i := i + 1;
      }
      assert counts[..|diceRects|] == counts;
      AddDiceIsApplySum(old(Snapshot()), counts);
      shown := currentAmount;
      FinishFrame();
    }

    /** The capture loop over a finite stream of frames, each given by its candidate
        rectangles; the end of the sequence is the end of the stream. */
    method RunCapture(frames: seq<seq<Candidate>>) returns (shownTotals: seq<int>)
      modifies this
      ensures var sums := seq(|frames|, k requires 0 <= k < |frames| => FrameSum(frames[k]));
        shownTotals == Displays(old(Snapshot()), sums) && Snapshot() == Run(old(Snapshot()), sums)
    {
      ghost var sums := seq(|frames|, k requires 0 <= k < |frames| => FrameSum(frames[k]));
      shownTotals := [];
      var f := 0;
      while f < |frames|
        invariant 0 <= f <= |frames|
        invariant shownTotals == Displays(old(Snapshot()), sums[..f])
        invariant Snapshot() == Run(old(Snapshot()), sums[..f])
      {
        var diceRects, shown := ProcessFrame(frames[f]);
        assert sums[..f + 1][..f] == sums[..f];
        shownTotals := shownTotals + [shown];
        f := f + 1;
      }
      assert sums[..|frames|] == sums;
    }
  }

  /** The program from start-up: counters at their initial values, then the capture loop.
      The totals displayed are exactly those the reference phase machine displays. */
  method RunFromStart(frames: seq<seq<Candidate>>) returns (shownTotals: seq<int>)
    ensures var sums := seq(|frames|, k requires 0 <= k < |frames| => FrameSum(frames[k]));
      shownTotals == PhaseDisplays(Counting, sums)
  {
    var reader := new DiceReader();
    shownTotals := reader.RunCapture(frames);
    ghost var sums := seq(|frames|, k requires 0 <= k < |frames| => FrameSum(frames[k]));
    RunRefinesPhase(sums);
  }
}
