/** The object locator of the dice reader: the near-square, size-window filter on the
    rotated rectangles found in a frame, and the de-duplication of rectangles whose
    centres nearly coincide (the inner and outer contour of one die). Sizes and centres
    are exact reals; the C++ computes them in float/double. */
module DiceLocator {

  /** A side length of a rotated rectangle: the toolkit never reports a negative one. */
  type Length = r: real | r >= 0.0

  datatype Point = Point(x: real, y: real)

  /** The toolkit's rotated rectangle; the rotation angle is never consulted and is left out. */
  datatype RotatedRect = RotatedRect(center: Point, width: Length, height: Length)

  /** A rectangle found in the frame together with the pip count the pip counter
      returns for its region of interest. */
  datatype Candidate = Candidate(rect: RotatedRect, pips: nat)

  const MaxAspectDeviation: real := 0.25
  const MinArea: real := 2000.0
  const MaxArea: real := 4000.0
  /** Centres closer than MinSeparation are taken to be the same die; the test is
      made on squared distances, so the square of the separation is what is compared. */
  const MinSeparation: real := 10.0
  const MinSeparationSquared: real := MinSeparation * MinSeparation

  function Abs(x: real): real { if x < 0.0 then -x else x }

  function Area(r: RotatedRect): real { r.width * r.height }

  /** The shape and size test on one rectangle. With zero height the C++ aspect ratio is
      infinite or NaN and the test fails; the guard states that case outright. */
  predicate ShapeAccepted(r: RotatedRect)
    ensures ShapeAccepted(r) ==> r.width > 0.0 && r.height > 0.0
  {
    r.height != 0.0
    && Abs(r.width / r.height - 1.0) < MaxAspectDeviation
    && MinArea < Area(r) < MaxArea
  }

  function Dist2(p: Point, q: Point): real
  {
    (p.x - q.x) * (p.x - q.x) + (p.y - q.y) * (p.y - q.y)
  }

  /** `norm(p - q) < 10`, in squared form. */
  predicate TooClose(p: Point, q: Point)
    ensures p == q ==> TooClose(p, q)
  {
    Dist2(p, q) < MinSeparationSquared
  }

  /** Some rectangle already kept has its centre too close to that of `c`. */
  predicate NearAny(c: Candidate, kept: seq<Candidate>)
  {
    exists k :: 0 <= k < |kept| && TooClose(c.rect.center, kept[k].rect.center)
  }

  /** The decision the frame loop takes on one candidate, given the rectangles kept so far. */
  predicate Admits(kept: seq<Candidate>, c: Candidate)
  {
    ShapeAccepted(c.rect) && !NearAny(c, kept)
  }

  /** The rectangles kept after the candidates have been considered in order. */
  function Locate(candidates: seq<Candidate>): (kept: seq<Candidate>)
    ensures |kept| <= |candidates|
    decreases |candidates|
  {
    if candidates == [] then []
    else
      var kept := Locate(candidates[..|candidates| - 1]);
      var c := candidates[|candidates| - 1];
      if Admits(kept, c) then kept + [c] else kept
  }

  /** The positions, among the candidates, of the rectangles Locate keeps: the result
      of Locate is the order-preserving subsequence of the candidates at these positions. */
  function KeptIndices(candidates: seq<Candidate>): (idx: seq<nat>)
    ensures |idx| == |Locate(candidates)|
    ensures forall k :: 0 <= k < |idx| ==>
      idx[k] < |candidates| && Locate(candidates)[k] == candidates[idx[k]]
    ensures forall j, k :: 0 <= j < k < |idx| ==> idx[j] < idx[k]
    decreases |candidates|
  {
    if candidates == [] then []
    else
      var n := |candidates| - 1;
      var prefix := candidates[..n];
      var earlier := KeptIndices(prefix);
      if Admits(Locate(prefix), candidates[n]) then earlier + [n] else earlier
  }

  /** The frame loop's filter and de-duplication: each candidate that passes the shape
      test is compared with every rectangle kept so far, the scan stopping at the first
      one that is too close; a candidate that meets none is appended. */
  method LocateDice(candidates: seq<Candidate>) returns (diceRects: seq<Candidate>)
    ensures diceRects == Locate(candidates)
  {
    diceRects := [];
    var i := 0;
    while i < |candidates|
      invariant 0 <= i <= |candidates|
      invariant diceRects == Locate(candidates[..i])
    {
      var c := candidates[i];
      if ShapeAccepted(c.rect) {
        var process := true;
        var j := 0;
        while j < |diceRects|
          invariant 0 <= j <= |diceRects|
          invariant process
          invariant forall k :: 0 <= k < j ==> !TooClose(c.rect.center, diceRects[k].rect.center)
        {
          if TooClose(c.rect.center, diceRects[j].rect.center) {
            process := false;
            break;
          }
          j := j + 1;
        }
        if process {
          diceRects := diceRects + [c];
        }
      }
      assert candidates[..i + 1][..i] == candidates[..i];
      i := i + 1;
    }
    assert candidates[..|candidates|] == candidates;
  }

  // ---------------------------------------------------------------------------
  // The shape filter

  /** The filter read without division: a rectangle is accepted exactly when its height
      is positive, its width lies strictly between 0.75 and 1.25 times its height, and
      its area lies strictly inside the window (2000, 4000). */
  lemma ShapeAcceptedIff(r: RotatedRect)
    ensures ShapeAccepted(r) <==>
      r.height > 0.0
      && (1.0 - MaxAspectDeviation) * r.height < r.width < (1.0 + MaxAspectDeviation) * r.height
      && MinArea < r.width * r.height < MaxArea
  {
    if r.height > 0.0 {
      AspectWithoutDivision(r.width, r.height);
    }
  }

  lemma AspectWithoutDivision(w: real, h: real)
    requires h > 0.0
    ensures Abs(w / h - 1.0) < MaxAspectDeviation <==>
      (1.0 - MaxAspectDeviation) * h < w < (1.0 + MaxAspectDeviation) * h
  {
    var q := w / h;
    assert w == q * h;
    ScaleStrict(q, 1.25, h, w, 1.25 * h);
    ScaleStrict(0.75, q, h, 0.75 * h, w);
    assert (1.0 - MaxAspectDeviation) * h == 0.75 * h;
    assert (1.0 + MaxAspectDeviation) * h == 1.25 * h;
  }

  /** Multiplying both sides by a positive factor keeps a strict inequality, and only then. */
  lemma ScaleStrict(a: real, b: real, h: real, ah: real, bh: real)
    requires h > 0.0 && ah == a * h && bh == b * h
    ensures a < b <==> ah < bh
  {
    assert bh - ah == (b - a) * h;
    if a < b {
      assert (b - a) * h > 0.0;
    } else {
      assert (a - b) * h >= 0.0;
    }
  }

  /** A square of any size passes the aspect part of the filter. */
  lemma SquarePassesAspect(side: Length)
    requires side > 0.0
    ensures Abs(side / side - 1.0) < MaxAspectDeviation
  {
    AspectWithoutDivision(side, side);
  }

  /** The area window is strict at both ends; a 50 by 50 square (area 2500) is accepted. */
  lemma AreaWindowIsStrict(c: Point, w: Length, h: Length)
    requires w * h == MinArea || w * h == MaxArea
    ensures !ShapeAccepted(RotatedRect(c, w, h))
    ensures ShapeAccepted(RotatedRect(c, 50.0, 50.0))
  {
  }

  /** A rectangle of zero height is rejected by the area window alone, so the explicit
      height guard in ShapeAccepted rejects nothing the C++ accepts. */
  lemma ZeroHeightRejectedByArea(r: RotatedRect)
    requires r.height == 0.0
    ensures !(MinArea < Area(r))
  {
  }

  // ---------------------------------------------------------------------------
  // Properties of the de-duplication

  lemma Dist2Symmetric(p: Point, q: Point)
    ensures Dist2(p, q) == Dist2(q, p)
  {
    assert (p.x - q.x) * (p.x - q.x) == (q.x - p.x) * (q.x - p.x);
    assert (p.y - q.y) * (p.y - q.y) == (q.y - p.y) * (q.y - p.y);
  }

  /** Every kept rectangle passes the shape filter. */
  lemma {:induction false} LocateAccepted(candidates: seq<Candidate>)
    ensures forall k :: 0 <= k < |Locate(candidates)| ==> ShapeAccepted(Locate(candidates)[k].rect)
    decreases |candidates|
  {
    if candidates != [] {
      LocateAccepted(candidates[..|candidates| - 1]);
    }
  }

  /** The de-duplication invariant: any two kept rectangles have centres at least
      MinSeparation apart. */
  lemma {:induction false} LocateSeparated(candidates: seq<Candidate>)
    ensures forall j, k :: 0 <= j < |Locate(candidates)| && 0 <= k < |Locate(candidates)| && j != k ==>
      Dist2(Locate(candidates)[j].rect.center, Locate(candidates)[k].rect.center) >= MinSeparationSquared
    decreases |candidates|
  {
    if candidates != [] {
      var prefix := candidates[..|candidates| - 1];
      LocateSeparated(prefix);
      var kept := Locate(prefix);
      var c := candidates[|candidates| - 1];
      if Admits(kept, c) {
        var all := kept + [c];
        forall j, k | 0 <= j < |all| && 0 <= k < |all| && j != k
          ensures Dist2(all[j].rect.center, all[k].rect.center) >= MinSeparationSquared
        {
          if k == |kept| {
            assert !TooClose(c.rect.center, kept[j].rect.center);
            Dist2Symmetric(c.rect.center, kept[j].rect.center);
          } else if j == |kept| {
            assert !TooClose(c.rect.center, kept[k].rect.center);
          }
        }
      }
    }
  }

  /** The rectangles kept from a prefix of the candidates are a prefix of those kept
      from all of them. */
  lemma {:induction false} LocatePrefix(candidates: seq<Candidate>, m: nat)
    requires m <= |candidates|
    ensures Locate(candidates[..m]) <= Locate(candidates)
    decreases |candidates|
  {
    if m < |candidates| {
      var n := |candidates| - 1;
      assert candidates[..n][..m] == candidates[..m];
      LocatePrefix(candidates[..n], m);
    } else {
      assert candidates[..m] == candidates;
    }
  }

  /** No candidate kept at a position of `idx` before i has its centre too close to
      that of candidate i. */
  predicate ClearOfEarlierKept(candidates: seq<Candidate>, idx: seq<nat>, i: nat)
    requires i < |candidates|
  {
    forall k :: 0 <= k < |idx| && idx[k] < i ==>
      !TooClose(candidates[i].rect.center, candidates[idx[k]].rect.center)
  }

  /** The candidate at position i is kept exactly when it passes the shape filter and its
      centre is not too close to that of any candidate kept at an earlier position. */
  lemma {:induction false} KeptIff(candidates: seq<Candidate>, i: nat)
    requires i < |candidates|
    ensures i in KeptIndices(candidates) <==>
      ShapeAccepted(candidates[i].rect) && ClearOfEarlierKept(candidates, KeptIndices(candidates), i)
    decreases |candidates|
  {
    var n := |candidates| - 1;
    var prefix := candidates[..n];
    var earlier := KeptIndices(prefix);
    var idx := KeptIndices(candidates);
    assert n !in earlier;
    if i < n {
      KeptIff(prefix, i);
      ClearOfEarlierExtends(candidates, i);
    } else {
      LastKeptIff(candidates);
    }
  }

  /** For a position before the last, being clear of earlier kept candidates does not
      depend on the last candidate. */
  lemma ClearOfEarlierExtends(candidates: seq<Candidate>, i: nat)
    requires i < |candidates| - 1
    ensures var prefix := candidates[..|candidates| - 1];
      (i in KeptIndices(candidates) <==> i in KeptIndices(prefix))
      && (ClearOfEarlierKept(candidates, KeptIndices(candidates), i) <==>
          ClearOfEarlierKept(prefix, KeptIndices(prefix), i))
  {
    var n := |candidates| - 1;
    var prefix := candidates[..n];
    var earlier := KeptIndices(prefix);
    var idx := KeptIndices(candidates);
    assert idx == earlier || idx == earlier + [n];
    assert prefix[i] == candidates[i];
    assert forall k :: 0 <= k < |earlier| ==> prefix[earlier[k]] == candidates[earlier[k]];
    if idx == earlier + [n] {
      assert i in idx <==> i in earlier;
      assert forall k :: 0 <= k < |idx| && idx[k] < i ==> k < |earlier| && idx[k] == earlier[k];
    }
    assert ClearOfEarlierKept(candidates, idx, i) <==> ClearOfEarlierKept(prefix, earlier, i);
  }

  /** The last candidate is kept exactly when it passes the shape filter and is clear of
      every candidate kept before it. */
  lemma LastKeptIff(candidates: seq<Candidate>)
    requires candidates != []
    ensures var n := |candidates| - 1;
      n in KeptIndices(candidates) <==>
        ShapeAccepted(candidates[n].rect) && ClearOfEarlierKept(candidates, KeptIndices(candidates), n)
  {
    var n := |candidates| - 1;
    var earlier := KeptIndices(candidates[..n]);
    assert n !in earlier;
    ClearOfEarlierIsNotNear(candidates);
    ClearIgnoresOwnPosition(candidates, earlier, n);
  }

  /** For the last candidate, being clear of the earlier kept positions is not being near
      any rectangle Locate keeps from the others. */
  lemma ClearOfEarlierIsNotNear(candidates: seq<Candidate>)
    requires candidates != []
    ensures var n := |candidates| - 1;
      ClearOfEarlierKept(candidates, KeptIndices(candidates[..n]), n) <==>
        !NearAny(candidates[n], Locate(candidates[..n]))
  {
    var n := |candidates| - 1;
    var prefix := candidates[..n];
    var earlier := KeptIndices(prefix);
    var kept := Locate(prefix);
    var c := candidates[n];
    if NearAny(c, kept) {
      var k :| 0 <= k < |kept| && TooClose(c.rect.center, kept[k].rect.center);
      assert kept[k] == prefix[earlier[k]] == candidates[earlier[k]];
    } else {
      forall k | 0 <= k < |earlier| && earlier[k] < n
        ensures !TooClose(c.rect.center, candidates[earlier[k]].rect.center)
      {
        assert kept[k] == prefix[earlier[k]] == candidates[earlier[k]];
      }
    }
  }

  /** Adding position i itself to the kept positions does not change whether i is clear
      of the earlier ones. */
  lemma ClearIgnoresOwnPosition(candidates: seq<Candidate>, idx: seq<nat>, i: nat)
    requires i < |candidates|
    ensures ClearOfEarlierKept(candidates, idx + [i], i) <==> ClearOfEarlierKept(candidates, idx, i)
  {
    var all := idx + [i];
    assert forall k :: 0 <= k < |all| && all[k] < i ==> k < |idx| && all[k] == idx[k];
    assert forall k :: 0 <= k < |idx| ==> all[k] == idx[k];
  }

  /** First seen wins: a candidate that passes the shape filter but is not kept has its
      centre too close to that of a rectangle kept from an earlier position. */
  lemma DroppedHasEarlierTwin(candidates: seq<Candidate>, i: nat)
    requires i < |candidates|
    requires ShapeAccepted(candidates[i].rect)
    requires i !in KeptIndices(candidates)
    ensures var idx := KeptIndices(candidates);
      exists k :: 0 <= k < |idx| && idx[k] < i
        && TooClose(candidates[i].rect.center, candidates[idx[k]].rect.center)
  {
    KeptIff(candidates, i);
  }

  /** Running the locator again on its own output changes nothing: every kept rectangle
      passes the filter and none is too close to another. */
  lemma LocateIdempotent(candidates: seq<Candidate>)
    ensures Locate(Locate(candidates)) == Locate(candidates)
  {
    var kept := Locate(candidates);
    LocateAccepted(candidates);
    LocateSeparated(candidates);
    LocateKeepsSeparated(kept, |kept|);
    assert kept[..|kept|] == kept;
  }

  lemma {:induction false} LocateKeepsSeparated(rects: seq<Candidate>, m: nat)
    requires m <= |rects|
    requires forall k :: 0 <= k < |rects| ==> ShapeAccepted(rects[k].rect)
    requires forall j, k :: 0 <= j < |rects| && 0 <= k < |rects| && j != k ==>
      Dist2(rects[j].rect.center, rects[k].rect.center) >= MinSeparationSquared
    ensures Locate(rects[..m]) == rects[..m]
    decreases m
  {
    if m > 0 {
      LocateKeepsSeparated(rects, m - 1);
      assert rects[..m][..m - 1] == rects[..m - 1];
      assert !NearAny(rects[m - 1], rects[..m - 1]);
      assert rects[..m - 1] + [rects[m - 1]] == rects[..m];
    }
  }

  /** Two candidates whose centres are exactly MinSeparation apart are both kept; at a
      smaller distance the second is dropped. */
  lemma SeparationBoundary(a: Candidate, b: Candidate)
    requires ShapeAccepted(a.rect) && ShapeAccepted(b.rect)
    ensures Dist2(a.rect.center, b.rect.center) == MinSeparationSquared ==> Locate([a, b]) == [a, b]
    ensures Dist2(a.rect.center, b.rect.center) < MinSeparationSquared ==> Locate([a, b]) == [a]
  {
    assert [a, b][..1] == [a];
    assert [a][..0] == [];
    assert !NearAny(a, []);
    assert Locate([a]) == [a];
    assert NearAny(b, [a]) <==> TooClose(b.rect.center, a.rect.center);
    Dist2Symmetric(a.rect.center, b.rect.center);
  }
}
