/**
  The algebraic codebook search of C/amr_encode/sp_enc.c (set_sign12k2, search_8i40 and
  search_10i40) in exact arithmetic. The two searches are one algorithm with four tracks and
  eight pulses, or five tracks and ten pulses; `step` is the number of tracks.
 */
module CodebookSearch {
  import opened Division

  const L_CODE := 40

  predicate IsPosition(p: int) {
    0 <= p < L_CODE
  }

  predicate ArePositions(ps: seq<int>) {
    forall k :: 0 <= k < |ps| ==> IsPosition(ps[k])
  }

  predicate IsMatrix(rr: seq<seq<real>>) {
    |rr| == L_CODE && forall k :: 0 <= k < L_CODE ==> |rr[k]| == L_CODE
  }

  predicate IsStep(step: int) {
    step == 4 || step == 5
  }

  function Square(x: real): real {
    x * x
  }

  // ---------- What the search maximises ----------

  /** The correlation of a set of pulses with the target. */
  ghost function Corr(dn: seq<real>, ps: seq<int>): real
    requires |dn| == L_CODE && ArePositions(ps)
  {
    if ps == [] then 0.0 else Corr(dn, ps[..|ps| - 1]) + dn[ps[|ps| - 1]]
  }

  /** The correlation of one pulse with the pulses before it. */
  function Cross(rr: seq<seq<real>>, ps: seq<int>, x: int): real
    requires IsMatrix(rr) && ArePositions(ps) && IsPosition(x)
  {
    if ps == [] then 0.0 else Cross(rr, ps[..|ps| - 1], x) + rr[ps[|ps| - 1]][x]
  }

  /** The energy of the filtered pulses: every diagonal term, and every pair twice. */
  ghost function Energy(rr: seq<seq<real>>, ps: seq<int>): real
    requires IsMatrix(rr) && ArePositions(ps)
  {
    if ps == [] then 0.0
    else
      var front, x := ps[..|ps| - 1], ps[|ps| - 1];
      Energy(rr, front) + rr[x][x] + 2.0 * Cross(rr, front, x)
  }

  /** All quadratic forms over pulses are positive. */
  ghost predicate Positive(rr: seq<seq<real>>) {
    IsMatrix(rr) && forall ps: seq<int> :: ps != [] && ArePositions(ps) ==> Energy(rr, ps) > 0.0
  }

  ghost predicate Symmetric(rr: seq<seq<real>>)
    requires IsMatrix(rr)
  {
    forall i, j :: 0 <= i < L_CODE && 0 <= j < L_CODE ==> rr[i][j] == rr[j][i]
  }

  /** The sum of a matrix row over pulses, and the full double sum. */
  ghost function RowSum(rr: seq<seq<real>>, x: int, ps: seq<int>): real
    requires IsMatrix(rr) && ArePositions(ps) && IsPosition(x)
  {
    if ps == [] then 0.0 else RowSum(rr, x, ps[..|ps| - 1]) + rr[x][ps[|ps| - 1]]
  }

  ghost function DoubleSum(rr: seq<seq<real>>, qs: seq<int>, ps: seq<int>): real
    requires IsMatrix(rr) && ArePositions(qs) && ArePositions(ps)
  {
    if qs == [] then 0.0 else DoubleSum(rr, qs[..|qs| - 1], ps) + RowSum(rr, qs[|qs| - 1], ps)
  }

  lemma {:induction false} DoubleSumAppend(rr: seq<seq<real>>, qs: seq<int>, ps: seq<int>, x: int)
    requires IsMatrix(rr) && ArePositions(qs) && ArePositions(ps) && IsPosition(x)
    ensures ArePositions(ps + [x])
    ensures DoubleSum(rr, qs, ps + [x]) == DoubleSum(rr, qs, ps) + Cross(rr, qs, x)
  {
    if qs == [] {
    } else {
      DoubleSumAppend(rr, qs[..|qs| - 1], ps, x);
      assert (ps + [x])[..|ps|] == ps;
    }
  }

  lemma {:induction false} RowSumIsCross(rr: seq<seq<real>>, x: int, ps: seq<int>)
    requires IsMatrix(rr) && Symmetric(rr) && ArePositions(ps) && IsPosition(x)
    ensures RowSum(rr, x, ps) == Cross(rr, ps, x)
  {
    if ps == [] {
    } else {
      RowSumIsCross(rr, x, ps[..|ps| - 1]);
    }
  }

  /** For a symmetric matrix the energy is the full double sum over the pulses. */
  lemma {:induction false} EnergyIsDoubleSum(rr: seq<seq<real>>, ps: seq<int>)
    requires IsMatrix(rr) && Symmetric(rr) && ArePositions(ps)
    ensures Energy(rr, ps) == DoubleSum(rr, ps, ps)
  {
    if ps == [] {
    } else {
      var front, x := ps[..|ps| - 1], ps[|ps| - 1];
      EnergyIsDoubleSum(rr, front);
      assert ps == front + [x];
      DoubleSumAppend(rr, front, front, x);
      RowSumIsCross(rr, x, front);
      assert RowSum(rr, x, ps) == RowSum(rr, x, front) + rr[x][x];
    }
  }

  /** The criterion of the search: squared correlation over energy. */
  ghost function Score(dn: seq<real>, rr: seq<seq<real>>, ps: seq<int>): real
    requires |dn| == L_CODE && Positive(rr) && ps != [] && ArePositions(ps)
  {
    Square(Corr(dn, ps)) / Energy(rr, ps)
  }

  /** The test of the code, by which (s', a') beats (s, a). */
  predicate Better(s: real, a: real, s': real, a': real) {
    a * s' > s * a'
  }

  /** The cross-multiplied test compares scores. */
  lemma CrossMultiply(s: real, a: real, s': real, a': real)
    requires a > 0.0 && a' > 0.0
    ensures Better(s, a, s', a') <==> s' / a' > s / a
  {
    var q, q' := s / a, s' / a';
    assert s == q * a && s' == q' * a';
    assert a * s' - s * a' == (q' - q) * (a * a');
    assert a * a' > 0.0;
    if q' > q {
      assert (q' - q) * (a * a') > 0.0;
    } else {
      assert (q - q') * (a * a') >= 0.0;
    }
  }

  // ---------- Which pairs a stage visits ----------

  /** The positions one do-while loop runs through: from `x0` in steps of `step`, up to 39
      when its bound is tested with `<=` and up to 38 when it is tested with `<`. */
  predicate Visits(x0: int, step: int, closed: bool, x: int)
    requires step > 0
  {
    x0 <= x <= (if closed then 39 else 38) && x % step == x0 % step
  }

  /** The first stage closes the outer loop and leaves the inner one open; later stages do
      the opposite. */
  predicate VisitsPair(a0: int, b0: int, step: int, first: bool, a: int, b: int)
    requires step > 0
  {
    Visits(a0, step, first, a) && Visits(b0, step, !first, b)
  }

  /** A loop runs through its whole track unless its bound is open and the track is the last
      one: then position 39, the last of that track, is never tried. */
  lemma VisitsWholeTrack(x0: int, step: int, closed: bool)
    requires IsStep(step) && 0 <= x0 < step
    ensures (forall x :: IsPosition(x) && x % step == x0 % step ==> Visits(x0, step, closed, x)) <==>
            (closed || x0 != step - 1)
  {
    if !closed && x0 == step - 1 {
      assert 39 % step == x0 % step by { if step == 4 {} else {} }
      assert IsPosition(39) && !Visits(x0, step, closed, 39);
    } else {
      forall x | IsPosition(x) && x % step == x0 % step
        ensures Visits(x0, step, closed, x)
      {
        if step == 4 {} else {}
      }
    }
  }

  predicate Before(a: int, b: int, a': int, b': int) {
    a < a' || (a == a' && b < b')
  }

  /** The pair a stage must choose: the first, in visiting order, of those with the best score. */
  ghost predicate BestPair(dn: seq<real>, rr: seq<seq<real>>, ps: seq<int>, a0: int, b0: int, step: int, first: bool,
                           ia: int, ib: int)
    requires |dn| == L_CODE && Positive(rr) && ArePositions(ps) && IsStep(step) && 0 <= a0 && 0 <= b0
  {
    && VisitsPair(a0, b0, step, first, ia, ib)
    && (forall a, b :: VisitsPair(a0, b0, step, first, a, b) ==>
          Score(dn, rr, ps + [a, b]) <= Score(dn, rr, ps + [ia, ib]))
    && (forall a, b :: VisitsPair(a0, b0, step, first, a, b) && Before(a, b, ia, ib) ==>
          Score(dn, rr, ps + [a, b]) < Score(dn, rr, ps + [ia, ib]))
  }

  // ---------- One stage: the nested loops over a pair of pulses ----------

  /** The best of the pairs visited before (`a`, `b`). */
  ghost predicate BestBefore(dn: seq<real>, rr: seq<seq<real>>, ps: seq<int>, a0: int, b0: int, step: int, first: bool,
                             a: int, b: int, ia: int, ib: int)
    requires |dn| == L_CODE && Positive(rr) && ArePositions(ps) && IsStep(step) && 0 <= a0 && 0 <= b0
  {
    && VisitsPair(a0, b0, step, first, ia, ib)
    && (forall a', b' :: VisitsPair(a0, b0, step, first, a', b') && Before(a', b', a, b) ==>
          Score(dn, rr, ps + [a', b']) <= Score(dn, rr, ps + [ia, ib]))
    && (forall a', b' :: VisitsPair(a0, b0, step, first, a', b') && Before(a', b', ia, ib) ==>
          Score(dn, rr, ps + [a', b']) < Score(dn, rr, ps + [ia, ib]))
  }

  /** What the loop variables hold: nothing accepted yet, or the best pair so far. */
  ghost predicate Running(dn: seq<real>, rr: seq<seq<real>>, i: seq<int>, a0: int, b0: int, step: int, first: bool,
                          a: int, b: int, ps: real, sq: real, alp: real, ia: int, ib: int)
    requires |dn| == L_CODE && Positive(rr) && ArePositions(i) && IsStep(step) && 0 <= a0 && 0 <= b0
  {
    if a == a0 && b == b0 then sq == -1.0 && alp == 1.0
    else
      && BestBefore(dn, rr, i, a0, b0, step, first, a, b, ia, ib)
      && ps == Corr(dn, i + [ia, ib]) && sq == Square(ps) && alp == Energy(rr, i + [ia, ib])
  }

  lemma CorrPair(dn: seq<real>, i: seq<int>, a: int, b: int)
    requires |dn| == L_CODE && ArePositions(i) && IsPosition(a) && IsPosition(b)
    ensures Corr(dn, i + [a, b]) == Corr(dn, i) + dn[a] + dn[b]
  {
    assert (i + [a, b])[..|i| + 1] == i + [a];
    assert (i + [a])[..|i|] == i;
  }

  lemma EnergyPair(rr: seq<seq<real>>, i: seq<int>, a: int, b: int)
    requires IsMatrix(rr) && ArePositions(i) && IsPosition(a) && IsPosition(b)
    ensures Energy(rr, i + [a, b]) ==
            Energy(rr, i) + rr[a][a] + 2.0 * Cross(rr, i, a) + (rr[b][b] + 2.0 * Cross(rr, i, b)) + 2.0 * rr[a][b]
  {
    assert (i + [a, b])[..|i| + 1] == i + [a];
    assert (i + [a])[..|i|] == i;
  }

  lemma Gap(x: int, y: int, step: int)
    requires IsStep(step) && x % step == y % step && x < y
    ensures x + step <= y
  {
    if step == 4 {} else {}
  }

  lemma NextVisit(x: int, step: int)
    requires IsStep(step)
    ensures (x + step) % step == x % step
  {
    if step == 4 {} else {}
  }

  /** One more step of the inner loop visits exactly one more pair. */
  lemma VisitedStep(a0: int, b0: int, step: int, first: bool, a: int, b: int)
    requires IsStep(step) && VisitsPair(a0, b0, step, first, a, b)
    ensures forall a', b' :: VisitsPair(a0, b0, step, first, a', b') && Before(a', b', a, b + step) ==>
              Before(a', b', a, b) || (a' == a && b' == b)
  {
    forall a', b' | VisitsPair(a0, b0, step, first, a', b') && Before(a', b', a, b + step)
      ensures Before(a', b', a, b) || (a' == a && b' == b)
    {
      if a' == a && b < b' {
        Gap(b, b', step);
      }
    }
  }

  lemma BestReplaced(dn: seq<real>, rr: seq<seq<real>>, i: seq<int>, a0: int, b0: int, step: int, first: bool,
                     a: int, b: int, ia: int, ib: int)
    requires |dn| == L_CODE && Positive(rr) && ArePositions(i) && IsStep(step) && 0 <= a0 && 0 <= b0
    requires VisitsPair(a0, b0, step, first, a, b)
    requires (a == a0 && b == b0) ||
             (BestBefore(dn, rr, i, a0, b0, step, first, a, b, ia, ib) &&
                 Score(dn, rr, i + [a, b]) > Score(dn, rr, i + [ia, ib]))
    ensures BestBefore(dn, rr, i, a0, b0, step, first, a, b + step, a, b)
  {
    hide Score, Positive;
    VisitedStep(a0, b0, step, first, a, b);
  }

  lemma BestKept(dn: seq<real>, rr: seq<seq<real>>, i: seq<int>, a0: int, b0: int, step: int, first: bool,
                 a: int, b: int, ia: int, ib: int)
    requires |dn| == L_CODE && Positive(rr) && ArePositions(i) && IsStep(step) && 0 <= a0 && 0 <= b0
    requires VisitsPair(a0, b0, step, first, a, b)
    requires BestBefore(dn, rr, i, a0, b0, step, first, a, b, ia, ib)
    requires Score(dn, rr, i + [a, b]) <= Score(dn, rr, i + [ia, ib])
    ensures BestBefore(dn, rr, i, a0, b0, step, first, a, b + step, ia, ib)
  {
    hide Score, Positive;
    VisitedStep(a0, b0, step, first, a, b);
  }

  /** The test of the inner loop keeps the best pair. */
  lemma TestKeepsBest(dn: seq<real>, rr: seq<seq<real>>, i: seq<int>, a0: int, b0: int, step: int, first: bool,
                      a: int, b: int, ps: real, sq: real, alp: real, ia: int, ib: int)
    requires |dn| == L_CODE && Positive(rr) && ArePositions(i) && IsStep(step) && 0 <= a0 && 0 <= b0
    requires VisitsPair(a0, b0, step, first, a, b)
    requires Running(dn, rr, i, a0, b0, step, first, a, b, ps, sq, alp, ia, ib)
    ensures var ps2 := Corr(dn, i + [a, b]);
            var alp2 := Energy(rr, i + [a, b]);
            if Better(sq, alp, Square(ps2), alp2)
            then Running(dn, rr, i, a0, b0, step, first, a, b + step, ps2, Square(ps2), alp2, a, b)
            else Running(dn, rr, i, a0, b0, step, first, a, b + step, ps, sq, alp, ia, ib)
  {
    hide Score, Corr, Energy, Square, BestBefore, Better;
    var ps2 := Corr(dn, i + [a, b]);
    var alp2 := Energy(rr, i + [a, b]);
    ScoreOf(dn, rr, i + [a, b]);
    if a == a0 && b == b0 {
      SquareNonNegative(ps2);
      FirstIsBetter(sq, alp, Square(ps2), alp2);
      BestReplaced(dn, rr, i, a0, b0, step, first, a, b, ia, ib);
    } else {
      BestIsPair(dn, rr, i, a0, b0, step, first, a, b, ia, ib);
      ScoreOf(dn, rr, i + [ia, ib]);
      CrossMultiply(sq, alp, Square(ps2), alp2);
      if Better(sq, alp, Square(ps2), alp2) {
        BestReplaced(dn, rr, i, a0, b0, step, first, a, b, ia, ib);
      } else {
        BestKept(dn, rr, i, a0, b0, step, first, a, b, ia, ib);
      }
    }
  }

  /** Anything beats the initial values. */
  lemma FirstIsBetter(s: real, a: real, s': real, a': real)
    requires s == -1.0 && a == 1.0 && s' >= 0.0 && a' > 0.0
    ensures Better(s, a, s', a')
  {}

  lemma SquareNonNegative(x: real)
    ensures Square(x) >= 0.0
  {}

  lemma BestIsPair(dn: seq<real>, rr: seq<seq<real>>, i: seq<int>, a0: int, b0: int, step: int, first: bool,
                   a: int, b: int, ia: int, ib: int)
    requires |dn| == L_CODE && Positive(rr) && ArePositions(i) && IsStep(step) && 0 <= a0 && 0 <= b0
    requires BestBefore(dn, rr, i, a0, b0, step, first, a, b, ia, ib)
    ensures IsPosition(ia) && IsPosition(ib)
  {}

  lemma ScoreOf(dn: seq<real>, rr: seq<seq<real>>, ps: seq<int>)
    requires |dn| == L_CODE && Positive(rr) && ps != [] && ArePositions(ps)
    ensures Energy(rr, ps) > 0.0 && Score(dn, rr, ps) == Square(Corr(dn, ps)) / Energy(rr, ps)
  {}

  lemma RunningStart(dn: seq<real>, rr: seq<seq<real>>, i: seq<int>, a0: int, b0: int, step: int, first: bool,
                     ps: real, sq: real, alp: real, ia: int, ib: int)
    requires |dn| == L_CODE && Positive(rr) && ArePositions(i) && IsStep(step) && 0 <= a0 && 0 <= b0
    requires sq == -1.0 && alp == 1.0
    ensures Running(dn, rr, i, a0, b0, step, first, a0, b0, ps, sq, alp, ia, ib)
  {}

  /** When the inner loop has run out, the outer one moves on. */
  lemma RowDone(dn: seq<real>, rr: seq<seq<real>>, i: seq<int>, a0: int, b0: int, step: int, first: bool,
                a: int, b: int, ps: real, sq: real, alp: real, ia: int, ib: int)
    requires |dn| == L_CODE && Positive(rr) && ArePositions(i) && IsStep(step) && 0 <= a0 && 0 <= b0
    requires Visits(a0, step, first, a) && b0 < b && b > (if first then 38 else 39)
    requires Running(dn, rr, i, a0, b0, step, first, a, b, ps, sq, alp, ia, ib)
    ensures Running(dn, rr, i, a0, b0, step, first, a + step, b0, ps, sq, alp, ia, ib)
  {
    hide Score, Corr, Energy;
    forall a', b' | VisitsPair(a0, b0, step, first, a', b') && Before(a', b', a + step, b0)
      ensures Before(a', b', a, b)
    {
      if a < a' {
        Gap(a, a', step);
      }
    }
  }

  lemma AllDone(dn: seq<real>, rr: seq<seq<real>>, i: seq<int>, a0: int, b0: int, step: int, first: bool,
                a: int, ps: real, sq: real, alp: real, ia: int, ib: int)
    requires |dn| == L_CODE && Positive(rr) && ArePositions(i) && IsStep(step) && 0 <= a0 && 0 <= b0
    requires a0 < a && a > (if first then 39 else 38)
    requires Running(dn, rr, i, a0, b0, step, first, a, b0, ps, sq, alp, ia, ib)
    ensures BestPair(dn, rr, i, a0, b0, step, first, ia, ib)
    ensures ps == Corr(dn, i + [ia, ib]) && sq == Square(ps) && alp == Energy(rr, i + [ia, ib])
  {
    hide Score, Corr, Energy;
    forall a', b' | VisitsPair(a0, b0, step, first, a', b')
      ensures Before(a', b', a, b0)
    {
    }
  }

  ghost predicate RowOf(rr: seq<seq<real>>, i: seq<int>, b0: int, step: int, row: seq<real>)
    requires IsMatrix(rr) && ArePositions(i) && IsStep(step)
  {
    |row| == L_CODE &&
    forall b :: 0 <= b < L_CODE && b % step == b0 ==> row[b] == rr[b][b] + 2.0 * Cross(rr, i, b)
  }

  /** The correlation row of a stage: rrv[b] for every `b` of the inner track. */
  method FillRow(rr: seq<seq<real>>, i: seq<int>, b0: int, step: int, rrv: array<real>)
    requires IsMatrix(rr) && ArePositions(i) && IsStep(step) && 0 <= b0 < step && rrv.Length == L_CODE
    modifies rrv
    ensures RowOf(rr, i, b0, step, rrv[..])
  {
    hide Cross;
    var b := b0;
    StartVisit(b0, step);
    while b < L_CODE
      invariant b0 <= b && b % step == b0
      invariant forall b' :: 0 <= b' < b && b' < L_CODE && b' % step == b0 ==>
                  rrv[b'] == rr[b'][b'] + 2.0 * Cross(rr, i, b')
    {
      rrv[b] := rr[b][b] + 2.0 * Cross(rr, i, b);
      NextVisit(b, step);
      forall b' | 0 <= b' < b + step && b' % step == b0
        ensures b' <= b
      {
        if b < b' {
          Gap(b, b', step);
        }
      }
      b := b + step;
    }
  }

  lemma StartVisit(x0: int, step: int)
    requires IsStep(step) && 0 <= x0 < step
    ensures x0 % step == x0
  {}

  /** The nested do-while loops that place two pulses, given the pulses `i` placed before. */
  method SearchPair(dn: seq<real>, rr: seq<seq<real>>, i: seq<int>, ps0: real, alp0: real,
                    a0: int, b0: int, step: int, first: bool)
    returns (ps: real, sq: real, alp: real, ia: int, ib: int)
    requires |dn| == L_CODE && IsMatrix(rr) && ArePositions(i) && IsStep(step)
    requires 0 <= a0 < step && 0 <= b0 < step
    ensures VisitsPair(a0, b0, step, first, ia, ib)
    ensures Positive(rr) && ps0 == Corr(dn, i) && alp0 == Energy(rr, i) ==>
              && BestPair(dn, rr, i, a0, b0, step, first, ia, ib)
              && ps == Corr(dn, i + [ia, ib]) && sq == Square(ps) && alp == Energy(rr, i + [ia, ib])
  {
    hide Positive, Corr, Energy, Cross, Score, Square, Running, BestBefore;
    ghost var exact := Positive(rr) && ps0 == Corr(dn, i) && alp0 == Energy(rr, i);
    var rrv := new real[L_CODE];
    FillRow(rr, i, b0, step, rrv);
    ps, sq, alp, ia, ib := 0.0, -1.0, 1.0, a0, b0;
    StartVisit(a0, step);
    StartVisit(b0, step);
    if exact {
      RunningStart(dn, rr, i, a0, b0, step, first, ps, sq, alp, ia, ib);
    }
    var a := a0;
    while true
      invariant RowOf(rr, i, b0, step, rrv[..])
      invariant Visits(a0, step, first, a) && VisitsPair(a0, b0, step, first, ia, ib)
      invariant exact ==> Running(dn, rr, i, a0, b0, step, first, a, b0, ps, sq, alp, ia, ib)
      decreases L_CODE - a
    {
      var ps1 := ps0 + dn[a];
      var alp1 := alp0 + rr[a][a] + 2.0 * Cross(rr, i, a);
      var b := b0;
      while true
        invariant RowOf(rr, i, b0, step, rrv[..])
        invariant Visits(b0, step, !first, b) && VisitsPair(a0, b0, step, first, ia, ib)
        invariant exact ==> Running(dn, rr, i, a0, b0, step, first, a, b, ps, sq, alp, ia, ib)
        decreases L_CODE - b
      {
        var ps2 := ps1 + dn[b];
        var sq2 := Square(ps2);
        assert rrv[..][b] == rr[b][b] + 2.0 * Cross(rr, i, b);
        var alp2 := alp1 + rrv[b] + 2.0 * rr[a][b];
        CorrPair(dn, i, a, b);
        EnergyPair(rr, i, a, b);
        if exact {
          assert ps2 == Corr(dn, i + [a, b]) && alp2 == Energy(rr, i + [a, b]);
          TestKeepsBest(dn, rr, i, a0, b0, step, first, a, b, ps, sq, alp, ia, ib);
        }
        if alp * sq2 > sq * alp2 {
          sq, ps, alp, ia, ib := sq2, ps2, alp2, a, b;
        }
        NextVisit(b, step);
        b := b + step;
        if !(if first then b < 39 else b <= 39) {
          break;
        }
      }
      if exact {
        RowDone(dn, rr, i, a0, b0, step, first, a, b, ps, sq, alp, ia, ib);
      }
      NextVisit(a, step);
      a := a + step;
      if !(if first then a <= 39 else a < 39) {
        break;
      }
    }
    if exact {
      AllDone(dn, rr, i, a0, b0, step, first, a, ps, sq, alp, ia, ib);
    }
  }

  // ---------- Tracks ----------

  /** How many of the pulses lie on track `t`. */
  function TrackCount(ps: seq<int>, step: int, t: int): nat
    requires step > 0
  {
    if ps == [] then 0
    else TrackCount(ps[..|ps| - 1], step, t) + if ps[|ps| - 1] % step == t then 1 else 0
  }

  /** `2 * step` pulse positions, exactly two on every track. */
  ghost predicate TwoPerTrack(ps: seq<int>, step: int)
    requires step > 0
  {
    |ps| == 2 * step && ArePositions(ps) && forall t :: 0 <= t < step ==> TrackCount(ps, step, t) == 2
  }

  /** The tracks of the pulses are those listed in `ipos`. */
  ghost predicate OnTracks(ps: seq<int>, ipos: seq<int>, step: int)
    requires step > 0
  {
    |ps| == |ipos| && ArePositions(ps) && forall k :: 0 <= k < |ps| ==> ps[k] % step == ipos[k]
  }

  lemma {:induction false} CountOnTracks(ps: seq<int>, ipos: seq<int>, step: int, t: int)
    requires IsStep(step) && |ps| == |ipos| && forall k :: 0 <= k < |ps| ==> ps[k] % step == ipos[k] % step
    ensures TrackCount(ps, step, t) == TrackCount(ipos, step, t)
  {
    if ps == [] {
    } else {
      CountOnTracks(ps[..|ps| - 1], ipos[..|ps| - 1], step, t);
    }
  }

  lemma {:induction false} CountAppend(a: seq<int>, b: seq<int>, step: int, t: int)
    requires IsStep(step)
    ensures TrackCount(a + b, step, t) == TrackCount(a, step, t) + TrackCount(b, step, t)
  {
    if b == [] {
      assert a + b == a;
    } else {
      var k := |b| - 1;
      CountAppend(a, b[..k], step, t);
      assert (a + b)[..|a| + k] == a + b[..k];
    }
  }

  /** The starting tracks that set_sign12k2 leaves: consecutive, from track `t0`, twice round. */
  ghost predicate StartTracks(ipos: seq<int>, step: int)
    requires step > 0
  {
    |ipos| == 2 * step && 0 <= ipos[0] < step &&
    forall k :: 0 <= k < 2 * step ==> ipos[k] == (ipos[0] + k) % step
  }

  /** The distance from track `s` to track `t`, going round. */
  function Distance(s: int, t: int, step: int): int {
    if s <= t then t - s else t - s + step
  }

  lemma TrackAt(s: int, k: int, step: int, t: int)
    requires IsStep(step) && 0 <= s < step && 0 <= t < step && 0 <= k < 2 * step
    ensures ((s + k) % step) % step == (s + k) % step
    ensures (s + k) % step == t <==> k == Distance(s, t, step) || k == Distance(s, t, step) + step
  {
    if step == 4 {} else {}
  }

  /** Of the first `n` starting tracks, `t` is the one at its distance, and once more a round later. */
  lemma {:induction false} StartCount(ipos: seq<int>, n: nat, step: int, t: int)
    requires IsStep(step) && StartTracks(ipos, step) && 0 <= t < step && n <= 2 * step
    ensures var d := Distance(ipos[0], t, step);
            TrackCount(ipos[..n], step, t) == (if d < n then 1 else 0) + (if d + step < n then 1 else 0)
  {
    hide IsStep;
    if n == 0 {
    } else {
      StartCount(ipos, n - 1, step, t);
      assert ipos[..n][..n - 1] == ipos[..n - 1];
      TrackAt(ipos[0], n - 1, step, t);
    }
  }

  lemma StartTracksTwice(ipos: seq<int>, step: int, t: int)
    requires IsStep(step) && StartTracks(ipos, step) && 0 <= t < step
    ensures TrackCount(ipos, step, t) == 2
  {
    StartCount(ipos, 2 * step, step, t);
    assert ipos[..2 * step] == ipos;
  }

  /** The cyclic permutation of all starting tracks but the first. */
  function Rotate(ipos: seq<int>): (r: seq<int>)
    requires |ipos| >= 2
    ensures |r| == |ipos| && r[0] == ipos[0]
  {
    [ipos[0]] + ipos[2..] + [ipos[1]]
  }

  function Rotated(ipos: seq<int>, r: nat): (s: seq<int>)
    requires |ipos| >= 2
    ensures |s| == |ipos| && s[0] == ipos[0]
  {
    if r == 0 then ipos else Rotate(Rotated(ipos, r - 1))
  }

  lemma RotateAt(ipos: seq<int>, k: nat)
    requires 1 <= k < |ipos| && |ipos| >= 2
    ensures Rotate(ipos)[k] == ipos[if k < |ipos| - 1 then k + 1 else 1]
  {}

  /** After r rotations the first track is where it was, and behind it the others have moved up by r
      places, going round. */
  lemma {:induction false} RotatedAt(ipos: seq<int>, r: nat, k: nat)
    requires |ipos| >= 2 && 1 <= k < |ipos|
    ensures Rotated(ipos, r)[0] == ipos[0] && Rotated(ipos, r)[k] == ipos[1 + (k - 1 + r) % (|ipos| - 1)]
  {
    hide Rotate;
    var n := |ipos| - 1;
    if r == 0 {
      SmallModulo(k - 1, n);
    } else {
      RotateAt(Rotated(ipos, r - 1), k);
      RotatedAt(ipos, r - 1, if k < n then k + 1 else 1);
      OnceRound(r - 1, n);
    }
  }

  lemma SmallModulo(a: nat, n: nat)
    requires a < n
    ensures a % n == a
  {}

  lemma OnceRound(a: nat, n: nat)
    requires n > 0
    ensures (a + n) % n == a % n
  {
    DivModUnique(a / n + 1, a % n, n, a + n);
  }

  lemma RotateCount(ipos: seq<int>, step: int, t: int)
    requires IsStep(step) && |ipos| >= 2
    ensures TrackCount(Rotate(ipos), step, t) == TrackCount(ipos, step, t)
  {
    var a, b, c := [ipos[0]], [ipos[1]], ipos[2..];
    assert ipos == a + (b + c);
    assert Rotate(ipos) == a + (c + b);
    CountAppend(a, b + c, step, t);
    CountAppend(a, c + b, step, t);
    CountAppend(b, c, step, t);
    CountAppend(c, b, step, t);
  }

  lemma {:induction false} RotatedCount(ipos: seq<int>, r: nat, step: int, t: int)
    requires IsStep(step) && |ipos| >= 2
    ensures TrackCount(Rotated(ipos, r), step, t) == TrackCount(ipos, step, t)
  {
    if r == 0 {
    } else {
      RotatedCount(ipos, r - 1, step, t);
      RotateCount(Rotated(ipos, r - 1), step, t);
    }
  }

  lemma {:induction false} RotatedInRange(ipos: seq<int>, r: nat, step: int)
    requires IsStep(step) && |ipos| >= 2 && forall k :: 0 <= k < |ipos| ==> 0 <= ipos[k] < step
    ensures forall k :: 0 <= k < |ipos| ==> 0 <= Rotated(ipos, r)[k] < step
  {
    if r == 0 {
    } else {
      RotatedInRange(ipos, r - 1, step);
    }
  }

  // ---------- The whole search ----------

  /** The positions of maximum correlation, one per track. */
  ghost predicate TrackMaxima(posMax: seq<int>, step: int)
    requires step > 0
  {
    |posMax| == step && forall t :: 0 <= t < step ==> IsPosition(posMax[t]) && posMax[t] % step == t
  }

  /** The pulse vector one pass must produce: two fixed pulses, then the best pair per stage. */
  ghost predicate Greedy(dn: seq<real>, rr: seq<seq<real>>, posMax: seq<int>, ipos: seq<int>, step: int, v: seq<int>)
    requires |dn| == L_CODE && Positive(rr) && IsStep(step) && TrackMaxima(posMax, step)
    requires |ipos| == 2 * step && forall k :: 0 <= k < |ipos| ==> 0 <= ipos[k] < step
  {
    && |v| == 2 * step && ArePositions(v)
    && v[0] == posMax[ipos[0]] && v[1] == posMax[ipos[1]]
    && forall p :: 1 <= p < step ==>
         BestPair(dn, rr, v[..2 * p], ipos[2 * p], ipos[2 * p + 1], step, p == 1, v[2 * p], v[2 * p + 1])
  }

  /** The pulse vectors of the four passes, and the choice among them: the first of the best. */
  ghost predicate PassesDone(dn: seq<real>, rr: seq<seq<real>>, posMax: seq<int>, ipos: seq<int>, step: int,
                             tried: seq<seq<int>>)
    requires |dn| == L_CODE && Positive(rr) && IsStep(step) && TrackMaxima(posMax, step)
    requires |ipos| == 2 * step && forall k :: 0 <= k < |ipos| ==> 0 <= ipos[k] < step
  {
    forall r :: 0 <= r < |tried| ==>
      (RotatedInRange(ipos, r, step); Greedy(dn, rr, posMax, Rotated(ipos, r), step, tried[r]))
  }

  ghost predicate AreVectors(vs: seq<seq<int>>) {
    forall r :: 0 <= r < |vs| ==> vs[r] != [] && ArePositions(vs[r])
  }

  ghost predicate FirstBest(dn: seq<real>, rr: seq<seq<real>>, tried: seq<seq<int>>, m: int)
    requires |dn| == L_CODE && Positive(rr) && AreVectors(tried)
  {
    && 0 <= m < |tried|
    && (forall r :: 0 <= r < |tried| ==> Score(dn, rr, tried[r]) <= Score(dn, rr, tried[m]))
    && (forall r :: 0 <= r < m ==> Score(dn, rr, tried[r]) < Score(dn, rr, tried[m]))
  }

  /** The pulses of the first `n` stages of a pass. */
  ghost predicate PassPrefix(dn: seq<real>, rr: seq<seq<real>>, posMax: seq<int>, ipos: seq<int>, step: int,
                             v: seq<int>)
    requires |dn| == L_CODE && Positive(rr) && IsStep(step) && TrackMaxima(posMax, step)
    requires |ipos| == 2 * step && forall k :: 0 <= k < |ipos| ==> 0 <= ipos[k] < step
  {
    && 2 <= |v| <= 2 * step && |v| % 2 == 0 && ArePositions(v)
    && v[0] == posMax[ipos[0]] && v[1] == posMax[ipos[1]]
    && forall p :: 1 <= p < |v| / 2 ==>
         BestPair(dn, rr, v[..2 * p], ipos[2 * p], ipos[2 * p + 1], step, p == 1, v[2 * p], v[2 * p + 1])
  }

  lemma PassExtend(dn: seq<real>, rr: seq<seq<real>>, posMax: seq<int>, ipos: seq<int>, step: int, v: seq<int>,
                   a: int, b: int)
    requires |dn| == L_CODE && Positive(rr) && IsStep(step) && TrackMaxima(posMax, step)
    requires |ipos| == 2 * step && forall k :: 0 <= k < |ipos| ==> 0 <= ipos[k] < step
    requires |v| < 2 * step && PassPrefix(dn, rr, posMax, ipos, step, v)
    requires BestPair(dn, rr, v, ipos[|v|], ipos[|v| + 1], step, |v| == 2, a, b)
    ensures PassPrefix(dn, rr, posMax, ipos, step, v + [a, b])
  {
    hide BestPair, Positive;
    var w := v + [a, b];
    BestPairPositions(dn, rr, v, ipos[|v|], ipos[|v| + 1], step, |v| == 2, a, b);
    forall p | 1 <= p < |w| / 2
      ensures BestPair(dn, rr, w[..2 * p], ipos[2 * p], ipos[2 * p + 1], step, p == 1, w[2 * p], w[2 * p + 1])
    {
      if p < |v| / 2 {
        assert w[..2 * p] == v[..2 * p];
      } else {
        assert 2 * p == |v| && w[..2 * p] == v;
      }
    }
  }

  lemma BestPairPositions(dn: seq<real>, rr: seq<seq<real>>, v: seq<int>, a0: int, b0: int, step: int, first: bool,
                          a: int, b: int)
    requires |dn| == L_CODE && Positive(rr) && ArePositions(v) && IsStep(step) && 0 <= a0 && 0 <= b0
    requires BestPair(dn, rr, v, a0, b0, step, first, a, b)
    ensures IsPosition(a) && IsPosition(b)
  {}

  /** One pass of the outer loop: two fixed pulses and the pairs. */
  method SearchPass(dn: seq<real>, rr: seq<seq<real>>, posMax: seq<int>, ipos: array<int>, step: int)
    returns (i: seq<int>, sq: real, alp: real)
    requires |dn| == L_CODE && IsMatrix(rr) && IsStep(step) && TrackMaxima(posMax, step)
    requires ipos.Length == 2 * step && forall k :: 0 <= k < ipos.Length ==> 0 <= ipos[k] < step
    ensures OnTracks(i, ipos[..], step)
    ensures Positive(rr) ==>
              && Greedy(dn, rr, posMax, ipos[..], step, i)
              && sq == Square(Corr(dn, i)) && alp == Energy(rr, i)
  {
    hide Positive, Corr, Energy, Cross, Square, BestPair, PassPrefix, Greedy;
    ghost var tr := ipos[..];
    var i0, i1 := posMax[ipos[0]], posMax[ipos[1]];
    i := [i0, i1];
    var ps := dn[i0] + dn[i1];
    alp := rr[i0][i0] + rr[i1][i1] + 2.0 * rr[i0][i1];
    sq := 0.0;
    FirstTwo(dn, rr, i0, i1);
    if Positive(rr) {
      PassStart(dn, rr, posMax, tr, step, i);
    }
    var k := 2;
    while k < 2 * step
      invariant 2 <= k <= 2 * step && k % 2 == 0 && |i| == k
      invariant ipos[..] == tr
      invariant OnTracks(i, tr[..k], step)
      invariant Positive(rr) ==>
                  && PassPrefix(dn, rr, posMax, tr, step, i)
                  && ps == Corr(dn, i) && alp == Energy(rr, i)
                  && (k > 2 ==> sq == Square(ps))
    {
      ghost var was := i;
      var ia, ib;
      ps, sq, alp, ia, ib := SearchPair(dn, rr, i, ps, alp, ipos[k], ipos[k + 1], step, k == 2);
      if Positive(rr) {
        PassExtend(dn, rr, posMax, tr, step, was, ia, ib);
      }
      StartVisit(ipos[k], step);
      StartVisit(ipos[k + 1], step);
      i := i + [ia, ib];
      k := k + 2;
    }
    assert tr[..k] == tr;
    if Positive(rr) {
      PassComplete(dn, rr, posMax, tr, step, i);
    }
  }

  lemma FirstTwo(dn: seq<real>, rr: seq<seq<real>>, a: int, b: int)
    requires |dn| == L_CODE && IsMatrix(rr) && IsPosition(a) && IsPosition(b)
    ensures Corr(dn, [a, b]) == dn[a] + dn[b]
    ensures Energy(rr, [a, b]) == rr[a][a] + rr[b][b] + 2.0 * rr[a][b]
  {
    CorrPair(dn, [], a, b);
    EnergyPair(rr, [], a, b);
    assert [] + [a, b] == [a, b];
  }

  lemma PassStart(dn: seq<real>, rr: seq<seq<real>>, posMax: seq<int>, ipos: seq<int>, step: int, v: seq<int>)
    requires |dn| == L_CODE && Positive(rr) && IsStep(step) && TrackMaxima(posMax, step)
    requires |ipos| == 2 * step && forall k :: 0 <= k < |ipos| ==> 0 <= ipos[k] < step
    requires v == [posMax[ipos[0]], posMax[ipos[1]]]
    ensures PassPrefix(dn, rr, posMax, ipos, step, v)
  {
    hide BestPair, Positive;
  }

  lemma PassComplete(dn: seq<real>, rr: seq<seq<real>>, posMax: seq<int>, ipos: seq<int>, step: int, v: seq<int>)
    requires |dn| == L_CODE && Positive(rr) && IsStep(step) && TrackMaxima(posMax, step)
    requires |ipos| == 2 * step && forall k :: 0 <= k < |ipos| ==> 0 <= ipos[k] < step
    requires PassPrefix(dn, rr, posMax, ipos, step, v) && |v| == 2 * step
    ensures Greedy(dn, rr, posMax, ipos, step, v)
  {
    hide BestPair, Positive;
  }

  lemma PassScore(dn: seq<real>, rr: seq<seq<real>>, v: seq<int>)
    requires |dn| == L_CODE && Positive(rr) && v != [] && ArePositions(v)
    ensures Energy(rr, v) > 0.0 && Square(Corr(dn, v)) >= 0.0
    ensures Score(dn, rr, v) == Square(Corr(dn, v)) / Energy(rr, v)
  {}

  /** The final test of a pass keeps the first of the best vectors. */
  lemma KeepBest(dn: seq<real>, rr: seq<seq<real>>, tried: seq<seq<int>>, m: int, v: seq<int>, psk: real, alpk: real)
    requires |dn| == L_CODE && Positive(rr) && AreVectors(tried) && v != [] && ArePositions(v)
    requires if tried == [] then psk == -1.0 && alpk == 1.0
             else FirstBest(dn, rr, tried, m) &&
                  psk == Square(Corr(dn, tried[m])) && alpk == Energy(rr, tried[m])
    ensures var better := alpk * Square(Corr(dn, v)) > psk * Energy(rr, v);
            FirstBest(dn, rr, tried + [v], if better then |tried| else m)
    ensures tried == [] ==> alpk * Square(Corr(dn, v)) > psk * Energy(rr, v)
  {
    hide Score, Corr, Energy, Square;
    PassScore(dn, rr, v);
    if tried == [] {
      assert alpk * Square(Corr(dn, v)) == Square(Corr(dn, v)) && psk * Energy(rr, v) == -Energy(rr, v);
    } else {
      PassScore(dn, rr, tried[m]);
      CrossMultiply(psk, alpk, Square(Corr(dn, v)), Energy(rr, v));
    }
  }

  /** The cyclic permutation at the end of a pass. */
  method RotateTracks(ipos: array<int>)
    requires ipos.Length >= 2
    modifies ipos
    ensures ipos[..] == Rotate(old(ipos[..]))
  {
    var pos := ipos[1];
    var j := 1;
    while j < ipos.Length - 1
      invariant 1 <= j <= ipos.Length - 1
      invariant forall q :: 1 <= q < j ==> ipos[q] == old(ipos[q + 1])
      invariant forall q :: j <= q < ipos.Length ==> ipos[q] == old(ipos[q])
      invariant ipos[0] == old(ipos[0])
    {
      ipos[j] := ipos[j + 1];
      j := j + 1;
    }
    ipos[ipos.Length - 1] := pos;
  }

  /** search_8i40 and search_10i40. On every input the result has two pulses on each track; when
      the quadratic forms are positive it is the first of the best of the four passes. The
      vectors of the passes are returned as a witness. */
  method Search(dn: seq<real>, rr: seq<seq<real>>, posMax: seq<int>, ipos: array<int>, step: int, codvec: array<int>)
    returns (ghost tried: seq<seq<int>>, ghost m: int)
    requires |dn| == L_CODE && IsMatrix(rr) && IsStep(step) && TrackMaxima(posMax, step)
    requires ipos.Length == codvec.Length == 2 * step && ipos != codvec && StartTracks(ipos[..], step)
    modifies ipos, codvec
    ensures TwoPerTrack(codvec[..], step)
    ensures forall k :: 0 <= k < 2 * step ==> 0 <= old(ipos[..])[k] < step
    ensures Positive(rr) ==>
              && |tried| == 4 && AreVectors(tried)
              && PassesDone(dn, rr, posMax, old(ipos[..]), step, tried)
              && FirstBest(dn, rr, tried, m) && codvec[..] == tried[m]
  {
    hide Positive, Corr, Energy, Square, Score, Greedy, TwoPerTrack, OnTracks;
    ghost var start := ipos[..];
    StartInRange(start, step);
    tried, m := [], 0;
    var psk, alpk := -1.0, 1.0;
    DefaultVector(step, codvec);
    var i := 1;
    while i < 5
      invariant 1 <= i <= 5
      invariant ipos[..] == Rotated(start, i - 1)
      invariant TwoPerTrack(codvec[..], step)
      invariant Positive(rr) ==>
                  && |tried| == i - 1 && AreVectors(tried) && PassesDone(dn, rr, posMax, start, step, tried)
                  && if tried == [] then psk == -1.0 && alpk == 1.0
                     else FirstBest(dn, rr, tried, m) && codvec[..] == tried[m] &&
                          psk == Square(Corr(dn, tried[m])) && alpk == Energy(rr, tried[m])
    {
      RotatedInRange(start, i - 1, step);
      var v, sq, alp := SearchPass(dn, rr, posMax, ipos, step);
      PassTracks(v, start, i - 1, step);
      if Positive(rr) {
        GreedyVector(dn, rr, posMax, ipos[..], step, v);
        KeepBest(dn, rr, tried, m, v, psk, alpk);
        FirstBestInRange(dn, rr, tried + [v], if alpk * sq > psk * alp then |tried| else m);
        m := if alpk * sq > psk * alp then |tried| else m;
        tried := tried + [v];
      }
      if alpk * sq > psk * alp {
        psk, alpk := sq, alp;
        CopyVector(v, codvec);
      }
      RotateTracks(ipos);
      i := i + 1;
    }
  }

  lemma StartInRange(ipos: seq<int>, step: int)
    requires IsStep(step) && StartTracks(ipos, step)
    ensures forall k :: 0 <= k < |ipos| ==> 0 <= ipos[k] < step
  {
    if step == 4 {} else {}
  }

  /** codvec[i] = i, the value kept when no pass is accepted. */
  method DefaultVector(step: int, codvec: array<int>)
    requires IsStep(step) && codvec.Length == 2 * step
    modifies codvec
    ensures TwoPerTrack(codvec[..], step)
  {
    var i := 0;
    while i < 2 * step
      invariant 0 <= i <= 2 * step
      invariant forall k :: 0 <= k < i ==> codvec[k] == k
    {
      codvec[i] := i;
      i := i + 1;
    }
    IdentityTracks(codvec[..], step);
  }

  lemma IdentityTracks(v: seq<int>, step: int)
    requires IsStep(step) && |v| == 2 * step && forall k :: 0 <= k < |v| ==> v[k] == k
    ensures TwoPerTrack(v, step)
  {
    var ipos := seq(2 * step, k => k % step);
    forall k | 0 <= k < |v|
      ensures ipos[k] == (ipos[0] + k) % step && v[k] % step == ipos[k] % step
    {
      if step == 4 {} else {}
    }
    forall t | 0 <= t < step
      ensures TrackCount(v, step, t) == 2
    {
      StartTracksTwice(ipos, step, t);
      CountOnTracks(v, ipos, step, t);
    }
  }

  lemma PassTracks(v: seq<int>, start: seq<int>, r: nat, step: int)
    requires IsStep(step) && StartTracks(start, step) && OnTracks(v, Rotated(start, r), step)
    ensures TwoPerTrack(v, step)
  {
    var ipos := Rotated(start, r);
    StartInRange(start, step);
    RotatedInRange(start, r, step);
    forall k | 0 <= k < |v|
      ensures v[k] % step == ipos[k] % step
    {
      StartVisit(ipos[k], step);
    }
    forall t | 0 <= t < step
      ensures TrackCount(v, step, t) == 2
    {
      CountOnTracks(v, ipos, step, t);
      RotatedCount(start, r, step, t);
      StartTracksTwice(start, step, t);
    }
  }

  lemma GreedyVector(dn: seq<real>, rr: seq<seq<real>>, posMax: seq<int>, ipos: seq<int>, step: int, v: seq<int>)
    requires |dn| == L_CODE && Positive(rr) && IsStep(step) && TrackMaxima(posMax, step)
    requires |ipos| == 2 * step && forall k :: 0 <= k < |ipos| ==> 0 <= ipos[k] < step
    requires Greedy(dn, rr, posMax, ipos, step, v)
    ensures |v| == 2 * step && v != [] && ArePositions(v)
  {}

  lemma FirstBestInRange(dn: seq<real>, rr: seq<seq<real>>, tried: seq<seq<int>>, m: int)
    requires |dn| == L_CODE && Positive(rr) && AreVectors(tried) && FirstBest(dn, rr, tried, m)
    ensures 0 <= m < |tried|
  {}

  method CopyVector(v: seq<int>, codvec: array<int>)
    requires codvec.Length == |v|
    modifies codvec
    ensures codvec[..] == v
  {
    var k := 0;
    while k < |v|
      invariant 0 <= k <= |v|
      invariant forall q :: 0 <= q < k ==> codvec[q] == v[q]
    {
      codvec[k] := v[k];
      k := k + 1;
    }
  }

  // ---------- set_sign12k2 ----------

  function Abs(x: real): real {
    if x < 0.0 then -x else x
  }

  /** The signal b(n) whose sign fixes the pulse signs; `kCn` and `kDn` normalise its two parts. */
  function Signal(cn: seq<real>, dn: seq<real>, kCn: real, kDn: real): (b: seq<real>)
    requires |cn| == |dn| == L_CODE
    ensures |b| == L_CODE
  {
    seq(L_CODE, j requires 0 <= j < L_CODE => kCn * cn[j] + kDn * dn[j])
  }

  lemma SignalAt(cn: seq<real>, dn: seq<real>, kCn: real, kDn: real, j: int)
    requires |cn| == |dn| == L_CODE && 0 <= j < L_CODE
    ensures Signal(cn, dn, kCn, kDn)[j] == kCn * cn[j] + kDn * dn[j]
  {}

  function Magnitudes(b: seq<real>): (a: seq<real>)
    ensures |a| == |b|
  {
    seq(|b|, j requires 0 <= j < |b| => Abs(b[j]))
  }

  /** `p` is the first position of track `t` at which `b` is largest. */
  ghost predicate FirstMaximum(b: seq<real>, t: int, step: int, p: int)
    requires |b| == L_CODE && step > 0
  {
    && IsPosition(p) && p % step == t
    && (forall j :: 0 <= j < L_CODE && j % step == t ==> b[j] <= b[p])
    && (forall j :: 0 <= j < p && j % step == t ==> b[j] < b[p])
  }

  /** The search starts from these maxima: the first one of each track, and the tracks from the one
      with the largest maximum on, the first of these when there are several. */
  ghost predicate StartsFrom(b: seq<real>, step: int, posMax: seq<int>, ipos: seq<int>)
    requires |b| == L_CODE && step > 0
  {
    && TrackMaxima(posMax, step) && StartTracks(ipos, step)
    && (forall t :: 0 <= t < step ==> FirstMaximum(b, t, step, posMax[t]))
    && (forall t :: 0 <= t < step ==> b[posMax[t]] <= b[posMax[ipos[0]]])
    && (forall t :: 0 <= t < ipos[0] ==> b[posMax[t]] < b[posMax[ipos[0]]])
  }

  /** The position of the largest value of one track. */
  method TrackMaximum(b: seq<real>, t: int, step: int) returns (pos: int, max: real)
    requires |b| == L_CODE && IsStep(step) && 0 <= t < step
    requires forall j :: 0 <= j < L_CODE ==> b[j] >= 0.0
    ensures FirstMaximum(b, t, step, pos) && max == b[pos]
  {
    pos, max := 0, -1.0;
    StartVisit(t, step);
    var j := t;
    while j < L_CODE
      invariant t <= j && j % step == t
      invariant if j == t then max == -1.0
                else
                  && IsPosition(pos) && pos % step == t && max == b[pos] && pos < j
                  && (forall q :: 0 <= q < L_CODE && q < j && q % step == t ==> b[q] <= max)
                  && (forall q :: 0 <= q < pos && q % step == t ==> b[q] < max)
    {
      forall q | 0 <= q < j + step && q % step == t
        ensures q <= j
      {
        if j < q {
          Gap(j, q, step);
        }
      }
      if b[j] - max > 0.0 {
        max, pos := b[j], j;
      }
      NextVisit(j, step);
      j := j + step;
    }
  }

  /** The sign of each position, the correlations under these signs, the best position of each
      track, and the starting tracks, beginning with the best one. */
  method SetSign(dn: array<real>, cn: seq<real>, sign: array<real>, posMax: array<int>, step: int,
                 ipos: array<int>, kCn: real, kDn: real)
    requires dn.Length == |cn| == sign.Length == L_CODE && dn != sign && IsStep(step)
    requires posMax.Length == step && ipos.Length == 2 * step && posMax != ipos
    modifies dn, sign, posMax, ipos
    ensures var b := Signal(cn, old(dn[..]), kCn, kDn);
            && (forall j :: 0 <= j < L_CODE ==> sign[j] == (if b[j] < 0.0 then -1.0 else 1.0))
            && (forall j :: 0 <= j < L_CODE ==> dn[j] == sign[j] * old(dn[j]))
            && StartsFrom(Magnitudes(b), step, posMax[..], ipos[..])
  {
    hide Signal, Abs, FirstMaximum, StartTracks;
    ghost var b0 := Signal(cn, dn[..], kCn, kDn);
    var b := SignLoop(dn, cn, sign, kCn, kDn);
    assert b == Magnitudes(b0);
    MaximaOfTracks(b, posMax, step, ipos);
    FillStart(step, ipos);
  }

  /** The loop that fixes the signs and collects the absolute values. */
  method SignLoop(dn: array<real>, cn: seq<real>, sign: array<real>, kCn: real, kDn: real) returns (a: seq<real>)
    requires dn.Length == |cn| == sign.Length == L_CODE && dn != sign
    modifies dn, sign
    ensures var b := Signal(cn, old(dn[..]), kCn, kDn);
            && (forall j :: 0 <= j < L_CODE ==> sign[j] == (if b[j] < 0.0 then -1.0 else 1.0))
            && (forall j :: 0 <= j < L_CODE ==> dn[j] == sign[j] * old(dn[j]))
            && |a| == L_CODE && forall j :: 0 <= j < L_CODE ==> a[j] == Abs(b[j]) && a[j] >= 0.0
  {
    hide Signal;
    ghost var dn0 := dn[..];
    ghost var b := Signal(cn, dn0, kCn, kDn);
    a := [];
    var i := 0;
    while i < L_CODE
      invariant 0 <= i <= L_CODE && |a| == i
      invariant forall j :: 0 <= j < i ==> a[j] == Abs(b[j]) && a[j] >= 0.0
      invariant forall j :: 0 <= j < i ==> sign[j] == (if b[j] < 0.0 then -1.0 else 1.0) && dn[j] == sign[j] * dn0[j]
      invariant forall j :: i <= j < L_CODE ==> dn[j] == dn0[j]
    {
      var val := dn[i];
      var cor := kCn * cn[i] + kDn * val;
      SignalAt(cn, dn0, kCn, kDn, i);
      sign[i] := 1.0;
      if cor < 0.0 {
        sign[i] := -1.0;
        cor := -cor;
        val := -val;
      }
      dn[i] := val;
      a := a + [cor];
      i := i + 1;
    }
  }

  method MaximaOfTracks(b: seq<real>, posMax: array<int>, step: int, ipos: array<int>)
    requires |b| == L_CODE && IsStep(step) && posMax.Length == step && ipos.Length == 2 * step && posMax != ipos
    requires forall j :: 0 <= j < L_CODE ==> b[j] >= 0.0
    modifies posMax, ipos
    ensures TrackMaxima(posMax[..], step) && 0 <= ipos[0] < step
    ensures forall t :: 0 <= t < step ==> FirstMaximum(b, t, step, posMax[t])
    ensures forall t :: 0 <= t < step ==> b[posMax[t]] <= b[posMax[ipos[0]]]
    ensures forall t :: 0 <= t < ipos[0] ==> b[posMax[t]] < b[posMax[ipos[0]]]
  {
    var maxOfAll := -1.0;
    var i := 0;
    while i < step
      invariant 0 <= i <= step
      invariant forall t :: 0 <= t < i ==> FirstMaximum(b, t, step, posMax[t]) && b[posMax[t]] <= maxOfAll
      invariant i > 0 ==> 0 <= ipos[0] < i && maxOfAll == b[posMax[ipos[0]]]
      invariant i > 0 ==> forall t :: 0 <= t < ipos[0] ==> b[posMax[t]] < maxOfAll
      invariant i == 0 ==> maxOfAll == -1.0
    {
      var pos, max := TrackMaximum(b, i, step);
      posMax[i] := pos;
      if max - maxOfAll > 0.0 {
        maxOfAll := max;
        ipos[0] := i;
      }
      i := i + 1;
    }
  }

  /** The wrap-around loop that lists the starting tracks. */
  method FillStart(step: int, ipos: array<int>)
    requires IsStep(step) && ipos.Length == 2 * step && 0 <= ipos[0] < step
    modifies ipos
    ensures StartTracks(ipos[..], step) && ipos[0] == old(ipos[0])
  {
    var pos := ipos[0];
    ghost var p0 := pos;
    ipos[step] := pos;
    WrapTwice(p0, 0, step);
    var i := 1;
    while i < step
      invariant 1 <= i <= step && 0 <= pos < step && pos == (p0 + i - 1) % step
      invariant forall k :: 0 <= k < i ==> ipos[k] == (p0 + k) % step
      invariant forall k :: step <= k < step + i ==> ipos[k] == (p0 + k) % step
    {
      WrapStep(p0 + i - 1, step);
      WrapTwice(p0, i, step);
      pos := pos + 1;
      if pos >= step {
        pos := 0;
      }
      ipos[i] := pos;
      ipos[i + step] := pos;
      i := i + 1;
    }
  }

  lemma WrapStep(x: int, step: int)
    requires IsStep(step) && 0 <= x
    ensures (x + 1) % step == if x % step + 1 >= step then 0 else x % step + 1
  {
    var r := x % step + 1;
    if step == 4 {
      DivModUnique(if r >= 4 then x / 4 + 1 else x / 4, if r >= 4 then 0 else r, 4, x + 1);
    } else {
      DivModUnique(if r >= 5 then x / 5 + 1 else x / 5, if r >= 5 then 0 else r, 5, x + 1);
    }
  }

  lemma WrapTwice(p: int, k: int, step: int)
    requires IsStep(step) && 0 <= p < step && 0 <= k
    ensures (p + k + step) % step == (p + k) % step && (k == 0 ==> (p + k) % step == p)
  {
    var x := p + k;
    if step == 4 {
      DivModUnique(x / 4 + 1, x % 4, 4, x + 4);
    } else {
      DivModUnique(x / 5 + 1, x % 5, 5, x + 5);
    }
  }
}
