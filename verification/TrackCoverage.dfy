/**
  Whether a stage of the codebook search of C/amr_encode/sp_enc.c chooses the best of all pairs of
  its two tracks. One of its two loops stops before position 39, which is the last of the last track.
 */
module TrackCoverage {
  import opened CodebookSearch

  predicate InTrack(x: int, x0: int, step: int)
    requires step > 0
  {
    IsPosition(x) && x % step == x0 % step
  }

  /** No pair of the two tracks has a better score. */
  ghost predicate BestOfTracks(dn: seq<real>, rr: seq<seq<real>>, ps: seq<int>, a0: int, b0: int, step: int,
                               ia: int, ib: int)
    requires |dn| == L_CODE && Positive(rr) && ArePositions(ps) && IsStep(step) && IsPosition(ia) && IsPosition(ib)
  {
    forall a, b :: InTrack(a, a0, step) && InTrack(b, b0, step) ==>
      Score(dn, rr, ps + [a, b]) <= Score(dn, rr, ps + [ia, ib])
  }

  // ---------- There is a first best pair ----------

  /** The best of the visited pairs with a code below n. */
  ghost predicate BestBelow(dn: seq<real>, rr: seq<seq<real>>, ps: seq<int>, a0: int, b0: int, step: int, first: bool,
                            n: int, ia: int, ib: int)
    requires |dn| == L_CODE && Positive(rr) && ArePositions(ps) && IsStep(step) && 0 <= a0 && 0 <= b0
  {
    && VisitsPair(a0, b0, step, first, ia, ib) && Code(ia, ib) < n
    && forall a, b :: VisitsPair(a0, b0, step, first, a, b) && Code(a, b) < n ==>
         if Code(a, b) < Code(ia, ib) then Score(dn, rr, ps + [a, b]) < Score(dn, rr, ps + [ia, ib])
         else Score(dn, rr, ps + [a, b]) <= Score(dn, rr, ps + [ia, ib])
  }

  function Code(a: int, b: int): int {
    40 * a + b
  }

  lemma CodeOrders(a: int, b: int, a': int, b': int)
    requires IsPosition(b) && IsPosition(b')
    ensures Before(a, b, a', b') <==> Code(a, b) < Code(a', b')
    ensures Code(a, b) == Code(a', b') <==> a == a' && b == b'
  {}

  lemma {:induction false} BestExistsBelow(dn: seq<real>, rr: seq<seq<real>>, ps: seq<int>, a0: int, b0: int, step: int,
                                           first: bool, n: nat) returns (ia: int, ib: int)
    requires |dn| == L_CODE && Positive(rr) && ArePositions(ps) && IsStep(step) && 0 <= a0 < step && 0 <= b0 < step
    requires exists a, b :: VisitsPair(a0, b0, step, first, a, b) && Code(a, b) < n
    ensures BestBelow(dn, rr, ps, a0, b0, step, first, n, ia, ib)
  {
    hide Score, Positive;
    var a, b := (n - 1) / 40, (n - 1) % 40;
    var here := n > 0 && VisitsPair(a0, b0, step, first, a, b);
    forall a', b' | VisitsPair(a0, b0, step, first, a', b') && Code(a', b') < n
      ensures Code(a', b') < n - 1 || (here && a' == a && b' == b)
    {
      CodeOrders(a', b', a, b);
    }
    if exists a', b' :: VisitsPair(a0, b0, step, first, a', b') && Code(a', b') < n - 1 {
      ia, ib := BestExistsBelow(dn, rr, ps, a0, b0, step, first, n - 1);
      if here && Score(dn, rr, ps + [a, b]) > Score(dn, rr, ps + [ia, ib]) {
        ia, ib := a, b;
      }
    } else {
      ia, ib := a, b;
    }
  }

  lemma BestExists(dn: seq<real>, rr: seq<seq<real>>, ps: seq<int>, a0: int, b0: int, step: int, first: bool)
    returns (ia: int, ib: int)
    requires |dn| == L_CODE && Positive(rr) && ArePositions(ps) && IsStep(step) && 0 <= a0 < step && 0 <= b0 < step
    ensures BestPair(dn, rr, ps, a0, b0, step, first, ia, ib)
  {
    hide Score, Positive;
    assert VisitsPair(a0, b0, step, first, a0, b0) && Code(a0, b0) < 1600;
    ia, ib := BestExistsBelow(dn, rr, ps, a0, b0, step, first, 1600);
    forall a, b | VisitsPair(a0, b0, step, first, a, b)
      ensures Code(a, b) < 1600 && (Before(a, b, ia, ib) <==> Code(a, b) < Code(ia, ib))
    {
      CodeOrders(a, b, ia, ib);
    }
  }

  // ---------- A matrix and a target that need position 39 ----------

  /** The matrix of an impulse response that is a single impulse. */
  function Impulse(): (rr: seq<seq<real>>)
    ensures IsMatrix(rr)
    ensures forall i, j :: IsPosition(i) && IsPosition(j) ==> rr[i][j] == if i == j then 1.0 else 0.0
  {
    seq(L_CODE, i => seq(L_CODE, j => if i == j then 1.0 else 0.0))
  }

  /** A target that is zero before position 39. */
  function Peak(): (dn: seq<real>)
    ensures |dn| == L_CODE && forall i :: IsPosition(i) ==> dn[i] == if i == 39 then 1.0 else 0.0
  {
    seq(L_CODE, i => if i == 39 then 1.0 else 0.0)
  }

  lemma {:induction false} CrossCounts(ps: seq<int>, x: int)
    requires ArePositions(ps) && IsPosition(x)
    ensures Cross(Impulse(), ps, x) >= 0.0 && (x == 39 ==> Cross(Impulse(), ps, x) == Corr(Peak(), ps))
  {
    hide Impulse, Peak;
    if ps == [] {
    } else {
      CrossCounts(ps[..|ps| - 1], x);
    }
  }

  /** The energy is at least the square of the number of pulses at 39. */
  lemma {:induction false} EnergyAtLeast(ps: seq<int>)
    requires ArePositions(ps)
    ensures Corr(Peak(), ps) >= 0.0 && Energy(Impulse(), ps) >= Square(Corr(Peak(), ps))
    ensures ps != [] ==> Energy(Impulse(), ps) > 0.0
  {
    hide Impulse, Peak;
    CrossCounts(ps, 39);
    if ps == [] {
    } else {
      var front, x := ps[..|ps| - 1], ps[|ps| - 1];
      EnergyAtLeast(front);
      CrossCounts(front, x);
    }
  }

  lemma ImpulsePositive()
    ensures Positive(Impulse()) && Symmetric(Impulse())
  {
    forall ps: seq<int> | ps != [] && ArePositions(ps)
      ensures Energy(Impulse(), ps) > 0.0
    {
      EnergyAtLeast(ps);
    }
  }

  /** A pulse at 39 is better than any other last pulse. */
  lemma PeakIsBetter(q: seq<int>, x: int)
    requires Positive(Impulse()) && ArePositions(q) && IsPosition(x) && x != 39
    ensures Score(Peak(), Impulse(), q + [39]) > Score(Peak(), Impulse(), q + [x])
  {
    var k, e, n := Corr(Peak(), q), Energy(Impulse(), q), Cross(Impulse(), q, x);
    EnergyAtLeast(q);
    CrossCounts(q, x);
    CrossCounts(q, 39);
    assert (q + [39])[..|q|] == q && (q + [x])[..|q|] == q;
    ScoreOf(Peak(), Impulse(), q + [39]);
    ScoreOf(Peak(), Impulse(), q + [x]);
    CrossMultiply(Square(k), e + 1.0 + 2.0 * n, Square(k + 1.0), e + 1.0 + 2.0 * k);
    PeakArithmetic(k, e, n);
  }

  lemma PeakArithmetic(k: real, e: real, n: real)
    requires k >= 0.0 && n >= 0.0 && e >= Square(k)
    ensures Better(Square(k), e + 1.0 + 2.0 * n, Square(k + 1.0), e + 1.0 + 2.0 * k)
  {
    assert Square(k + 1.0) == Square(k) + 2.0 * k + 1.0;
    assert (e + 1.0 + 2.0 * n) * Square(k + 1.0) >= (e + 1.0) * Square(k + 1.0);
    assert (e + 1.0) * Square(k + 1.0) - Square(k) * (e + 1.0 + 2.0 * k) ==
           (2.0 * k + 1.0) * (e + 1.0) - 2.0 * k * Square(k);
    assert 2.0 * k * e >= 2.0 * k * Square(k);
    assert (2.0 * k + 1.0) * (e + 1.0) == 2.0 * k * e + 2.0 * k + e + 1.0;
    assert e >= 0.0;
  }

  lemma PairSwaps(ps: seq<int>, a: int, b: int)
    requires Positive(Impulse()) && ArePositions(ps) && IsPosition(a) && IsPosition(b)
    ensures Score(Peak(), Impulse(), ps + [a, b]) == Score(Peak(), Impulse(), ps + [b, a])
  {
    hide Impulse, Peak;
    CorrPair(Peak(), ps, a, b);
    CorrPair(Peak(), ps, b, a);
    EnergyPair(Impulse(), ps, a, b);
    EnergyPair(Impulse(), ps, b, a);
  }

  /** Position 39 in either place of a pair. */
  lemma PairBeaten(ps: seq<int>, a: int, b: int)
    requires Positive(Impulse()) && ArePositions(ps) && IsPosition(a) && IsPosition(b)
    ensures b != 39 ==> Score(Peak(), Impulse(), ps + [a, 39]) > Score(Peak(), Impulse(), ps + [a, b])
    ensures a != 39 ==> Score(Peak(), Impulse(), ps + [39, b]) > Score(Peak(), Impulse(), ps + [a, b])
  {
    hide Impulse, Peak, Score;
    PairSwaps(ps, a, b);
    PairSwaps(ps, 39, b);
    assert ps + [a, b] == (ps + [a]) + [b] && ps + [b, a] == (ps + [b]) + [a];
    assert ps + [a, 39] == (ps + [a]) + [39] && ps + [b, 39] == (ps + [b]) + [39];
    if b != 39 {
      PeakIsBetter(ps + [a], b);
    }
    if a != 39 {
      PeakIsBetter(ps + [b], a);
    }
  }

  // ---------- When a stage finds the best pair ----------

  /** Where the open one of the two loops starts. */
  function OpenStart(a0: int, b0: int, first: bool): int {
    if first then b0 else a0
  }

  lemma FindsBest(dn: seq<real>, rr: seq<seq<real>>, ps: seq<int>, a0: int, b0: int, step: int, first: bool, ia: int,
                  ib: int)
    requires |dn| == L_CODE && Positive(rr) && ArePositions(ps) && IsStep(step) && 0 <= a0 < step && 0 <= b0 < step
    requires BestPair(dn, rr, ps, a0, b0, step, first, ia, ib) && OpenStart(a0, b0, first) != step - 1
    ensures BestOfTracks(dn, rr, ps, a0, b0, step, ia, ib)
  {
    hide Score, Positive, Visits;
    VisitsWholeTrack(a0, step, first);
    VisitsWholeTrack(b0, step, !first);
    InVisits(a0, step, first, ia);
    InVisits(b0, step, !first, ib);
    forall a, b | InTrack(a, a0, step) && InTrack(b, b0, step)
      ensures Score(dn, rr, ps + [a, b]) <= Score(dn, rr, ps + [ia, ib])
    {
      assert VisitsPair(a0, b0, step, first, a, b);
    }
  }

  lemma InVisits(x0: int, step: int, closed: bool, x: int)
    requires IsStep(step) && 0 <= x0 && Visits(x0, step, closed, x)
    ensures InTrack(x, x0, step) && (!closed ==> x != 39)
  {}

  lemma MissesBest(ps: seq<int>, a0: int, b0: int, step: int, first: bool) returns (ia: int, ib: int)
    requires ArePositions(ps) && IsStep(step) && 0 <= a0 < step && 0 <= b0 < step
    requires OpenStart(a0, b0, first) == step - 1
    ensures Positive(Impulse()) && BestPair(Peak(), Impulse(), ps, a0, b0, step, first, ia, ib)
    ensures !BestOfTracks(Peak(), Impulse(), ps, a0, b0, step, ia, ib)
  {
    hide Score, Positive, Visits, Impulse, Peak;
    ImpulsePositive();
    ia, ib := BestExists(Peak(), Impulse(), ps, a0, b0, step, first);
    InVisits(a0, step, first, ia);
    InVisits(b0, step, !first, ib);
    PairBeaten(ps, ia, ib);
    assert InTrack(39, step - 1, step) by { if step == 4 {} else {} }
  }

  /** After any earlier pulses, a stage chooses the best of all pairs of its two tracks, for every
      target and every positive matrix, if and only if its open loop does not run on the last track. */
  lemma BestPairIsBest(ps: seq<int>, a0: int, b0: int, step: int, first: bool)
    requires ArePositions(ps) && IsStep(step) && 0 <= a0 < step && 0 <= b0 < step
    ensures OpenStart(a0, b0, first) != step - 1 <==>
            forall dn, rr, ia, ib ::
              |dn| == L_CODE && Positive(rr) && BestPair(dn, rr, ps, a0, b0, step, first, ia, ib) ==>
                IsPosition(ia) && IsPosition(ib) && BestOfTracks(dn, rr, ps, a0, b0, step, ia, ib)
  {
    hide Score, Positive, Impulse, Peak, BestOfTracks;
    if OpenStart(a0, b0, first) == step - 1 {
      var ia, ib := MissesBest(ps, a0, b0, step, first);
    } else {
      forall dn, rr, ia, ib | |dn| == L_CODE && Positive(rr) && BestPair(dn, rr, ps, a0, b0, step, first, ia, ib)
        ensures IsPosition(ia) && IsPosition(ib) && BestOfTracks(dn, rr, ps, a0, b0, step, ia, ib)
      {
        FindsBest(dn, rr, ps, a0, b0, step, first, ia, ib);
      }
    }
  }
}
