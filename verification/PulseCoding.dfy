/**
  The pulse indices of C/amr_encode/sp_enc.c: build_code_10i40_35bits with q_p, and
  build_code_8i40_31bits with compress_code. Both write two pulses of a track so that the
  order of their positions tells whether their signs agree.
 */
module PulseCoding {
  import opened CodebookSearch
  import opened Division
  import opened FilteredCode
  import opened PitchSharpening

  // ---------- The code vector ----------

  /** The sign of a position, as the integer cast in the code tests it. */
  predicate IsPositive(sign: seq<real>, p: int)
    requires |sign| == L_CODE && IsPosition(p)
  {
    sign[p] >= 1.0
  }

  function Amplitude(sign: seq<real>, amp: real, p: int): real
    requires |sign| == L_CODE && IsPosition(p)
  {
    if IsPositive(sign, p) then amp else -amp
  }

  /** The value of the code vector at position `x`: one amplitude for each pulse there. */
  function CodeAt(ps: seq<int>, sign: seq<real>, amp: real, x: int): real
    requires |sign| == L_CODE && ArePositions(ps) && IsPosition(x)
  {
    if ps == [] then 0.0
    else
      CodeAt(ps[..|ps| - 1], sign, amp, x) +
      if ps[|ps| - 1] == x then Amplitude(sign, amp, x) else 0.0
  }

  // ---------- The pulses of one track ----------

  /** The pulses of a track met so far: sign bit of the pulse stored first, and positions
      within the track. */
  datatype Pair = Empty | One(s: int, p0: int) | Two(s: int, p0: int, p1: int)

  function SignBit(sign: seq<real>, p: int): int
    requires |sign| == L_CODE && IsPosition(p)
  {
    if IsPositive(sign, p) then 0 else 1
  }

  /** The rule for the second pulse: with equal signs the lower position comes first, with
      different signs the higher one does. */
  function AddPulse(q: Pair, s: int, p: int): Pair {
    match q
    case Empty => One(s, p)
    case One(s0, p0) =>
      if s == s0 then (if p0 <= p then Two(s0, p0, p) else Two(s, p, p0))
      else (if p0 <= p then Two(s, p, p0) else Two(s0, p0, p))
    case Two(_, _, _) => q
  }

  function PairOf(ps: seq<int>, sign: seq<real>, step: int, t: int): Pair
    requires |sign| == L_CODE && ArePositions(ps) && step > 0
  {
    if ps == [] then Empty
    else
      var q, x := PairOf(ps[..|ps| - 1], sign, step, t), ps[|ps| - 1];
      if x % step == t then AddPulse(q, SignBit(sign, x), x / step) else q
  }

  /** What a decoder reads off: the second pulse has the opposite sign exactly when its
      position is below the first. */
  function DecodeAt(q: Pair, amp: real, p: int): real {
    match q
    case Empty => 0.0
    case One(s, p0) => if p0 == p then (if s == 0 then amp else -amp) else 0.0
    case Two(s, p0, p1) =>
      var first := if s == 0 then amp else -amp;
      (if p0 == p then first else 0.0) + (if p1 == p then (if p1 < p0 then -first else first) else 0.0)
  }

  /** A pair is consistent with the signs when it records what the positions say. */
  ghost predicate Consistent(q: Pair, sign: seq<real>, step: int, t: int)
    requires |sign| == L_CODE && IsStep(step) && 0 <= t < step
  {
    match q
    case Empty => true
    case One(s, p0) => 0 <= p0 < L_CODE / step && s == SignBit(sign, TrackPosition(p0, step, t))
    case Two(s, p0, p1) =>
      && 0 <= p0 < L_CODE / step && 0 <= p1 < L_CODE / step
      && s == SignBit(sign, TrackPosition(p0, step, t))
      && ((p1 < p0) <==> SignBit(sign, TrackPosition(p1, step, t)) != s)
  }

  function TrackPosition(p: int, step: int, t: int): (x: int)
    requires IsStep(step) && 0 <= t < step && 0 <= p < L_CODE / step
    ensures IsPosition(x)
  {
    p * step + t
  }

  lemma PositionParts(x: int, step: int)
    requires IsStep(step) && IsPosition(x)
    ensures 0 <= x % step < step && 0 <= x / step < L_CODE / step
    ensures TrackPosition(x / step, step, x % step) == x
  {
    if step == 4 {} else {}
  }

  lemma TrackPositionParts(p: int, step: int, t: int)
    requires IsStep(step) && 0 <= t < step && 0 <= p < L_CODE / step
    ensures TrackPosition(p, step, t) % step == t && TrackPosition(p, step, t) / step == p
  {
    if step == 4 {} else {}
  }

  lemma CountPrefix(ps: seq<int>, k: nat, step: int, t: int)
    requires IsStep(step) && k <= |ps|
    ensures TrackCount(ps[..k], step, t) <= TrackCount(ps, step, t)
  {
    assert ps == ps[..k] + ps[k..];
    CountAppend(ps[..k], ps[k..], step, t);
  }

  /** With at most two pulses on the track, the pair holds exactly the code vector. */
  lemma {:induction false} PairMeaning(ps: seq<int>, sign: seq<real>, amp: real, step: int, t: int, p: int)
    requires |sign| == L_CODE && ArePositions(ps) && IsStep(step) && 0 <= t < step
    requires TrackCount(ps, step, t) <= 2 && 0 <= p < L_CODE / step
    ensures var q := PairOf(ps, sign, step, t);
            && Consistent(q, sign, step, t)
            && (TrackCount(ps, step, t) == match q case Empty => 0 case One(_, _) => 1 case Two(_, _, _) => 2)
            && CodeAt(ps, sign, amp, TrackPosition(p, step, t)) == DecodeAt(q, amp, p)
  {
    hide IsStep, TrackPosition;
    if ps == [] {
    } else {
      var front, x := ps[..|ps| - 1], ps[|ps| - 1];
      PairMeaning(front, sign, amp, step, t, p);
      PositionParts(x, step);
      TrackPositionParts(p, step, t);
    }
  }

  /** With exactly two pulses on every track, the pairs of all tracks decode to the code vector. */
  lemma TwoPulsesDecode(ps: seq<int>, sign: seq<real>, amp: real, step: int, x: int)
    requires |sign| == L_CODE && IsStep(step) && TwoPerTrack(ps, step) && IsPosition(x)
    ensures 0 <= x % step < step
    ensures var q := PairOf(ps, sign, step, x % step);
            q.Two? && Consistent(q, sign, step, x % step) && DecodeAt(q, amp, x / step) == CodeAt(ps, sign, amp, x)
  {
    hide CodeAt, DecodeAt, PairOf, IsStep, TrackPosition;
    PositionParts(x, step);
    PairMeaning(ps, sign, amp, step, x % step, x / step);
  }

  // ---------- The filtered code vector ----------

  /** The sign of each position as the builders read it. */
  function Units(sign: seq<real>): (u: seq<real>)
    requires |sign| == L_CODE
    ensures |u| == L_CODE && forall p :: 0 <= p < L_CODE ==> u[p] == if IsPositive(sign, p) then 1.0 else -1.0
  {
    seq(L_CODE, p requires 0 <= p < L_CODE => if IsPositive(sign, p) then 1.0 else -1.0)
  }

  function Vector(ps: seq<int>, sign: seq<real>, amp: real): (cod: seq<real>)
    requires |sign| == L_CODE && ArePositions(ps)
    ensures CodeVector(ps, sign, amp, cod)
  {
    seq(L_CODE, x requires 0 <= x < L_CODE => CodeAt(ps, sign, amp, x))
  }

  lemma VectorUnique(ps: seq<int>, sign: seq<real>, amp: real, cod: seq<real>)
    requires |sign| == L_CODE && ArePositions(ps) && CodeVector(ps, sign, amp, cod)
    ensures cod == Vector(ps, sign, amp)
  {}

  /** The pulses behind a filter are the code vector behind it, but for the amplitude. */
  lemma {:induction false} FilteredVector(ps: seq<int>, sign: seq<real>, amp: real, h: seq<real>, n: nat)
    requires |sign| == |h| == L_CODE && ArePositions(ps) && n < L_CODE
    ensures amp * Filtered(h, Units(sign), ps)[n] == Conv(Vector(ps, sign, amp), h, n)
  {
    hide Units, Vector, CodeAt, ConvUpTo, Echo, Filtered, Amplitude;
    if ps == [] {
      NothingIn(sign, amp);
      Unfiltered(h, Units(sign), n);
      SilentVector(Vector([], sign, amp), h, n, n + 1);
    } else {
      var front, x := ps[..|ps| - 1], ps[|ps| - 1];
      var was := Vector(front, sign, amp);
      FilteredVector(front, sign, amp, h, n);
      VectorGrows(ps, sign, amp);
      PulseHeard(was, h, x, Amplitude(sign, amp, x), n);
      var f, unit, e := Filtered(h, Units(sign), front), Units(sign)[x], Echo(h, x);
      FilteredLast(h, Units(sign), ps, n, f, unit, e);
      UnitOf(sign, amp, x);
      EchoTerm(amp, unit, Amplitude(sign, amp, x), f[n], e[n]);
    }
  }

  lemma NothingIn(sign: seq<real>, amp: real)
    requires |sign| == L_CODE
    ensures forall x :: 0 <= x < L_CODE ==> Vector([], sign, amp)[x] == 0.0
    ensures amp * 0.0 == 0.0
  {}

  lemma VectorGrows(ps: seq<int>, sign: seq<real>, amp: real)
    requires |sign| == L_CODE && ArePositions(ps) && ps != []
    ensures var x := ps[|ps| - 1]; var was := Vector(ps[..|ps| - 1], sign, amp);
            Vector(ps, sign, amp) == was[x := was[x] + Amplitude(sign, amp, x)]
  {}

  lemma UnitOf(sign: seq<real>, amp: real, x: int)
    requires |sign| == L_CODE && IsPosition(x)
    ensures (Units(sign)[x] == 1.0 && Amplitude(sign, amp, x) == amp) ||
            (Units(sign)[x] == -1.0 && Amplitude(sign, amp, x) == -amp)
  {}

  lemma FilteredLast(h: seq<real>, units: seq<real>, ps: seq<int>, n: nat, f: seq<real>, unit: real, e: seq<real>)
    requires |h| == |units| == L_CODE && ArePositions(ps) && ps != [] && n < L_CODE
    requires f == Filtered(h, units, ps[..|ps| - 1]) && unit == units[ps[|ps| - 1]] && e == Echo(h, ps[|ps| - 1])
    ensures Filtered(h, units, ps)[n] == f[n] + unit * e[n]
  {
    hide *;
    FilteredIs(h, units, ps);
    PlusAt(f, unit, e, n);
  }

  lemma FilteredIs(h: seq<real>, units: seq<real>, ps: seq<int>)
    requires |h| == |units| == L_CODE && ArePositions(ps) && ps != []
    ensures var x := ps[|ps| - 1];
            IsPosition(x) && ArePositions(ps[..|ps| - 1]) &&
            Filtered(h, units, ps) == Plus(Filtered(h, units, ps[..|ps| - 1]), units[x], Echo(h, x))
  {
    hide Echo, Plus;
  }

  lemma PlusAt(a: seq<real>, s: real, b: seq<real>, n: nat)
    requires |a| == |b| && n < |a|
    ensures Plus(a, s, b)[n] == a[n] + s * b[n]
  {}

  lemma EchoTerm(amp: real, unit: real, amplitude: real, f: real, e: real)
    requires (unit == 1.0 && amplitude == amp) || (unit == -1.0 && amplitude == -amp)
    ensures amp * (f + unit * e) == amp * f + amplitude * e
  {}

  /** The end of the two builders: the pulses, with their signs, through the impulse response. Before
      its first sample the response is zero. */
  method FilterPulses(codvec: seq<int>, units: seq<real>, pulse: array<real>, h: array<real>, y: array<real>)
    requires ArePositions(codvec) && |units| == h.Length == y.Length == L_CODE && pulse.Length == |codvec|
    requires forall k :: 0 <= k < |codvec| ==> pulse[k] == units[codvec[k]]
    requires y !in {h, pulse}
    modifies y
    ensures y[..] == Filtered(h[..], units, codvec)
  {
    hide Filtered, Echo;
    ghost var response := h[..];
    var i := 0;
    while i < L_CODE
      invariant 0 <= i <= L_CODE && h[..] == response
      invariant forall k :: 0 <= k < |codvec| ==> pulse[k] == units[codvec[k]]
      invariant forall n :: 0 <= n < i ==> y[n] == Filtered(response, units, codvec)[n]
    {
      var s := 0.0;
      var k := 0;
      Unfiltered(response, units, i);
      assert codvec[..0] == [];
      while k < |codvec|
        invariant 0 <= k <= |codvec| && s == Filtered(response, units, codvec[..k])[i]
        invariant forall n :: 0 <= n < i ==> y[n] == Filtered(response, units, codvec)[n]
      {
        FilteredNext(response, units, codvec, k, i);
        if codvec[k] <= i {
          s := s + h[i - codvec[k]] * pulse[k];
        }
        k := k + 1;
      }
      assert codvec[..k] == codvec;
      assert s == Filtered(response, units, codvec)[i];
      y[i] := s;
      i := i + 1;
    }
  }

  lemma Unfiltered(h: seq<real>, units: seq<real>, n: nat)
    requires |h| == |units| == L_CODE && n < L_CODE
    ensures Filtered(h, units, [])[n] == 0.0
  {}

  lemma EchoOf(unit: real, h: seq<real>, p: int, n: nat)
    requires |h| == L_CODE && IsPosition(p) && n < L_CODE
    ensures unit * Echo(h, p)[n] == if p <= n then h[n - p] * unit else 0.0
  {
    hide Echo;
    EchoAt(h, p, n);
  }

  lemma FilteredNext(h: seq<real>, units: seq<real>, ps: seq<int>, k: nat, n: nat)
    requires |h| == |units| == L_CODE && ArePositions(ps) && k < |ps| && n < L_CODE
    ensures Filtered(h, units, ps[..k + 1])[n] ==
            Filtered(h, units, ps[..k])[n] + if ps[k] <= n then h[n - ps[k]] * units[ps[k]] else 0.0
  {
    hide Filtered, Echo;
    assert ps[..k + 1][..k] == ps[..k];
    var f, unit, e := Filtered(h, units, ps[..k]), units[ps[k]], Echo(h, ps[k]);
    FilteredLast(h, units, ps[..k + 1], n, f, unit, e);
    EchoOf(unit, h, ps[k], n);
  }

  // ---------- Ten pulses, 35 bits ----------

  const NB_TRACK := 5

  /** The index pair of a track, bit 3 carrying the sign of the pulse it belongs to. */
  ghost predicate Coded10(q: Pair, i0: int, i1: int) {
    match q
    case Empty => i0 == -1
    case One(s, p0) => 0 <= s <= 1 && 0 <= p0 < 8 && i0 == p0 + 8 * s
    case Two(s, p0, p1) => 0 <= s <= 1 && 0 <= p0 < 8 && 0 <= p1 < 8 && i0 == p0 + 8 * s && 0 <= i1 < 16 && i1 % 8 == p1
  }

  /** ((x ^ y) & 8) == 0, on four-bit indices. */
  predicate SameSign(x: int, y: int) {
    x / 8 % 2 == y / 8 % 2
  }

  ghost predicate Indices10(ps: seq<int>, sign: seq<real>, indx: seq<int>)
    requires |sign| == L_CODE && ArePositions(ps) && |indx| == 10
  {
    forall t :: 0 <= t < NB_TRACK ==> Coded10(PairOf(ps, sign, NB_TRACK, t), indx[t], indx[t + NB_TRACK])
  }

  ghost predicate CodeVector(ps: seq<int>, sign: seq<real>, amp: real, cod: seq<real>)
    requires |sign| == L_CODE && ArePositions(ps)
  {
    |cod| == L_CODE && forall x :: 0 <= x < L_CODE ==> cod[x] == CodeAt(ps, sign, amp, x)
  }

  lemma NextPulse(codvec: seq<int>, k: nat, sign: seq<real>, amp: real, cod: seq<real>)
    requires |sign| == L_CODE && ArePositions(codvec) && k < |codvec| && CodeVector(codvec[..k], sign, amp, cod)
    ensures var i := codvec[k];
            CodeVector(codvec[..k + 1], sign, amp, cod[i := cod[i] + Amplitude(sign, amp, i)])
  {
    assert codvec[..k + 1][..k] == codvec[..k];
  }

  /** Writing the indices of a track, as the branches of the loop do. */
  lemma NextIndices(codvec: seq<int>, k: nat, sign: seq<real>, indx: seq<int>, indx': seq<int>)
    requires |sign| == L_CODE && TwoPerTrack(codvec, NB_TRACK) && k < |codvec| && |indx| == |indx'| == 10
    requires Indices10(codvec[..k], sign, indx)
    requires var i := codvec[k];
             var t := i % NB_TRACK;
             && (forall u :: 0 <= u < 10 && u != t && u != t + NB_TRACK ==> indx'[u] == indx[u])
             && Coded10(AddPulse(PairOf(codvec[..k], sign, NB_TRACK, t), SignBit(sign, i), i / NB_TRACK),
                        indx'[t], indx'[t + NB_TRACK])
    ensures Indices10(codvec[..k + 1], sign, indx')
  {
    hide Coded10, AddPulse;
    assert codvec[..k + 1][..k] == codvec[..k];
  }

  /** Before the last pulse of a track is read, at most one has been. */
  lemma NotFull(codvec: seq<int>, k: nat, sign: seq<real>, step: int)
    requires |sign| == L_CODE && IsStep(step) && TwoPerTrack(codvec, step) && k < |codvec|
    ensures 0 <= codvec[k] % step < step
    ensures !PairOf(codvec[..k], sign, step, codvec[k] % step).Two?
    ensures Consistent(PairOf(codvec[..k], sign, step, codvec[k] % step), sign, step, codvec[k] % step)
  {
    hide IsStep;
    var t := codvec[k] % step;
    PositionParts(codvec[k], step);
    CountPrefix(codvec, k + 1, step, t);
    assert codvec[..k + 1][..k] == codvec[..k];
    PairMeaning(codvec[..k], sign, 0.0, step, t, codvec[k] / step);
  }

  /** The branches that store the index of a pulse: first of its track, or in its place beside
      the first. */
  method StoreIndex(indx: array<int>, track: int, index: int, ghost q: Pair, ghost s: int, ghost p: int)
    requires indx.Length == 10 && 0 <= track < NB_TRACK
    requires 0 <= s <= 1 && 0 <= p < 8 && index == p + 8 * s
    requires !q.Two? && Coded10(q, indx[track], indx[track + 5])
    modifies indx
    ensures Coded10(AddPulse(q, s, p), indx[track], indx[track + 5])
    ensures forall u :: 0 <= u < 10 && u != track && u != track + 5 ==> indx[u] == old(indx[u])
  {
    if indx[track] < 0 {
      indx[track] := index;
    } else if SameSign(index, indx[track]) {
      if indx[track] <= index {
        indx[track + 5] := index;
      } else {
        indx[track + 5] := indx[track];
        indx[track] := index;
      }
    } else {
      if indx[track] % 8 <= index % 8 {
        indx[track + 5] := indx[track];
        indx[track] := index;
      } else {
        indx[track + 5] := index;
      }
    }
  }

  /** build_code_10i40_35bits. */
  method BuildCode10(codvec: seq<int>, sign: seq<real>, h: array<real>, cod: array<real>, y: array<real>,
                     indx: array<int>)
    requires |sign| == L_CODE && TwoPerTrack(codvec, NB_TRACK)
    requires h.Length == cod.Length == y.Length == L_CODE && indx.Length == 10 && cod as object != indx
    requires h != cod && h != y && cod != y
    modifies cod, y, indx
    ensures CodeVector(codvec, sign, 1.0, cod[..])
    ensures Indices10(codvec, sign, indx[..])
    ensures y[..] == Filtered(h[..], Units(sign), codvec)
  {
    hide CodeVector, Indices10, Filtered;
    var pulse := new real[10];
    PlaceIndices10(codvec, sign, cod, indx, pulse);
    FilterPulses(codvec, Units(sign), pulse, h, y);
  }

  /** Its pulse loop. */
  method PlaceIndices10(codvec: seq<int>, sign: seq<real>, cod: array<real>, indx: array<int>, pulse: array<real>)
    requires |sign| == L_CODE && TwoPerTrack(codvec, NB_TRACK)
    requires cod.Length == L_CODE && indx.Length == 10 && cod as object != indx && pulse.Length == 10
    requires pulse != cod && pulse as object != indx
    modifies cod, indx, pulse
    ensures CodeVector(codvec, sign, 1.0, cod[..])
    ensures Indices10(codvec, sign, indx[..])
    ensures forall k :: 0 <= k < 10 ==> pulse[k] == Units(sign)[codvec[k]]
  {
    hide PairOf, CodeVector, Indices10, Coded10, AddPulse;
    Clear(cod);
    var i := 0;
    while i < NB_TRACK
      invariant 0 <= i <= NB_TRACK
      invariant forall t :: 0 <= t < i ==> indx[t] == -1
      invariant forall x :: 0 <= x < L_CODE ==> cod[x] == 0.0
    {
      indx[i] := -1;
      i := i + 1;
    }
    NothingCoded(sign, cod[..], indx[..]);
    assert codvec[..0] == [];
    var k := 0;
    while k < 10
      invariant 0 <= k <= 10
      invariant CodeVector(codvec[..k], sign, 1.0, cod[..]) && Indices10(codvec[..k], sign, indx[..])
      invariant forall q :: 0 <= q < k ==> pulse[q] == Units(sign)[codvec[q]]
    {
      var i := codvec[k];
      NotFull(codvec, k, sign, NB_TRACK);
      ghost var cod0, indx0 := cod[..], indx[..];
      NextPulse(codvec, k, sign, 1.0, cod0);
      var index := i / 5;
      var track := i % 5;
      IndicesAt(codvec[..k], sign, indx0, track);
      if IsPositive(sign, i) {
        cod[i] := cod[i] + 1.0;
        pulse[k] := 1.0;
      } else {
        cod[i] := cod[i] - 1.0;
        pulse[k] := -1.0;
        index := index + 8;
      }
      assert cod[..] == cod0[i := cod0[i] + Amplitude(sign, 1.0, i)];
      StoreIndex(indx, track, index, PairOf(codvec[..k], sign, NB_TRACK, track), SignBit(sign, i), i / 5);
      NextIndices(codvec, k, sign, indx0, indx[..]);
      k := k + 1;
    }
    assert codvec[..k] == codvec;
  }

  lemma IndicesAt(ps: seq<int>, sign: seq<real>, indx: seq<int>, t: int)
    requires |sign| == L_CODE && ArePositions(ps) && |indx| == 10 && 0 <= t < NB_TRACK && Indices10(ps, sign, indx)
    ensures Coded10(PairOf(ps, sign, NB_TRACK, t), indx[t], indx[t + NB_TRACK])
  {}

  lemma NothingCoded(sign: seq<real>, cod: seq<real>, indx: seq<int>)
    requires |sign| == L_CODE && |cod| == L_CODE && |indx| == 10
    requires forall x :: 0 <= x < L_CODE ==> cod[x] == 0.0
    requires forall t :: 0 <= t < NB_TRACK ==> indx[t] == -1
    ensures CodeVector([], sign, 1.0, cod) && Indices10([], sign, indx)
  {}

  method Clear(cod: array<real>)
    modifies cod
    ensures forall x :: 0 <= x < cod.Length ==> cod[x] == 0.0
  {
    var i := 0;
    while i < cod.Length
      invariant 0 <= i <= cod.Length
      invariant forall x :: 0 <= x < i ==> cod[x] == 0.0
    {
      cod[i] := 0.0;
      i := i + 1;
    }
  }

  /** The Gray table: a permutation of 0 to 7. */
  ghost predicate IsGray(gray: seq<int>) {
    && |gray| == 8
    && (forall j :: 0 <= j < 8 ==> 0 <= gray[j] < 8)
    && (forall j, j' :: 0 <= j < j' < 8 ==> gray[j] != gray[j'])
  }

  /** The function q_p: the first five indices keep their sign bit, the others lose it. */
  function QP(gray: seq<int>, ind: int, n: int): int
    requires |gray| == 8
  {
    if n < 5 then ind / 8 % 2 * 8 + gray[ind % 8] else gray[ind % 8]
  }

  ghost predicate InTable(gray: seq<int>, v: int)
    requires |gray| == 8
  {
    exists j :: 0 <= j < 8 && gray[j] == v
  }

  /** The inverse of the Gray table. */
  ghost function Ungray(gray: seq<int>, v: int): (j: int)
    requires IsGray(gray) && InTable(gray, v)
    ensures 0 <= j < 8 && gray[j] == v
  {
    var j :| 0 <= j < 8 && gray[j] == v;
    j
  }

  lemma UngrayGray(gray: seq<int>, j: int)
    requires IsGray(gray) && 0 <= j < 8
    ensures InTable(gray, gray[j]) && Ungray(gray, gray[j]) == j
  {}

  /** The loop that Gray-codes the ten indices. */
  method GrayCode(gray: seq<int>, anap: array<int>)
    requires |gray| == 8 && anap.Length == 10
    modifies anap
    ensures forall i :: 0 <= i < 10 ==> anap[i] == QP(gray, old(anap[i]), i)
  {
    hide QP;
    var i := 0;
    while i < 10
      invariant 0 <= i <= 10
      invariant forall k :: 0 <= k < i ==> anap[k] == QP(gray, old(anap[k]), k)
      invariant forall k :: i <= k < 10 ==> anap[k] == old(anap[k])
    {
      anap[i] := QP(gray, anap[i], i);
      i := i + 1;
    }
  }

  /** Ten indices of 4 and 3 bits, 35 in all, whose position parts are Gray codes. */
  ghost predicate WellFormed10(gray: seq<int>, anap: seq<int>)
    requires |gray| == 8 && |anap| == 10
  {
    && (forall t :: 0 <= t < 5 ==> 0 <= anap[t] < 16 && InTable(gray, anap[t] % 8))
    && (forall t :: 5 <= t < 10 ==> 0 <= anap[t] < 8 && InTable(gray, anap[t]))
  }

  /** What a decoder reconstructs at position `x` from the ten indices. */
  ghost function Decode10(gray: seq<int>, anap: seq<int>, x: int): real
    requires IsGray(gray) && |anap| == 10 && IsPosition(x) && WellFormed10(gray, anap)
  {
    var t := x % NB_TRACK;
    DecodeAt(Two(anap[t] / 8, Ungray(gray, anap[t] % 8), Ungray(gray, anap[t + NB_TRACK])), 1.0, x / NB_TRACK)
  }

  /** Ten pulses, two per track: the indices are well formed, and decode to the code vector
      that was built. */
  lemma RoundTrip10(gray: seq<int>, codvec: seq<int>, sign: seq<real>, indx: seq<int>, anap: seq<int>, cod: seq<real>)
    requires IsGray(gray) && |sign| == L_CODE && TwoPerTrack(codvec, NB_TRACK) && |indx| == |anap| == 10
    requires CodeVector(codvec, sign, 1.0, cod) && Indices10(codvec, sign, indx)
    requires forall i :: 0 <= i < 10 ==> anap[i] == QP(gray, indx[i], i)
    ensures WellFormed10(gray, anap)
    ensures forall x :: 0 <= x < L_CODE ==> Decode10(gray, anap, x) == cod[x]
  {
    hide PairOf, CodeAt, DecodeAt, Consistent, Indices10, Decode10, QP, InTable;
    forall t | 0 <= t < 5
      ensures 0 <= anap[t] < 16 && InTable(gray, anap[t] % 8)
    {
      GrayTrack(gray, codvec, sign, indx, anap, t);
    }
    forall t | 5 <= t < 10
      ensures 0 <= anap[t] < 8 && InTable(gray, anap[t])
    {
      GrayTrack(gray, codvec, sign, indx, anap, t - 5);
    }
    forall x | 0 <= x < L_CODE
      ensures Decode10(gray, anap, x) == cod[x]
    {
      Decode10At(gray, codvec, sign, indx, anap, x);
    }
  }

  lemma Decode10At(gray: seq<int>, codvec: seq<int>, sign: seq<real>, indx: seq<int>, anap: seq<int>, x: int)
    requires IsGray(gray) && |sign| == L_CODE && TwoPerTrack(codvec, NB_TRACK) && |indx| == |anap| == 10
    requires Indices10(codvec, sign, indx) && IsPosition(x) && WellFormed10(gray, anap)
    requires forall i :: 0 <= i < 10 ==> anap[i] == QP(gray, indx[i], i)
    ensures Decode10(gray, anap, x) == CodeAt(codvec, sign, 1.0, x)
  {
    hide PairOf, CodeAt, DecodeAt, Consistent, Indices10, QP, InTable;
    TwoPulsesDecode(codvec, sign, 1.0, NB_TRACK, x);
    GrayTrack(gray, codvec, sign, indx, anap, x % NB_TRACK);
  }

  lemma GrayTrack(gray: seq<int>, codvec: seq<int>, sign: seq<real>, indx: seq<int>, anap: seq<int>, t: int)
    requires IsGray(gray) && |sign| == L_CODE && TwoPerTrack(codvec, NB_TRACK) && |indx| == |anap| == 10
    requires Indices10(codvec, sign, indx) && 0 <= t < NB_TRACK
    requires forall i :: 0 <= i < 10 ==> anap[i] == QP(gray, indx[i], i)
    ensures 0 <= anap[t] < 16 && InTable(gray, anap[t] % 8)
    ensures 0 <= anap[t + NB_TRACK] < 8 && InTable(gray, anap[t + NB_TRACK])
    ensures PairOf(codvec, sign, NB_TRACK, t) ==
            Two(anap[t] / 8, Ungray(gray, anap[t] % 8), Ungray(gray, anap[t + NB_TRACK]))
  {
    hide PairOf, CodeAt, DecodeAt, Ungray, InTable;
    TwoPulsesDecode(codvec, sign, 1.0, NB_TRACK, t);
    IndicesAt(codvec, sign, indx, t);
    GrayIndex(gray, indx[t], t);
    UngrayGray(gray, indx[t] % 8);
    UngrayGray(gray, indx[t + NB_TRACK] % 8);
  }

  lemma GrayIndex(gray: seq<int>, i: int, t: int)
    requires IsGray(gray) && 0 <= i < 16 && 0 <= t < 5
    ensures 0 <= QP(gray, i, t) < 16 && QP(gray, i, t) % 8 == gray[i % 8] && QP(gray, i, t) / 8 == i / 8
  {}

  // ---------- Eight pulses, 31 bits ----------

  const NB_TRACK_MR102 := 4
  const AMPLITUDE_MR102 := 0.99987792968750

  /** The sign index and the two position indices of a track. */
  ghost predicate Coded8(q: Pair, sgn: int, i0: int, i1: int) {
    match q
    case Empty => i0 == -1
    case One(s, p0) => 0 <= s <= 1 && 0 <= p0 < 10 && sgn == s && i0 == p0
    case Two(s, p0, p1) => 0 <= s <= 1 && 0 <= p0 < 10 && 0 <= p1 < 10 && sgn == s && i0 == p0 && i1 == p1
  }

  ghost predicate Indices8(ps: seq<int>, sign: seq<real>, sgn: seq<int>, pos: seq<int>)
    requires |sign| == L_CODE && ArePositions(ps) && |sgn| == 4 && |pos| == 8
  {
    forall t :: 0 <= t < NB_TRACK_MR102 ==>
      Coded8(PairOf(ps, sign, NB_TRACK_MR102, t), sgn[t], pos[t], pos[t + NB_TRACK_MR102])
  }

  lemma IndicesAt8(ps: seq<int>, sign: seq<real>, sgn: seq<int>, pos: seq<int>, t: int)
    requires |sign| == L_CODE && ArePositions(ps) && |sgn| == 4 && |pos| == 8 && 0 <= t < NB_TRACK_MR102
    requires Indices8(ps, sign, sgn, pos)
    ensures Coded8(PairOf(ps, sign, NB_TRACK_MR102, t), sgn[t], pos[t], pos[t + NB_TRACK_MR102])
  {}

  lemma NextIndices8(codvec: seq<int>, k: nat, sign: seq<real>, sgn: seq<int>, pos: seq<int>, sgn': seq<int>,
                     pos': seq<int>)
    requires |sign| == L_CODE && TwoPerTrack(codvec, NB_TRACK_MR102) && k < |codvec|
    requires |sgn| == |sgn'| == 4 && |pos| == |pos'| == 8
    requires Indices8(codvec[..k], sign, sgn, pos)
    requires var i := codvec[k];
             var t := i % NB_TRACK_MR102;
             && (forall u :: 0 <= u < 4 && u != t ==> sgn'[u] == sgn[u])
             && (forall u :: 0 <= u < 8 && u != t && u != t + NB_TRACK_MR102 ==> pos'[u] == pos[u])
             && Coded8(AddPulse(PairOf(codvec[..k], sign, NB_TRACK_MR102, t), SignBit(sign, i), i / NB_TRACK_MR102),
                       sgn'[t], pos'[t], pos'[t + NB_TRACK_MR102])
    ensures Indices8(codvec[..k + 1], sign, sgn', pos')
  {
    hide Coded8, AddPulse;
    assert codvec[..k + 1][..k] == codvec[..k];
  }

  method StorePulse(sgn: array<int>, pos: array<int>, track: int, signIndex: int, posIndex: int, ghost q: Pair)
    requires sgn.Length == 4 && pos.Length == 8 && sgn != pos && 0 <= track < NB_TRACK_MR102
    requires 0 <= signIndex <= 1 && 0 <= posIndex < 10
    requires !q.Two? && Coded8(q, sgn[track], pos[track], pos[track + 4])
    modifies sgn, pos
    ensures Coded8(AddPulse(q, signIndex, posIndex), sgn[track], pos[track], pos[track + 4])
    ensures forall u :: 0 <= u < 4 && u != track ==> sgn[u] == old(sgn[u])
    ensures forall u :: 0 <= u < 8 && u != track && u != track + 4 ==> pos[u] == old(pos[u])
  {
    if pos[track] < 0 {
      pos[track] := posIndex;
      sgn[track] := signIndex;
    } else if signIndex == sgn[track] {
      if pos[track] <= posIndex {
        pos[track + 4] := posIndex;
      } else {
        pos[track + 4] := pos[track];
        pos[track] := posIndex;
        sgn[track] := signIndex;
      }
    } else {
      if pos[track] <= posIndex {
        pos[track + 4] := pos[track];
        pos[track] := posIndex;
        sgn[track] := signIndex;
      } else {
        pos[track + 4] := posIndex;
      }
    }
  }

  /** build_code_8i40_31bits. */
  method BuildCode8(codvec: seq<int>, sign: seq<real>, h: array<real>, cod: array<real>, y: array<real>,
                    sgn: array<int>, pos: array<int>)
    requires |sign| == L_CODE && TwoPerTrack(codvec, NB_TRACK_MR102)
    requires h.Length == cod.Length == y.Length == L_CODE && h != cod && h != y && cod != y
    requires sgn.Length == 4 && pos.Length == 8 && sgn != pos && cod as object !in {sgn, pos}
    modifies cod, y, sgn, pos
    ensures CodeVector(codvec, sign, AMPLITUDE_MR102, cod[..])
    ensures Indices8(codvec, sign, sgn[..], pos[..])
    ensures y[..] == Filtered(h[..], Units(sign), codvec)
  {
    hide CodeVector, Indices8, Filtered;
    var pulse := new real[8];
    PlaceIndices8(codvec, sign, cod, sgn, pos, pulse);
    FilterPulses(codvec, Units(sign), pulse, h, y);
  }

  /** Its pulse loop. */
  method PlaceIndices8(codvec: seq<int>, sign: seq<real>, cod: array<real>, sgn: array<int>, pos: array<int>,
                       pulse: array<real>)
    requires |sign| == L_CODE && TwoPerTrack(codvec, NB_TRACK_MR102)
    requires cod.Length == L_CODE && sgn.Length == 4 && pos.Length == 8 && sgn != pos && cod as object !in {sgn, pos}
    requires pulse.Length == 8 && pulse != cod && pulse as object !in {sgn, pos}
    modifies cod, sgn, pos, pulse
    ensures CodeVector(codvec, sign, AMPLITUDE_MR102, cod[..])
    ensures Indices8(codvec, sign, sgn[..], pos[..])
    ensures forall k :: 0 <= k < 8 ==> pulse[k] == Units(sign)[codvec[k]]
  {
    hide PairOf, CodeVector, Indices8, Coded8, AddPulse;
    Clear(cod);
    var i := 0;
    while i < NB_TRACK_MR102
      invariant 0 <= i <= NB_TRACK_MR102
      invariant forall t :: 0 <= t < i ==> pos[t] == -1
      invariant forall x :: 0 <= x < L_CODE ==> cod[x] == 0.0
    {
      pos[i] := -1;
      sgn[i] := -1;
      i := i + 1;
    }
    NothingCoded8(sign, cod[..], sgn[..], pos[..]);
    assert codvec[..0] == [];
    var k := 0;
    while k < 8
      invariant 0 <= k <= 8
      invariant CodeVector(codvec[..k], sign, AMPLITUDE_MR102, cod[..])
      invariant Indices8(codvec[..k], sign, sgn[..], pos[..])
      invariant forall q :: 0 <= q < k ==> pulse[q] == Units(sign)[codvec[q]]
    {
      var i := codvec[k];
      NotFull(codvec, k, sign, NB_TRACK_MR102);
      ghost var cod0, sgn0, pos0 := cod[..], sgn[..], pos[..];
      NextPulse(codvec, k, sign, AMPLITUDE_MR102, cod0);
      var posIndex := i / 4;
      var track := i % 4;
      IndicesAt8(codvec[..k], sign, sgn0, pos0, track);
      var signIndex;
      if IsPositive(sign, i) {
        cod[i] := cod[i] + AMPLITUDE_MR102;
        pulse[k] := 1.0;
        signIndex := 0;
      } else {
        cod[i] := cod[i] - AMPLITUDE_MR102;
        pulse[k] := -1.0;
        signIndex := 1;
      }
      assert cod[..] == cod0[i := cod0[i] + Amplitude(sign, AMPLITUDE_MR102, i)];
      StorePulse(sgn, pos, track, signIndex, posIndex, PairOf(codvec[..k], sign, NB_TRACK_MR102, track));
      NextIndices8(codvec, k, sign, sgn0, pos0, sgn[..], pos[..]);
      k := k + 1;
    }
    assert codvec[..k] == codvec;
  }

  lemma NothingCoded8(sign: seq<real>, cod: seq<real>, sgn: seq<int>, pos: seq<int>)
    requires |sign| == L_CODE && |cod| == L_CODE && |sgn| == 4 && |pos| == 8
    requires forall x :: 0 <= x < L_CODE ==> cod[x] == 0.0
    requires forall t :: 0 <= t < NB_TRACK_MR102 ==> pos[t] == -1
    ensures CodeVector([], sign, AMPLITUDE_MR102, cod) && Indices8([], sign, sgn, pos)
  {}

  // ---------- compress_code ----------

  predicate IsDigit(x: int) {
    0 <= x < 10
  }

  /** Three digits to base 5, and three bits. */
  function Fives(x: int, y: int, z: int): int {
    x + (y * 5 + z * 25)
  }

  function SplitFives(hi: int): (int, int, int) {
    (hi % 5, hi / 5 % 5, hi / 25)
  }

  function Bits(x: int, y: int, z: int): int {
    x + (y * 2 + z * 4)
  }

  function SplitBits(lo: int): (int, int, int) {
    (lo % 2, lo / 2 % 2, lo / 4)
  }

  /** compress10: three positions in ten bits, their low bits apart. */
  function Compress10(a: int, b: int, c: int): int {
    Fives(a / 2, b / 2, c / 2) * 8 + Bits(a % 2, b % 2, c % 2)
  }

  function Expand10(x: int): (int, int, int) {
    var hi, lo := SplitFives(x / 8), SplitBits(x % 8);
    (hi.0 * 2 + lo.0, hi.1 * 2 + lo.1, hi.2 * 2 + lo.2)
  }

  lemma Halves(a: int)
    requires IsDigit(a)
    ensures 0 <= a / 2 < 5 && 0 <= a % 2 < 2 && a == a / 2 * 2 + a % 2
  {}

  lemma FivesUnique(x: int, y: int, z: int)
    requires 0 <= x < 5 && 0 <= y < 5 && 0 <= z < 5
    ensures 0 <= Fives(x, y, z) < 125 && SplitFives(Fives(x, y, z)) == (x, y, z)
  {
    DivModUnique(y + z * 5, x, 5, Fives(x, y, z));
    DivModUnique(z, y, 5, y + z * 5);
    DivModUnique(z, x + y * 5, 25, Fives(x, y, z));
  }

  lemma BitsUnique(x: int, y: int, z: int)
    requires 0 <= x < 2 && 0 <= y < 2 && 0 <= z < 2
    ensures 0 <= Bits(x, y, z) < 8 && SplitBits(Bits(x, y, z)) == (x, y, z)
  {
    assert Bits(x, y, z) / 2 == y + z * 2;
    assert Bits(x, y, z) / 4 == z;
  }

  lemma Octet(hi: int, lo: int)
    requires 0 <= lo < 8
    ensures (hi * 8 + lo) / 8 == hi && (hi * 8 + lo) % 8 == lo
  {}

  lemma Compress10Unique(a: int, b: int, c: int)
    requires IsDigit(a) && IsDigit(b) && IsDigit(c)
    ensures 0 <= Compress10(a, b, c) < 1024
    ensures Expand10(Compress10(a, b, c)) == (a, b, c)
  {
    hide Fives, SplitFives, Bits, SplitBits;
    Halves(a);
    Halves(b);
    Halves(c);
    FivesUnique(a / 2, b / 2, c / 2);
    BitsUnique(a % 2, b % 2, c % 2);
    Octet(Fives(a / 2, b / 2, c / 2), Bits(a % 2, b % 2, c % 2));
  }

  /** The multiply-and-shift of the third index: division by 25 on all values that occur. */
  lemma MultiplyShift(v: int)
    requires 0 <= v <= 24
    ensures (v * 32 + 12) * 1311 / 32768 == (v * 32 + 12) / 25
  {}

  /** Two positions in seven bits. The halves are numbered serpentine-wise, so that neighbouring
      codes are neighbouring positions. */
  function Compress7(a: int, b: int): int {
    var ia := if b / 2 % 2 == 1 then 4 - a / 2 else a / 2;
    (((ia + b / 2 * 5) * 32 + 12) * 1311 / 32768) * 4 + (a % 2 + b % 2 * 2)
  }

  function Expand7(x: int): (int, int) {
    var v := (x / 4 * 25 + 12) / 32;
    var b2 := v / 5;
    var a2 := if b2 % 2 == 1 then 4 - v % 5 else v % 5;
    (a2 * 2 + x % 2, b2 * 2 + x / 2 % 2)
  }

  /** The 25 values of v spread over the 32 codes, and back. */
  lemma Spread(v: int)
    requires 0 <= v <= 24
    ensures var y := (v * 32 + 12) * 1311 / 32768; 0 <= y < 32 && (y * 25 + 12) / 32 == v
  {
    MultiplyShift(v);
    var y := (v * 32 + 12) / 25;
    var r := (v * 32 + 12) % 25;
    assert y * 25 + r == v * 32 + 12;
  }

  lemma Quartet(hi: int, x: int, y: int)
    requires 0 <= x < 2 && 0 <= y < 2
    ensures var c := hi * 4 + (x + y * 2); c / 4 == hi && c % 2 == x && c / 2 % 2 == y
  {
    var c := hi * 4 + (x + y * 2);
    assert c / 2 == hi * 2 + y;
  }

  lemma Compress7Unique(a: int, b: int)
    requires IsDigit(a) && IsDigit(b)
    ensures 0 <= Compress7(a, b) < 128
    ensures Expand7(Compress7(a, b)) == (a, b)
  {
    Halves(a);
    Halves(b);
    var ia := if b / 2 % 2 == 1 then 4 - a / 2 else a / 2;
    var v := ia + b / 2 * 5;
    assert 0 <= v <= 24 && v / 5 == b / 2 && v % 5 == ia;
    Spread(v);
    Quartet((v * 32 + 12) * 1311 / 32768, a % 2, b % 2);
  }

  /** compress_code: four signs, two ten-bit and one seven-bit index. */
  method CompressCode(sgn: array<int>, pos: array<int>, indx: array<int>)
    requires sgn.Length == 4 && pos.Length == 8 && indx.Length == 7 && indx !in {sgn, pos}
    modifies indx
    ensures indx[..4] == sgn[..]
    ensures indx[4] == Compress10(pos[0], pos[4], pos[1])
    ensures indx[5] == Compress10(pos[2], pos[6], pos[5])
    ensures indx[6] == Compress7(pos[3], pos[7])
  {
    var i := 0;
    while i < NB_TRACK_MR102
      invariant 0 <= i <= NB_TRACK_MR102
      invariant forall k :: 0 <= k < i ==> indx[k] == sgn[k]
    {
      indx[i] := sgn[i];
      i := i + 1;
    }
    indx[4] := Compress10(pos[0], pos[4], pos[1]);
    indx[5] := Compress10(pos[2], pos[6], pos[5]);
    var ib := pos[7] / 2 % 2;
    var ia := if ib == 1 then 4 - pos[3] / 2 else pos[3] / 2;
    ib := pos[7] / 2 * 5;
    ib := (ia + ib) * 32 + 12;
    var ic := ib * 1311 / 32768 * 4;
    ia := pos[3] % 2;
    ib := pos[7] % 2 * 2;
    indx[6] := ia + (ib + ic);
  }

  /** Seven indices of 1, 1, 1, 1, 10, 10 and 7 bits, 31 in all. */
  ghost predicate WellFormed8(indx: seq<int>) {
    |indx| == 7 && (forall t :: 0 <= t < 4 ==> 0 <= indx[t] <= 1) &&
    0 <= indx[4] < 1024 && 0 <= indx[5] < 1024 && 0 <= indx[6] < 128
  }

  /** The positions of a track, from the compressed indices. */
  function Positions8(indx: seq<int>, t: int): (int, int)
    requires |indx| == 7 && 0 <= t < 4
  {
    var x, y, z := Expand10(indx[4]), Expand10(indx[5]), Expand7(indx[6]);
    match t
    case 0 => (x.0, x.1)
    case 1 => (x.2, y.2)
    case 2 => (y.0, y.1)
    case _ => (z.0, z.1)
  }

  /** What a decoder reconstructs at position `x` from the seven indices. */
  function Decode8(indx: seq<int>, x: int): real
    requires |indx| == 7 && IsPosition(x)
  {
    var t := x % NB_TRACK_MR102;
    var p := Positions8(indx, t);
    DecodeAt(Two(indx[t], p.0, p.1), AMPLITUDE_MR102, x / NB_TRACK_MR102)
  }

  /** Eight pulses, two per track: the indices fit their bits and decode to the code vector. */
  lemma RoundTrip8(codvec: seq<int>, sign: seq<real>, sgn: seq<int>, pos: seq<int>, indx: seq<int>, cod: seq<real>)
    requires |sign| == L_CODE && TwoPerTrack(codvec, NB_TRACK_MR102) && |sgn| == 4 && |pos| == 8 && |indx| == 7
    requires CodeVector(codvec, sign, AMPLITUDE_MR102, cod) && Indices8(codvec, sign, sgn, pos)
    requires indx[..4] == sgn
    requires indx[4] == Compress10(pos[0], pos[4], pos[1]) && indx[5] == Compress10(pos[2], pos[6], pos[5])
    requires indx[6] == Compress7(pos[3], pos[7])
    ensures WellFormed8(indx)
    ensures forall x :: 0 <= x < L_CODE ==> Decode8(indx, x) == cod[x]
  {
    hide PairOf, CodeAt, DecodeAt, Consistent, Indices8, Compress10, Compress7, Expand10, Expand7;
    DigitsAt(codvec, sign, sgn, pos, 0);
    DigitsAt(codvec, sign, sgn, pos, 1);
    DigitsAt(codvec, sign, sgn, pos, 2);
    DigitsAt(codvec, sign, sgn, pos, 3);
    Compress10Unique(pos[0], pos[4], pos[1]);
    Compress10Unique(pos[2], pos[6], pos[5]);
    Compress7Unique(pos[3], pos[7]);
    forall x | 0 <= x < L_CODE
      ensures Decode8(indx, x) == cod[x]
    {
      TwoPulsesDecode(codvec, sign, AMPLITUDE_MR102, NB_TRACK_MR102, x);
    }
  }

  lemma DigitsAt(codvec: seq<int>, sign: seq<real>, sgn: seq<int>, pos: seq<int>, t: int)
    requires |sign| == L_CODE && TwoPerTrack(codvec, NB_TRACK_MR102) && |sgn| == 4 && |pos| == 8 && 0 <= t < 4
    requires Indices8(codvec, sign, sgn, pos)
    ensures 0 <= sgn[t] <= 1 && IsDigit(pos[t]) && IsDigit(pos[t + 4])
    ensures PairOf(codvec, sign, NB_TRACK_MR102, t) == Two(sgn[t], pos[t], pos[t + 4])
  {
    hide PairOf, CodeAt, DecodeAt;
    TwoPulsesDecode(codvec, sign, 1.0, NB_TRACK_MR102, t);
    IndicesAt8(codvec, sign, sgn, pos, t);
  }

  // ---------- The two coders ----------

  /** How well a vector of pulses matches the target x: what its filtered form has of it. */
  ghost function Match(x: seq<real>, h: seq<real>, sign: seq<real>, ps: seq<int>): real
    requires |x| == |h| == |sign| == L_CODE && ArePositions(ps)
  {
    var y := Filtered(h, sign, ps);
    if Dot(y, y, L_CODE) == 0.0 then 0.0 else Square(Dot(y, x, L_CODE)) / Dot(y, y, L_CODE)
  }

  /** The four greedy passes of the search over these correlations: two pulses at the maxima of their
      tracks, then the best pair of each stage, with the tracks rotated from pass to pass. */
  ghost predicate FourPasses(dn: seq<real>, rr: seq<seq<real>>, posMax: seq<int>, ipos: seq<int>, step: int,
                             tried: seq<seq<int>>) {
    && |dn| == L_CODE && IsStep(step) && Positive(rr) && TrackMaxima(posMax, step) && StartTracks(ipos, step)
    && |tried| == 4 && AreVectors(tried) && (StartInRange(ipos, step); PassesDone(dn, rr, posMax, ipos, step, tried))
  }

  /** The weighted sum of the residual and of the correlation of the target with the response from j on. */
  ghost function SumAt(x: seq<real>, cn: seq<real>, kCn: real, kDn: real, h: seq<real>, j: int): real
    requires |x| == |cn| == |h| == L_CODE && 0 <= j < L_CODE
  {
    kCn * cn[j] + kDn * Dot(Echo(h, j), x, L_CODE)
  }

  /** Each sign is negative exactly where this sum is. */
  ghost predicate AreSignsFor(x: seq<real>, cn: seq<real>, kCn: real, kDn: real, h: seq<real>, sign: seq<real>)
    requires |x| == |cn| == |h| == L_CODE
  {
    |sign| == L_CODE && forall j :: 0 <= j < L_CODE ==>
      sign[j] == if kCn * cn[j] + kDn * Dot(Echo(h, j), x, L_CODE) < 0.0 then -1.0 else 1.0
  }

  /** What these sums are without their signs. */
  ghost function SumMagnitudes(x: seq<real>, cn: seq<real>, kCn: real, kDn: real, h: seq<real>): (b: seq<real>)
    requires |x| == |cn| == |h| == L_CODE
    ensures |b| == L_CODE
  {
    seq(L_CODE, j requires 0 <= j < L_CODE => Abs(SumAt(x, cn, kCn, kDn, h, j)))
  }

  /** The vector is one of four that the search tries for this target, residual and response, from the
      maxima of the sums on, and none of them matches better. */
  ghost predicate BestTried(x: seq<real>, cn: seq<real>, kCn: real, kDn: real, h: seq<real>, sign: seq<real>,
                            step: int, ps: seq<int>)
    requires |x| == |cn| == |h| == |sign| == L_CODE && ArePositions(ps) && step > 0
  {
    exists dn, rr, posMax, ipos, tried ::
      && Targets(dn, x, h, sign) && Correlates(rr, h, sign) && FourPasses(dn, rr, posMax, ipos, step, tried)
      && StartsFrom(SumMagnitudes(x, cn, kCn, kDn, h), step, posMax, ipos)
      && ps in tried && forall r :: 0 <= r < 4 ==> Match(x, h, sign, tried[r]) <= Match(x, h, sign, ps)
  }

  lemma BestMatches(dn: seq<real>, rr: seq<seq<real>>, posMax: seq<int>, ipos: seq<int>, step: int,
                    x: seq<real>, cn: seq<real>, kCn: real, kDn: real, h: seq<real>, sign: seq<real>,
                    tried: seq<seq<int>>, m: int)
    requires |x| == |cn| == |h| == L_CODE && AreSigns(sign) && Correlates(rr, h, sign) && Targets(dn, x, h, sign)
    requires step > 0 && StartsFrom(SumMagnitudes(x, cn, kCn, kDn, h), step, posMax, ipos)
    requires h[0] != 0.0 && FourPasses(dn, rr, posMax, ipos, step, tried) && FirstBest(dn, rr, tried, m)
    ensures BestTried(x, cn, kCn, kDn, h, sign, step, tried[m])
  {
    hide Filtered, Dot, Score, Positive, PassesDone, TrackMaxima, StartTracks, StartsFrom, SumMagnitudes;
    forall r | 0 <= r < 4
      ensures Match(x, h, sign, tried[r]) == Score(dn, rr, tried[r])
    {
      ScoreMeans(dn, rr, x, h, sign, tried[r]);
    }
  }

  /** The signal of set_sign12k2 over the target correlations `d`. */
  lemma SignalMeans(x: seq<real>, cn: seq<real>, kCn: real, kDn: real, h: seq<real>, d: seq<real>, sign: seq<real>)
    requires |x| == |cn| == |h| == |d| == |sign| == L_CODE
    requires forall j :: 0 <= j < L_CODE ==> d[j] == Dot(Echo(h, j), x, L_CODE)
    requires var b := Signal(cn, d, kCn, kDn);
             forall j :: 0 <= j < L_CODE ==> sign[j] == if b[j] < 0.0 then -1.0 else 1.0
    ensures AreSignsFor(x, cn, kCn, kDn, h, sign)
    ensures SumMagnitudes(x, cn, kCn, kDn, h) == Magnitudes(Signal(cn, d, kCn, kDn))
  {
    hide Signal, Dot, Echo, Abs, SumAt;
    forall j | 0 <= j < L_CODE
      ensures Signal(cn, d, kCn, kDn)[j] == SumAt(x, cn, kCn, kDn, h, j)
      ensures sign[j] == if kCn * cn[j] + kDn * Dot(Echo(h, j), x, L_CODE) < 0.0 then -1.0 else 1.0
    {
      SignalAt(cn, d, kCn, kDn, j);
      SumIs(x, cn, kCn, kDn, h, d, j);
    }
  }

  lemma SumIs(x: seq<real>, cn: seq<real>, kCn: real, kDn: real, h: seq<real>, d: seq<real>, j: int)
    requires |x| == |cn| == |h| == |d| == L_CODE && 0 <= j < L_CODE && d[j] == Dot(Echo(h, j), x, L_CODE)
    ensures SumAt(x, cn, kCn, kDn, h, j) == kCn * cn[j] + kDn * d[j]
  {
    hide Dot, Echo;
  }

  /** The correlations and the signs. */
  method Correlate(x: seq<real>, cn: seq<real>, kCn: real, kDn: real, h: seq<real>, step: int, posMax: array<int>,
                   ipos: array<int>)
    returns (dn: array<real>, sign: array<real>, rr: seq<seq<real>>)
    requires |x| == |cn| == |h| == L_CODE && IsStep(step) && posMax.Length == step && ipos.Length == 2 * step
    requires posMax != ipos
    modifies posMax, ipos
    ensures fresh(sign) && fresh(dn) && dn != sign && sign.Length == L_CODE
    ensures AreSigns(sign[..]) && AreSignsFor(x, cn, kCn, kDn, h, sign[..])
    ensures Targets(dn[..], x, h, sign[..]) && Correlates(rr, h, sign[..])
    ensures StartsFrom(SumMagnitudes(x, cn, kCn, kDn, h), step, posMax[..], ipos[..])
  {
    hide StartsFrom, SumMagnitudes, AreSignsFor, Magnitudes, Dot, Echo, Signal;
    dn := new real[L_CODE];
    sign := new real[L_CODE];
    var matrix := new real[L_CODE, L_CODE];
    CorHX(h, x, dn);
    ghost var d := dn[..];
    SetSign(dn, cn, sign, posMax, step, ipos, kCn, kDn);
    SignalMeans(x, cn, kCn, kDn, h, d, sign[..]);
    CorH(h, sign[..], matrix);
    rr := Rows(matrix);
  }

  /** The first part of both coders: correlations, signs and search. */
  method PlacePulses(x: seq<real>, cn: seq<real>, kCn: real, kDn: real, h: seq<real>, step: int, codvec: array<int>)
    returns (sign: array<real>)
    requires |x| == |cn| == |h| == L_CODE && IsStep(step) && codvec.Length == 2 * step
    modifies codvec
    ensures fresh(sign) && AreSigns(sign[..]) && TwoPerTrack(codvec[..], step)
    ensures AreSignsFor(x, cn, kCn, kDn, h, sign[..])
    ensures h[0] != 0.0 ==> BestTried(x, cn, kCn, kDn, h, sign[..], step, codvec[..])
  {
    hide TwoPerTrack, StartTracks, TrackMaxima, Positive, AreSigns, Targets, Correlates, BestTried, PassesDone;
    hide FirstBest, AreSignsFor, StartsFrom, SumMagnitudes;
    var posMax := new int[step];
    var ipos := new int[2 * step];
    var dn, rr;
    dn, sign, rr := Correlate(x, cn, kCn, kDn, h, step, posMax, ipos);
    SameSize(dn[..], rr, x, h, sign[..]);
    TheStart(SumMagnitudes(x, cn, kCn, kDn, h), step, posMax[..], ipos[..]);
    ghost var start := ipos[..];
    ghost var tried, m := Search(dn[..], rr, posMax[..], ipos, step, codvec);
    if h[0] != 0.0 {
      PositiveExactly(rr, h, sign[..]);
      assert FourPasses(dn[..], rr, posMax[..], start, step, tried);
      BestMatches(dn[..], rr, posMax[..], start, step, x, cn, kCn, kDn, h, sign[..], tried, m);
    }
  }

  lemma TheStart(b: seq<real>, step: int, posMax: seq<int>, ipos: seq<int>)
    requires |b| == L_CODE && step > 0 && StartsFrom(b, step, posMax, ipos)
    ensures TrackMaxima(posMax, step) && StartTracks(ipos, step)
  {}

  lemma SameSize(dn: seq<real>, rr: seq<seq<real>>, x: seq<real>, h: seq<real>, sign: seq<real>)
    requires |x| == |h| == |sign| == L_CODE && Targets(dn, x, h, sign) && Correlates(rr, h, sign)
    ensures |dn| == L_CODE && IsMatrix(rr)
  {}

  /** The vector that is sent, sharpened, behind the original impulse response: what y holds. */
  lemma SharpVector(ps: seq<int>, sign: seq<real>, amp: real, h: seq<real>, lag: nat, gain: real, cod: seq<real>,
                    y: seq<real>)
    requires AreSigns(sign) && |h| == L_CODE && ArePositions(ps) && lag > 0 && CodeVector(ps, sign, amp, cod)
    requires y == Filtered(Sharp(h, lag, gain), Units(sign), ps)
    ensures forall n :: 0 <= n < L_CODE ==> amp * y[n] == Conv(Sharp(cod, lag, gain), h, n)
  {
    hide Filtered, Units, Conv, Sharp, CodeVector;
    VectorUnique(ps, sign, amp, cod);
    forall n | 0 <= n < L_CODE
      ensures amp * y[n] == Conv(Sharp(cod, lag, gain), h, n)
    {
      FilteredVector(ps, sign, amp, Sharp(h, lag, gain), n);
      SharpeningCommutes(cod, h, lag, gain, n);
    }
  }

  lemma TrackPositions(ps: seq<int>, step: int)
    requires step > 0 && TwoPerTrack(ps, step)
    ensures ArePositions(ps)
  {}

  function Clamped(gain: real): real {
    if gain > 1.0 then 1.0 else gain
  }

  /** code_10i40_35bits, for every target x, residual cn, impulse response, lag and gain. The indices
      decode to a code vector `cod` of two pulses on each track, the best of those that were tried
      when the response starts at once; `code` is that vector sharpened; and y is exactly what the
      sharpened vector gives behind the original impulse response. */
  method Code10(x: seq<real>, cn: seq<real>, kCn: real, kDn: real, h: array<real>, lag: nat, gain: real, gray: seq<int>,
                code: array<real>, y: array<real>, anap: array<int>)
    returns (ghost cod: seq<real>, ghost ps: seq<int>, ghost sign: seq<real>)
    requires |x| == |cn| == h.Length == code.Length == y.Length == L_CODE && anap.Length == 10
    requires h != code && h != y && code != y && lag > 0 && IsGray(gray)
    modifies h, code, y, anap
    ensures h[..] == Sharp(old(h[..]), lag, Clamped(gain)) && code[..] == Sharp(cod, lag, Clamped(gain))
    ensures WellFormed10(gray, anap[..]) && |cod| == L_CODE
    ensures forall p :: 0 <= p < L_CODE ==> Decode10(gray, anap[..], p) == cod[p]
    ensures forall n :: 0 <= n < L_CODE ==> y[n] == Conv(code[..], old(h[..]), n)
    ensures AreSigns(sign) && TwoPerTrack(ps, NB_TRACK) && CodeVector(ps, sign, 1.0, cod)
    ensures AreSignsFor(x, cn, kCn, kDn, h[..], sign)
    ensures h[0] != 0.0 ==> BestTried(x, cn, kCn, kDn, h[..], sign, NB_TRACK, ps)
  {
    hide TwoPerTrack, CodeVector, Indices10, WellFormed10, Decode10, QP, IsGray, Sharp, Conv, Filtered, BestTried;
    hide Units, AreSignsFor;
    ghost var response := h[..];
    var clamped := Clamped(gain);
    Sharpen(h, lag, clamped);
    var codvec := new int[10];
    var signs;
    signs := PlacePulses(x, cn, kCn, kDn, h[..], NB_TRACK, codvec);
    ps, sign := codvec[..], signs[..];
    TrackPositions(ps, NB_TRACK);
    BuildCode10(codvec[..], signs[..], h, code, y, anap);
    ghost var indx := anap[..];
    cod := code[..];
    GrayLength(gray);
    GrayCode(gray, anap);
    RoundTrip10(gray, ps, sign, indx, anap[..], cod);
    SharpVector(ps, sign, 1.0, response, lag, clamped, cod, y[..]);
    Sharpen(code, lag, clamped);
  }

  lemma GrayLength(gray: seq<int>)
    requires IsGray(gray)
    ensures |gray| == 8
  {}

  /** code_8i40_31bits, likewise. The pulses of the vector are slightly shorter than those that y is
      made of: it is the vector divided by their amplitude that y gives behind the response. */
  method Code8(x: seq<real>, cn: seq<real>, kCn: real, kDn: real, h: array<real>, lag: nat, gain: real,
               code: array<real>, y: array<real>, anap: array<int>)
    returns (ghost cod: seq<real>, ghost ps: seq<int>, ghost sign: seq<real>)
    requires |x| == |cn| == h.Length == code.Length == y.Length == L_CODE && anap.Length == 7
    requires h != code && h != y && code != y && lag > 0
    modifies h, code, y, anap
    ensures h[..] == Sharp(old(h[..]), lag, Clamped(gain)) && code[..] == Sharp(cod, lag, Clamped(gain))
    ensures WellFormed8(anap[..]) && |cod| == L_CODE
    ensures forall p :: 0 <= p < L_CODE ==> Decode8(anap[..], p) == cod[p]
    ensures forall n :: 0 <= n < L_CODE ==> AMPLITUDE_MR102 * y[n] == Conv(code[..], old(h[..]), n)
    ensures AreSigns(sign) && TwoPerTrack(ps, NB_TRACK_MR102) && CodeVector(ps, sign, AMPLITUDE_MR102, cod)
    ensures AreSignsFor(x, cn, kCn, kDn, h[..], sign)
    ensures h[0] != 0.0 ==> BestTried(x, cn, kCn, kDn, h[..], sign, NB_TRACK_MR102, ps)
  {
    hide TwoPerTrack, CodeVector, Indices8, WellFormed8, Decode8, Compress10, Compress7, Sharp, Conv, Filtered;
    hide BestTried, Units, AreSignsFor;
    ghost var response := h[..];
    var clamped := Clamped(gain);
    Sharpen(h, lag, clamped);
    var codvec := new int[8];
    var linearSigns := new int[NB_TRACK_MR102];
    var linearCodewords := new int[8];
    var signs;
    signs := PlacePulses(x, cn, kCn, kDn, h[..], NB_TRACK_MR102, codvec);
    ps, sign := codvec[..], signs[..];
    TrackPositions(ps, NB_TRACK_MR102);
    BuildCode8(codvec[..], signs[..], h, code, y, linearSigns, linearCodewords);
    cod := code[..];
    CompressCode(linearSigns, linearCodewords, anap);
    RoundTrip8(ps, sign, linearSigns[..], linearCodewords[..], anap[..], cod);
    SharpVector(ps, sign, AMPLITUDE_MR102, response, lag, clamped, cod, y[..]);
    Sharpen(code, lag, clamped);
  }
}
