/**
  The correlations that the codebook search of C/amr_encode/sp_enc.c works on (cor_h_x and cor_h), and
  what they mean: a vector of pulses is sent through the impulse response h and compared with the target.
 */
module FilteredCode {
  import opened CodebookSearch

  // ---------- Sums over a subframe ----------

  /** The product of two vectors over their first k elements. */
  function Dot(a: seq<real>, b: seq<real>, k: nat): real
    requires k <= |a| && k <= |b|
  {
    if k == 0 then 0.0 else Dot(a, b, k - 1) + a[k - 1] * b[k - 1]
  }

  function Plus(a: seq<real>, s: real, b: seq<real>): (c: seq<real>)
    requires |a| == |b|
    ensures |c| == |a| && forall n :: 0 <= n < |a| ==> c[n] == a[n] + s * b[n]
  {
    seq(|a|, n requires 0 <= n < |a| => a[n] + s * b[n])
  }

  lemma {:induction false} DotPlus(a: seq<real>, s: real, b: seq<real>, c: seq<real>, k: nat)
    requires |a| == |b| && k <= |a| && k <= |c|
    ensures Dot(Plus(a, s, b), c, k) == Dot(a, c, k) + s * Dot(b, c, k)
  {
    hide Plus;
    if k == 0 {
    } else {
      DotPlus(a, s, b, c, k - 1);
      Spread(a[k - 1], s, b[k - 1], c[k - 1], Dot(b, c, k - 1));
    }
  }

  lemma Spread(a: real, s: real, b: real, c: real, d: real)
    ensures (a + s * b) * c == a * c + s * (b * c) && s * (d + b * c) == s * d + s * (b * c)
  {
    assert (s * b) * c == s * (b * c);
  }

  lemma {:induction false} DotCommutes(a: seq<real>, b: seq<real>, k: nat)
    requires k <= |a| && k <= |b|
    ensures Dot(a, b, k) == Dot(b, a, k)
  {
    if k == 0 {
    } else {
      DotCommutes(a, b, k - 1);
    }
  }

  lemma DotNext(a: seq<real>, b: seq<real>, k: nat, v: real)
    requires k < |a| && k < |b| && a[k] == v
    ensures Dot(a, b, k + 1) == Dot(a, b, k) + v * b[k]
  {}

  /** A sum of squares is positive when one of them is not zero. */
  lemma {:induction false} DotSquare(a: seq<real>, k: nat, m: nat)
    requires k <= |a|
    ensures Dot(a, a, k) >= 0.0 && (m < k && a[m] != 0.0 ==> Dot(a, a, k) > 0.0)
  {
    if k == 0 {
    } else {
      DotSquare(a, k - 1, m);
      SquarePositive(a[k - 1]);
      assert Dot(a, a, k) == Dot(a, a, k - 1) + Square(a[k - 1]);
    }
  }

  lemma SquarePositive(x: real)
    ensures Square(x) >= 0.0 && (x != 0.0 ==> Square(x) > 0.0)
  {
    hide Square;
    SquareNonNegative(x);
    if x > 0.0 {
      SquareAbove(x);
    } else if x < 0.0 {
      SquareAbove(-x);
      SquareEven(x);
    }
  }

  lemma SquareAbove(x: real)
    requires x > 0.0
    ensures Square(x) > 0.0
  {
    hide *;
    ProductPositive(x, x);
    SquareIsProduct(x);
  }

  function Product(x: real, y: real): real {
    x * y
  }

  lemma ProductPositive(x: real, y: real)
    requires x > 0.0 && y > 0.0
    ensures Product(x, y) > 0.0
  {}

  lemma SquareIsProduct(x: real)
    ensures Square(x) == Product(x, x)
  {}

  lemma SquareEven(x: real)
    ensures Square(-x) == Square(x)
  {}

  // ---------- Pulses and their echoes ----------

  /** What a pulse at p leaves behind the filter. */
  function Echo(h: seq<real>, p: int): (e: seq<real>)
    requires |h| == L_CODE && IsPosition(p)
    ensures |e| == L_CODE
  {
    seq(L_CODE, n requires 0 <= n < L_CODE => if n < p then 0.0 else h[n - p])
  }

  lemma EchoAt(h: seq<real>, p: int, n: int)
    requires |h| == L_CODE && IsPosition(p) && IsPosition(n)
    ensures Echo(h, p)[n] == if n < p then 0.0 else h[n - p]
  {}

  function Nothing(): (z: seq<real>)
    ensures |z| == L_CODE && forall n :: 0 <= n < L_CODE ==> z[n] == 0.0
  {
    seq(L_CODE, _ => 0.0)
  }

  /** Signed pulses behind the filter. */
  function Filtered(h: seq<real>, sign: seq<real>, ps: seq<int>): (y: seq<real>)
    requires |h| == |sign| == L_CODE && ArePositions(ps)
    ensures |y| == L_CODE
  {
    if ps == [] then Nothing()
    else
      var x := ps[|ps| - 1];
      Plus(Filtered(h, sign, ps[..|ps| - 1]), sign[x], Echo(h, x))
  }

  ghost predicate AreSigns(sign: seq<real>) {
    |sign| == L_CODE && forall j :: 0 <= j < L_CODE ==> sign[j] == 1.0 || sign[j] == -1.0
  }

  /** The matrix that cor_h computes. */
  ghost predicate Correlates(rr: seq<seq<real>>, h: seq<real>, sign: seq<real>)
    requires |h| == |sign| == L_CODE
  {
    IsMatrix(rr) && forall i, j :: 0 <= i < L_CODE && 0 <= j < L_CODE ==>
      rr[i][j] == sign[i] * sign[j] * Dot(Echo(h, i), Echo(h, j), L_CODE)
  }

  /** The vector that cor_h_x computes, under the signs. */
  ghost predicate Targets(dn: seq<real>, x: seq<real>, h: seq<real>, sign: seq<real>)
    requires |x| == |h| == |sign| == L_CODE
  {
    |dn| == L_CODE && forall i :: 0 <= i < L_CODE ==> dn[i] == sign[i] * Dot(Echo(h, i), x, L_CODE)
  }

  // ---------- What the criterion of the search means ----------

  lemma {:induction false} CrossMeans(rr: seq<seq<real>>, h: seq<real>, sign: seq<real>, ps: seq<int>, x: int)
    requires |h| == |sign| == L_CODE && Correlates(rr, h, sign) && ArePositions(ps) && IsPosition(x)
    ensures Cross(rr, ps, x) == sign[x] * Dot(Filtered(h, sign, ps), Echo(h, x), L_CODE)
  {
    hide Dot, Plus, Echo, Nothing;
    if ps == [] {
      DotNothing(Echo(h, x), L_CODE);
    } else {
      var front, p := ps[..|ps| - 1], ps[|ps| - 1];
      CrossMeans(rr, h, sign, front, x);
      DotPlus(Filtered(h, sign, front), sign[p], Echo(h, p), Echo(h, x), L_CODE);
      CrossTerms(sign[x], sign[p], Dot(Filtered(h, sign, front), Echo(h, x), L_CODE),
          Dot(Echo(h, p), Echo(h, x), L_CODE));
    }
  }

  lemma CrossTerms(sx: real, sp: real, f: real, e: real)
    ensures sx * f + sp * sx * e == sx * (f + sp * e)
  {
    assert sp * sx * e == sx * (sp * e);
  }

  lemma {:induction false} DotNothing(a: seq<real>, k: nat)
    requires k <= |a| && k <= L_CODE
    ensures Dot(Nothing(), a, k) == 0.0
  {
    hide Nothing;
    if k == 0 {
    } else {
      DotNothing(a, k - 1);
    }
  }

  /** The energy is that of the filtered pulses. */
  lemma {:induction false} EnergyMeans(rr: seq<seq<real>>, h: seq<real>, sign: seq<real>, ps: seq<int>)
    requires |h| == |sign| == L_CODE && Correlates(rr, h, sign) && ArePositions(ps)
    ensures Energy(rr, ps) == Dot(Filtered(h, sign, ps), Filtered(h, sign, ps), L_CODE)
  {
    hide Dot, Plus, Echo, Nothing;
    if ps == [] {
      DotNothing(Nothing(), L_CODE);
    } else {
      var front, p := ps[..|ps| - 1], ps[|ps| - 1];
      var f, e, y := Filtered(h, sign, front), Echo(h, p), Filtered(h, sign, ps);
      EnergyMeans(rr, h, sign, front);
      CrossMeans(rr, h, sign, front, p);
      DotPlus(f, sign[p], e, y, L_CODE);
      DotCommutes(f, y, L_CODE);
      DotCommutes(e, y, L_CODE);
      DotPlus(f, sign[p], e, f, L_CODE);
      DotPlus(f, sign[p], e, e, L_CODE);
      DotCommutes(e, f, L_CODE);
      EnergyTerms(sign[p], Dot(f, f, L_CODE), Dot(f, e, L_CODE), Dot(e, e, L_CODE));
    }
  }

  lemma EnergyTerms(s: real, ff: real, fe: real, ee: real)
    ensures ff + s * s * ee + 2.0 * (s * fe) == (ff + s * fe) + s * (fe + s * ee)
  {
    assert s * (fe + s * ee) == s * fe + s * (s * ee);
    assert s * s * ee == s * (s * ee);
  }

  /** The correlation is that of the filtered pulses with the target. */
  lemma {:induction false} CorrMeans(dn: seq<real>, x: seq<real>, h: seq<real>, sign: seq<real>, ps: seq<int>)
    requires |x| == |h| == |sign| == L_CODE && Targets(dn, x, h, sign) && ArePositions(ps)
    ensures Corr(dn, ps) == Dot(Filtered(h, sign, ps), x, L_CODE)
  {
    hide Dot, Plus, Echo, Nothing;
    if ps == [] {
      DotNothing(x, L_CODE);
    } else {
      var front, p := ps[..|ps| - 1], ps[|ps| - 1];
      CorrMeans(dn, x, h, sign, front);
      DotPlus(Filtered(h, sign, front), sign[p], Echo(h, p), x, L_CODE);
    }
  }

  // ---------- When the forms are positive ----------

  function Count(ps: seq<int>, m: int): nat {
    if ps == [] then 0 else Count(ps[..|ps| - 1], m) + if ps[|ps| - 1] == m then 1 else 0
  }

  lemma {:induction false} CountMember(ps: seq<int>, m: int)
    requires m in ps
    ensures Count(ps, m) > 0
  {
    var front := ps[..|ps| - 1];
    if ps[|ps| - 1] == m {
    } else {
      assert ps == front + [ps[|ps| - 1]];
      CountMember(front, m);
    }
  }

  lemma {:induction false} Earliest(ps: seq<int>) returns (m: int)
    requires ps != []
    ensures m in ps && forall k :: 0 <= k < |ps| ==> m <= ps[k]
  {
    var front, x := ps[..|ps| - 1], ps[|ps| - 1];
    assert ps == front + [x];
    if front == [] {
      m := x;
    } else {
      m := Earliest(front);
      if x < m {
        m := x;
      }
    }
  }

  /** v added up n times. */
  function Times(n: nat, v: real): (r: real)
    ensures n > 0 && v > 0.0 ==> r > 0.0
    ensures n > 0 && v < 0.0 ==> r < 0.0
  {
    if n == 0 then 0.0 else if n == 1 then v else Times(n - 1, v) + v
  }

  lemma TimesNext(n: nat, v: real)
    ensures Times(n + 1, v) == Times(n, v) + v && Times(0, v) == 0.0
  {}

  /** At the earliest pulse only the pulses there are heard. */
  lemma {:induction false} LeadingEcho(h: seq<real>, sign: seq<real>, ps: seq<int>, m: int)
    requires |h| == |sign| == L_CODE && ArePositions(ps) && IsPosition(m) && forall k :: 0 <= k < |ps| ==> m <= ps[k]
    ensures Filtered(h, sign, ps)[m] == Times(Count(ps, m), sign[m] * h[0])
  {
    hide Plus, Echo, Nothing, Times;
    if ps == [] {
      TimesNext(0, sign[m] * h[0]);
    } else {
      var front, x := ps[..|ps| - 1], ps[|ps| - 1];
      LeadingEcho(h, sign, front, m);
      EchoAdds(h, sign, Filtered(h, sign, front), x, m);
      TimesNext(Count(front, m), sign[m] * h[0]);
    }
  }

  lemma EchoAdds(h: seq<real>, sign: seq<real>, f: seq<real>, x: int, m: int)
    requires |h| == |sign| == |f| == L_CODE && IsPosition(x) && IsPosition(m) && m <= x
    ensures Plus(f, sign[x], Echo(h, x))[m] == f[m] + if x == m then sign[m] * h[0] else 0.0
  {
    hide Echo;
    EchoAt(h, x, m);
    var e := Echo(h, x);
    ScaledAt(sign[x], e[m], if x == m then h[0] else 0.0);
  }

  lemma ScaledAt(s: real, e: real, v: real)
    requires e == v
    ensures s * e == s * v && s * 0.0 == 0.0
  {}

  lemma EnergyPositive(rr: seq<seq<real>>, h: seq<real>, sign: seq<real>, ps: seq<int>)
    requires |h| == L_CODE && AreSigns(sign) && Correlates(rr, h, sign) && h[0] != 0.0 && ps != [] && ArePositions(ps)
    ensures Energy(rr, ps) > 0.0
  {
    hide Filtered, Dot, Energy, Echo, Correlates;
    var m := Earliest(ps);
    var y := Filtered(h, sign, ps);
    EnergyMeans(rr, h, sign, ps);
    LeadingEcho(h, sign, ps, m);
    CountMember(ps, m);
    DotSquare(y, L_CODE, m);
    SignTimes(sign[m], h[0]);
    MatrixOf(rr, h, sign);
  }

  lemma SignTimes(s: real, v: real)
    requires (s == 1.0 || s == -1.0) && v != 0.0
    ensures s * v != 0.0
  {}

  /** All forms over pulses are positive exactly when the impulse response starts at once. */
  lemma PositiveExactly(rr: seq<seq<real>>, h: seq<real>, sign: seq<real>)
    requires |h| == L_CODE && AreSigns(sign) && Correlates(rr, h, sign)
    ensures Positive(rr) <==> h[0] != 0.0
  {
    hide Filtered, Dot, Energy, Echo, Correlates;
    MatrixOf(rr, h, sign);
    if h[0] != 0.0 {
      forall ps: seq<int> | ps != [] && ArePositions(ps)
        ensures Energy(rr, ps) > 0.0
      {
        EnergyPositive(rr, h, sign, ps);
      }
    } else {
      LateEcho(h, L_CODE);
      EnergyOfOne(rr, h, sign);
    }
  }

  lemma MatrixOf(rr: seq<seq<real>>, h: seq<real>, sign: seq<real>)
    requires |h| == |sign| == L_CODE && Correlates(rr, h, sign)
    ensures IsMatrix(rr)
  {}

  lemma EnergyOfOne(rr: seq<seq<real>>, h: seq<real>, sign: seq<real>)
    requires |h| == |sign| == L_CODE && Correlates(rr, h, sign) && Dot(Echo(h, 39), Echo(h, 39), L_CODE) == 0.0
    ensures ArePositions([39]) && Energy(rr, [39]) == 0.0
  {
    hide Dot, Echo;
    assert [39][..0] == [];
    assert Energy(rr, []) == 0.0 && Cross(rr, [], 39) == 0.0;
  }

  lemma {:induction false} LateEcho(h: seq<real>, k: nat)
    requires |h| == L_CODE && k <= L_CODE && h[0] == 0.0
    ensures Dot(Echo(h, 39), Echo(h, 39), k) == 0.0
  {
    hide Echo;
    if k == 0 {
    } else {
      LateEcho(h, k - 1);
      EchoAt(h, 39, k - 1);
    }
  }

  /** What the search maximises: how much of the filtered pulses points along the target. */
  lemma ScoreMeans(dn: seq<real>, rr: seq<seq<real>>, x: seq<real>, h: seq<real>, sign: seq<real>, ps: seq<int>)
    requires |x| == |h| == L_CODE && AreSigns(sign) && Correlates(rr, h, sign) && Targets(dn, x, h, sign)
    requires h[0] != 0.0 && ps != [] && ArePositions(ps)
    ensures Positive(rr)
    ensures var y := Filtered(h, sign, ps);
            Dot(y, y, L_CODE) > 0.0 && Score(dn, rr, ps) == Square(Dot(y, x, L_CODE)) / Dot(y, y, L_CODE)
  {
    hide Dot, Filtered, Energy, Corr, Positive;
    PositiveExactly(rr, h, sign);
    EnergyMeans(rr, h, sign, ps);
    CorrMeans(dn, x, h, sign, ps);
    ScoreOf(dn, rr, ps);
  }

  // ---------- cor_h_x and cor_h ----------

  lemma {:induction false} DotBefore(h: seq<real>, p: int, a: seq<real>, k: nat)
    requires |h| == |a| == L_CODE && IsPosition(p) && k <= p
    ensures Dot(Echo(h, p), a, k) == 0.0
  {
    hide Echo;
    if k == 0 {
    } else {
      DotBefore(h, p, a, k - 1);
      EchoAt(h, p, k - 1);
    }
  }

  /** cor_h_x. */
  method CorHX(h: seq<real>, x: seq<real>, dn: array<real>)
    requires |h| == |x| == dn.Length == L_CODE
    modifies dn
    ensures forall i :: 0 <= i < L_CODE ==> dn[i] == Dot(Echo(h, i), x, L_CODE)
  {
    hide Dot, Echo;
    var i := 0;
    while i < L_CODE
      invariant 0 <= i <= L_CODE
      invariant forall k :: 0 <= k < i ==> dn[k] == Dot(Echo(h, k), x, L_CODE)
    {
      dn[i] := DotProduct(h, x, i);
      i := i + 1;
    }
  }

  /** DotProduct of the response with the target from position p on. */
  method DotProduct(h: seq<real>, x: seq<real>, p: int) returns (acc: real)
    requires |h| == |x| == L_CODE && IsPosition(p)
    ensures acc == Dot(Echo(h, p), x, L_CODE)
  {
    hide Echo, Dot;
    acc := 0.0;
    DotBefore(h, p, x, p);
    var k := 0;
    while k < L_CODE - p
      invariant 0 <= k <= L_CODE - p && acc == Dot(Echo(h, p), x, p + k)
    {
      EchoAt(h, p, p + k);
      DotNext(Echo(h, p), x, p + k, h[k]);
      acc := acc + h[k] * x[p + k];
      k := k + 1;
    }
  }

  /** The sums of cor_h: the response against itself ii positions later. */
  function Auto(h: seq<real>, ii: nat, k: nat): real
    requires ii + k <= |h|
  {
    if k == 0 then 0.0 else Auto(h, ii, k - 1) + h[k - 1] * h[k - 1 + ii]
  }

  lemma {:induction false} DotIsAuto(h: seq<real>, i: int, j: int, k: nat)
    requires |h| == L_CODE && 0 <= i <= j < L_CODE && j + k <= L_CODE
    ensures Dot(Echo(h, i), Echo(h, j), j + k) == Auto(h, j - i, k)
  {
    hide Echo;
    if k == 0 {
      DotCommutes(Echo(h, i), Echo(h, j), j);
      DotBefore(h, j, Echo(h, i), j);
    } else {
      DotIsAuto(h, i, j, k - 1);
      EchoAt(h, i, j + k - 1);
      EchoAt(h, j, j + k - 1);
    }
  }

  /** The matrix entry between i and j. */
  function Entry(h: seq<real>, sign: seq<real>, i: int, j: int): real
    requires |h| == |sign| == L_CODE && IsPosition(i) && IsPosition(j)
  {
    sign[i] * sign[j] * Dot(Echo(h, i), Echo(h, j), L_CODE)
  }

  lemma EntryBySum(h: seq<real>, sign: seq<real>, ii: nat, k: nat)
    requires |h| == L_CODE && AreSigns(sign) && ii + k < L_CODE
    ensures var j := 39 - k; var i := j - ii; var sum := Auto(h, ii, k + 1);
            && sum * sign[i] * sign[j] == Entry(h, sign, i, j) == Entry(h, sign, j, i)
            && (ii == 0 ==> sum == Entry(h, sign, j, j))
  {
    hide Auto, Echo, Dot;
    var j := 39 - k;
    var i := j - ii;
    DotIsAuto(h, i, j, k + 1);
    DotCommutes(Echo(h, i), Echo(h, j), L_CODE);
    Signs(sign[i], sign[j], Auto(h, ii, k + 1));
  }

  lemma Signs(a: real, b: real, v: real)
    requires (a == 1.0 || a == -1.0) && (b == 1.0 || b == -1.0)
    ensures v * a * b == a * b * v == b * a * v && a * a * v == v
  {}

  /** The two positions are less than ii apart, or ii apart and behind the first k pairs. */
  predicate Covered(i: int, j: int, ii: int, k: int) {
    var far := if i <= j then j - i else i - j;
    var last := if i <= j then j else i;
    far < ii || (far == ii && last > 39 - k)
  }

  ghost predicate Filled(rr: array2<real>, h: seq<real>, sign: seq<real>, ii: int, k: int)
    requires rr.Length0 == rr.Length1 == |h| == |sign| == L_CODE
    reads rr
  {
    forall i, j :: 0 <= i < L_CODE && 0 <= j < L_CODE && Covered(i, j, ii, k) ==> rr[i, j] == Entry(h, sign, i, j)
  }

  lemma CoveredNext(ii: int, k: int)
    ensures forall i, j :: Covered(i, j, ii, k + 1) ==>
              Covered(i, j, ii, k) || (i == 39 - k && j == i - ii) || (j == 39 - k && i == j - ii)
    ensures ii + k == 40 ==> forall i, j :: 0 <= i < L_CODE && 0 <= j < L_CODE && Covered(i, j, ii + 1, 0) ==>
            Covered(i, j, ii, k)
  {}

  /** cor_h: the diagonal first, then the parallels to it, each from the lower right up. The source
      unrolls the loops. */
  method CorH(h: seq<real>, sign: seq<real>, rr: array2<real>)
    requires |h| == L_CODE && AreSigns(sign) && rr.Length0 == rr.Length1 == L_CODE
    modifies rr
    ensures forall i, j :: 0 <= i < L_CODE && 0 <= j < L_CODE ==> rr[i, j] == Entry(h, sign, i, j)
  {
    hide Entry, Covered, Auto;
    Diagonal(h, sign, rr);
    var ii := 1;
    while ii < L_CODE
      invariant 1 <= ii <= L_CODE && Filled(rr, h, sign, ii, 0)
    {
      Parallel(h, sign, rr, ii);
      ii := ii + 1;
    }
    AllCovered();
  }

  lemma AllCovered()
    ensures forall i, j :: 0 <= i < L_CODE && 0 <= j < L_CODE ==> Covered(i, j, L_CODE, 0)
    ensures forall i, j :: !(0 <= i < L_CODE && 0 <= j < L_CODE && Covered(i, j, 0, 0))
  {}

  method Diagonal(h: seq<real>, sign: seq<real>, rr: array2<real>)
    requires |h| == L_CODE && AreSigns(sign) && rr.Length0 == rr.Length1 == L_CODE
    modifies rr
    ensures Filled(rr, h, sign, 1, 0)
  {
    hide Entry, Covered;
    var sum := 0.0;
    var k := 0;
    AllCovered();
    while k < L_CODE
      invariant 0 <= k <= L_CODE && sum == Auto(h, 0, k) && Filled(rr, h, sign, 0, k)
    {
      CoveredNext(0, k);
      EntryBySum(h, sign, 0, k);
      sum := sum + h[k] * h[k];
      rr[39 - k, 39 - k] := sum;
      k := k + 1;
    }
    CoveredNext(0, L_CODE);
  }

  method Parallel(h: seq<real>, sign: seq<real>, rr: array2<real>, ii: int)
    requires |h| == L_CODE && AreSigns(sign) && rr.Length0 == rr.Length1 == L_CODE && 1 <= ii < L_CODE
    requires Filled(rr, h, sign, ii, 0)
    modifies rr
    ensures Filled(rr, h, sign, ii + 1, 0)
  {
    hide Entry, Covered;
    var sum := 0.0;
    var k := 0;
    while k < L_CODE - ii
      invariant 0 <= k <= L_CODE - ii && sum == Auto(h, ii, k) && Filled(rr, h, sign, ii, k)
    {
      var j := 39 - k;
      var i := j - ii;
      CoveredNext(ii, k);
      EntryBySum(h, sign, ii, k);
      sum := sum + h[k] * h[k + ii];
      rr[i, j] := sum * sign[i] * sign[j];
      rr[j, i] := rr[i, j];
      k := k + 1;
    }
    CoveredNext(ii, k);
  }

  /** The matrix as the search reads it. */
  function Rows(rr: array2<real>): (m: seq<seq<real>>)
    requires rr.Length0 == rr.Length1 == L_CODE
    reads rr
    ensures IsMatrix(m) && forall i, j :: 0 <= i < L_CODE && 0 <= j < L_CODE ==> m[i][j] == rr[i, j]
  {
    seq(L_CODE, i requires 0 <= i < L_CODE reads rr =>
      seq(L_CODE, j requires 0 <= j < L_CODE reads rr => rr[i, j]))
  }
}
