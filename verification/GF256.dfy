/**
  The finite field GF(2^8) of FIPS-197 section 4, and the facts about its generator
  {03} that justify computing products and inverses through logarithm tables.

  Proofs above the bit level hide the operations and use them through the small
  lemmas below, so that the solver never has to expand sums of bytes into bits.
 */
module GF256 {

  // ---------- Operations ----------

  /** Addition of field elements (FIPS-197 section 4.1). */
  function Add(a: bv8, b: bv8): bv8 {
    a ^ b
  }

  /** Multiplication by x (FIPS-197 section 4.2.1). */
  function Xtime(b: bv8): bv8 {
    (b << 1) ^ ((b >> 7) * 0x1B)
  }

  /** Multiplication of field elements: repeated `Xtime`, adding up the intermediate
      results selected by the bits of `a`. */
  function GMul(a: bv8, b: bv8): bv8
    decreases a
  {
    if a == 0 then 0
    else if a & 1 != 0 then Add(b, GMul(a >> 1, Xtime(b)))
    else GMul(a >> 1, Xtime(b))
  }

  /** Multiplication by {03}, the step of the table generation loop. */
  function Times3(b: bv8): bv8 {
    Add(b, Xtime(b))
  }

  /** The powers of the generator {03}. */
  function Pow3(n: nat): bv8 {
    if n == 0 then 1 else Times3(Pow3(n - 1))
  }

  // ---------- Bit-level facts ----------

  lemma AddZero(a: bv8)
    ensures Add(a, 0) == a && Add(0, a) == a && Add(a, a) == 0
  {}

  lemma AddCommutes(a: bv8, b: bv8)
    ensures Add(a, b) == Add(b, a)
  {}

  lemma AddAssociates(a: bv8, b: bv8, c: bv8)
    ensures Add(Add(a, b), c) == Add(a, Add(b, c))
  {}

  lemma XtimeAdd(a: bv8, b: bv8)
    ensures Xtime(Add(a, b)) == Add(Xtime(a), Xtime(b))
  {}

  lemma AddShuffle(a: bv8, b: bv8, c: bv8, d: bv8)
    ensures Add(Add(a, b), Add(c, d)) == Add(Add(a, c), Add(b, d))
  {
    hide *;
    AddAssociates(a, b, Add(c, d));
    AddAssociates(b, c, d);
    AddCommutes(b, c);
    AddAssociates(c, b, d);
    AddAssociates(a, c, Add(b, d));
  }

  lemma HalfAdd(a: bv8, b: bv8)
    ensures Add(a, b) >> 1 == Add(a >> 1, b >> 1)
    ensures (Add(a, b) & 1 != 0) == ((a & 1 != 0) != (b & 1 != 0))
  {}

  // ---------- Multiplication is bilinear ----------

  lemma GMulZeroRight(a: bv8)
    ensures GMul(a, 0) == 0
    decreases a
  {
    assert Xtime(0) == 0;
    AddZero(0);
    if a == 0 {
    } else {
      GMulZeroRight(a >> 1);
    }
  }

  /** One unfolding, which also holds of a zero multiplier. */
  lemma GMulStep(a: bv8, b: bv8)
    ensures GMul(a, b) == Add(if a & 1 != 0 then b else 0, GMul(a >> 1, Xtime(b)))
  {
    hide Add, Xtime;
    AddZero(GMul(a >> 1, Xtime(b)));
  }

  lemma {:induction false} GMulAddRight(a: bv8, b: bv8, c: bv8)
    ensures GMul(a, Add(b, c)) == Add(GMul(a, b), GMul(a, c))
    decreases a
  {
    hide Xtime, Add;
    if a == 0 {
      AddZero(0);
    } else {
      XtimeAdd(b, c);
      GMulAddRight(a >> 1, Xtime(b), Xtime(c));
      AddShuffle(b, c, GMul(a >> 1, Xtime(b)), GMul(a >> 1, Xtime(c)));
    }
  }

  lemma {:induction false} GMulXtimeRight(a: bv8, b: bv8)
    ensures GMul(a, Xtime(b)) == Xtime(GMul(a, b))
    decreases a
  {
    if a == 0 {
    } else {
      hide Xtime, Add;
      XtimeAdd(b, GMul(a >> 1, Xtime(b)));
      GMulXtimeRight(a >> 1, Xtime(b));
    }
  }

  lemma LowBitAdd(a: bv8, b: bv8, c: bv8)
    ensures Add(if a & 1 != 0 then c else 0, if b & 1 != 0 then c else 0) ==
            if Add(a, b) & 1 != 0 then c else 0
  {
    HalfAdd(a, b);
    AddZero(c);
    AddZero(0);
    hide Add;
  }

  lemma HalfBounded(m: bv8, a: bv8)
    requires a <= m
    ensures a >> 1 <= m >> 1
    ensures m != 0 ==> m >> 1 < m
  {}

  /** Distributivity for multipliers bounded by `m`, by induction on the bits of `m`. */
  lemma {:induction false} GMulAddLeftUpTo(m: bv8, a: bv8, b: bv8, c: bv8)
    requires a <= m && b <= m
    ensures GMul(Add(a, b), c) == Add(GMul(a, c), GMul(b, c))
    decreases m
  {
    hide *;
    if m == 0 {
      AddZero(0);
      GMulZeroLeft(c);
    } else {
      HalfBounded(m, a);
      HalfBounded(m, b);
      GMulAddLeftUpTo(m >> 1, a >> 1, b >> 1, Xtime(c));
      HalfAdd(a, b);
      LowBitAdd(a, b, c);
      GMulStep(a, c);
      GMulStep(b, c);
      GMulStep(Add(a, b), c);
      AddShuffle(if a & 1 != 0 then c else 0, if b & 1 != 0 then c else 0,
                 GMul(a >> 1, Xtime(c)), GMul(b >> 1, Xtime(c)));
    }
  }

  lemma GMulZeroLeft(b: bv8)
    ensures GMul(0, b) == 0
  {}

  lemma GMulAddLeft(a: bv8, b: bv8, c: bv8)
    ensures GMul(Add(a, b), c) == Add(GMul(a, c), GMul(b, c))
  {
    hide *;
    GMulAddLeftUpTo(0xFF, a, b, c);
  }

  /** The constant multiples used by the cipher, as sums of `Xtime` chains. */
  lemma GMulConstants(x: bv8)
    ensures GMul(1, x) == x
    ensures GMul(2, x) == Xtime(x)
    ensures GMul(3, x) == Times3(x)
    ensures GMul(9, x) == Add(x, Xtime(Xtime(Xtime(x))))
    ensures GMul(11, x) == Add(x, Add(Xtime(x), Xtime(Xtime(Xtime(x)))))
    ensures GMul(13, x) == Add(x, Add(Xtime(Xtime(x)), Xtime(Xtime(Xtime(x)))))
    ensures GMul(14, x) == Add(Xtime(x), Add(Xtime(Xtime(x)), Xtime(Xtime(Xtime(x)))))
  {
    hide Xtime, Add;
    assert GMul(0, x) == 0;
    var x1 := Xtime(x);
    var x2 := Xtime(x1);
    var x3 := Xtime(x2);
    AddZero(x); AddZero(x1); AddZero(x2); AddZero(x3);
    GMulStep(1, x3); GMulStep(1, x2); GMulStep(1, x1); GMulStep(1, x);
    GMulStep(2, x2); GMulStep(2, x1); GMulStep(2, x);
    GMulStep(3, x2); GMulStep(3, x1); GMulStep(3, x);
    GMulStep(4, x1); GMulStep(5, x1); GMulStep(6, x1); GMulStep(7, x1);
    GMulStep(9, x); GMulStep(11, x); GMulStep(13, x); GMulStep(14, x);
  }

  /** The field polynomial: x^8 = x^4 + x^3 + x + 1. */
  lemma XtimePower8(q: bv8)
    ensures var q4 := Xtime(Xtime(Xtime(Xtime(q))));
            Xtime(Xtime(Xtime(Xtime(q4)))) ==
            Add(q, Add(Xtime(q), Add(Xtime(Xtime(Xtime(q))), q4)))
  {}

  lemma XtimeReduction(q: bv8)
    ensures GMul(0x1B, q) == GMul(0x80, Xtime(q))
  {
    XtimePower8(q);
    hide Xtime, Add, GMul;
    var q1 := Xtime(q);
    var q2 := Xtime(q1);
    var q3 := Xtime(q2);
    var q4 := Xtime(q3);
    var q5 := Xtime(q4);
    var q6 := Xtime(q5);
    var q7 := Xtime(q6);
    var q8 := Xtime(q7);
    GMulConstants(q4);
    GMulConstants(q8);
    GMulStep(0x1B, q); GMulStep(0x0D, q1); GMulStep(6, q2); GMulStep(3, q3);
    AddZero(GMul(6, q2)); AddZero(GMul(3, q3)); AddZero(q4);
    GMulStep(0x80, q1); GMulStep(0x40, q2); GMulStep(0x20, q3); GMulStep(0x10, q4);
    GMulStep(8, q5); GMulStep(4, q6); GMulStep(2, q7);
    AddZero(GMul(0x40, q2)); AddZero(GMul(0x20, q3)); AddZero(GMul(0x10, q4)); AddZero(GMul(8, q5));
    AddZero(GMul(4, q6)); AddZero(GMul(2, q7)); AddZero(GMul(1, q8));
    GMulStep(3, q3);
  }

  lemma XtimeOfSmall(p: bv8)
    requires p & 0x80 == 0
    ensures Xtime(p) & 1 == 0 && Xtime(p) >> 1 == p
  {}

  lemma XtimeOfLarge(p: bv8)
    requires p & 0x80 != 0
    ensures p == Add(p & 0x7F, 0x80) && Xtime(p) == Add(Xtime(p & 0x7F), 0x1B)
  {}

  lemma GMulXtimeSmall(p: bv8, q: bv8)
    requires p & 0x80 == 0
    ensures GMul(Xtime(p), q) == GMul(p, Xtime(q))
  {
    hide Xtime, Add, GMul;
    XtimeOfSmall(p);
    GMulStep(Xtime(p), q);
    AddZero(GMul(p, Xtime(q)));
  }

  lemma GMulXtimeLeft(p: bv8, q: bv8)
    ensures GMul(Xtime(p), q) == GMul(p, Xtime(q))
  {
    hide *;
    if p & 0x80 == 0 {
      GMulXtimeSmall(p, q);
    } else {
      var p' := p & 0x7F;
      XtimeOfLarge(p);
      GMulXtimeSmall(p', q);
      GMulAddLeft(Xtime(p'), 0x1B, q);
      GMulAddLeft(p', 0x80, Xtime(q));
      XtimeReduction(q);
    }
  }

  // ---------- Powers of the generator ----------

  lemma GMulTimes3Left(p: bv8, q: bv8)
    ensures GMul(Times3(p), q) == Times3(GMul(p, q))
  {
    hide Add, Xtime, GMul;
    GMulAddLeft(p, Xtime(p), q);
    GMulXtimeLeft(p, q);
    GMulXtimeRight(p, q);
  }

  lemma {:induction false} Pow3Add(i: nat, j: nat)
    ensures GMul(Pow3(i), Pow3(j)) == Pow3(i + j)
  {
    hide Add, Xtime, GMul, Times3;
    if i == 0 {
      GMulConstants(Pow3(j));
    } else {
      GMulTimes3Left(Pow3(i - 1), Pow3(j));
      Pow3Add(i - 1, j);
    }
  }

  lemma Times3Injective(a: bv8, b: bv8)
    ensures Times3(a) == Times3(b) ==> a == b
  {}

  lemma {:induction false} Pow3NonZero(n: nat)
    ensures Pow3(n) != 0
  {
    if n == 0 {
    } else {
      Pow3NonZero(n - 1);
      Times3Injective(Pow3(n - 1), 0);
      assert Times3(0) == 0;
    }
  }

  /** {03}^17 is {e1}, so stepping by 17 is a multiplication by {e1}. */
  lemma Pow3Step17(n: nat)
    ensures var x5 := Xtime(Xtime(Xtime(Xtime(Xtime(Pow3(n))))));
            Pow3(n + 17) == Add(Pow3(n), Add(x5, Add(Xtime(x5), Xtime(Xtime(x5)))))
  {
    Pow3Values();
    Pow3Add(17, n);
    hide *;
    GMulBySeventeenth(Pow3(n));
  }

  lemma GMulBySeventeenth(x: bv8)
    ensures var x5 := Xtime(Xtime(Xtime(Xtime(Xtime(x)))));
            GMul(0xE1, x) == Add(x, Add(x5, Add(Xtime(x5), Xtime(Xtime(x5)))))
  {
    hide Xtime, Add, GMul;
    var x1 := Xtime(x);
    var x2 := Xtime(x1);
    var x3 := Xtime(x2);
    var x4 := Xtime(x3);
    var x5 := Xtime(x4);
    GMulConstants(Xtime(Xtime(x5)));
    GMulStep(0xE1, x); GMulStep(0x70, x1); GMulStep(0x38, x2); GMulStep(0x1C, x3); GMulStep(14, x4);
    GMulStep(7, x5); GMulStep(3, Xtime(x5));
    AddZero(GMul(0x38, x2)); AddZero(GMul(0x1C, x3)); AddZero(GMul(14, x4)); AddZero(GMul(7, x5));
  }

  lemma Pow3Values()
    ensures Pow3(15) == 0x35 && Pow3(17) == 0xE1
  {
    assert Pow3(4) == 0x11;
    assert Pow3(8) == 0x1A;
    assert Pow3(12) == 0xA1;
    assert Pow3(15) == 0x35;
  }

  /** The order of {03} is 255: its 255th power is {01}, and no maximal proper divisor of
      255 is a period. */
  lemma Pow3Order()
    ensures Pow3(255) == 1 && Pow3(85) != 1 && Pow3(51) != 1 && Pow3(15) != 1
  {
    Pow3Values();
    hide Pow3;
    Pow3Step17(17); Pow3Step17(34); Pow3Step17(51); Pow3Step17(68); Pow3Step17(85);
    Pow3Step17(102); Pow3Step17(119); Pow3Step17(136); Pow3Step17(153); Pow3Step17(170);
    Pow3Step17(187); Pow3Step17(204); Pow3Step17(221); Pow3Step17(238);
  }

  lemma {:induction false} Pow3Period(n: nat, d: nat, k: nat)
    requires Pow3(d) == 1
    ensures Pow3(n + k * d) == Pow3(n)
    decreases k
  {
    hide *;
    if k == 0 {
    } else {
      Pow3Period(n, d, k - 1);
      Pow3Add(d, n + (k - 1) * d);
      GMulConstants(Pow3(n + (k - 1) * d));
      assert d + (n + (k - 1) * d) == n + k * d;
    }
  }

  lemma PeriodMultiple(m: nat, d: nat)
    requires 0 < d && m % d == 0 && Pow3(d) == 1
    ensures Pow3(m) == 1
  {
    Pow3Period(0, d, m / d);
    assert 0 + m / d * d == m;
  }

  lemma SmallDivisorOf255(d: nat)
    requires 0 < d <= 15 && 255 % d == 0
    ensures d == 1 || d == 3 || d == 5 || d == 15
  {}

  lemma SmallFactorOf255(q: nat, d: nat)
    requires 2 <= q <= 15 && q * d == 255
    ensures d == 85 || d == 51 || d == 17
  {
    assert d == 255 / q;
  }

  lemma DivisorsOf255(d: nat)
    requires 0 < d < 255 && 255 % d == 0
    ensures 85 % d == 0 || 51 % d == 0 || 15 % d == 0
  {
    if d <= 15 {
      SmallDivisorOf255(d);
    } else {
      SmallFactorOf255(255 / d, d);
    }
  }

  lemma {:induction false} NoShortPeriod(d: nat)
    requires 0 < d < 255
    ensures Pow3(d) != 1
    decreases d
  {
    hide *;
    Pow3Order();
    if Pow3(d) == 1 {
      var r := 255 % d;
      Pow3Period(r, d, 255 / d);
      assert r + 255 / d * d == 255;
      if r != 0 {
        NoShortPeriod(r);
      } else {
        DivisorsOf255(d);
        if 85 % d == 0 {
          PeriodMultiple(85, d);
        } else if 51 % d == 0 {
          PeriodMultiple(51, d);
        } else {
          PeriodMultiple(15, d);
        }
      }
    }
  }

  lemma Pow3Zero()
    ensures Pow3(0) == 1
  {}

  lemma {:induction false} Pow3Cancel(i: nat, d: nat)
    requires Pow3(i) == Pow3(i + d)
    ensures Pow3(d) == 1
  {
    hide Times3;
    if i == 0 {
    } else {
      Times3Injective(Pow3(i - 1), Pow3(i - 1 + d));
      Pow3Cancel(i - 1, d);
    }
  }

  lemma Pow3Distinct(a: nat, b: nat)
    requires a < b < 255
    ensures Pow3(a) != Pow3(b)
  {
    hide *;
    NoShortPeriod(b - a);
    if Pow3(a) == Pow3(b) {
      Pow3Cancel(a, b - a);
    }
  }

  /** Exponents matter modulo 255, and only modulo 255. */
  lemma Pow3Equal(i: nat, j: nat)
    ensures Pow3(i) == Pow3(j) <==> i % 255 == j % 255
  {
    hide *;
    Pow3Order();
    Pow3Period(i % 255, 255, i / 255);
    Pow3Period(j % 255, 255, j / 255);
    var a, b := i % 255, j % 255;
    if a < b {
      Pow3Distinct(a, b);
    } else if b < a {
      Pow3Distinct(b, a);
    }
  }

  // ---------- The generator reaches every non-zero byte ----------

  /** A byte as a table index. */
  function Index(b: bv8): (i: nat)
    ensures i < 256
  {
    b as int
  }

  lemma IndexInjective(a: bv8, b: bv8)
    ensures Index(a) == Index(b) <==> a == b
    ensures Index(a) == 0 <==> a == 0
  {}

  lemma IndexSuccessor(b: bv8)
    ensures Index(b + 1) == if b + 1 == 0 then 0 else Index(b) + 1
    ensures b + 1 == 0 ==> Index(b) == 255
  {}

  ghost function PowersBelow(n: nat): set<nat> {
    if n == 0 then {} else PowersBelow(n - 1) + {Index(Pow3(n - 1))}
  }

  lemma PowersBelowMember(n: nat, v: nat) returns (i: nat)
    requires v in PowersBelow(n)
    ensures i < n && Index(Pow3(i)) == v
  {
    hide Pow3, Index;
    if v == Index(Pow3(n - 1)) {
      i := n - 1;
    } else {
      i := PowersBelowMember(n - 1, v);
    }
  }

  lemma {:induction false} PowersBelowSize(n: nat)
    requires n <= 255
    ensures |PowersBelow(n)| == n
  {
    hide Pow3, Index;
    if n == 0 {
    } else {
      PowersBelowSize(n - 1);
      var last := Index(Pow3(n - 1));
      if last in PowersBelow(n - 1) {
        var i := PowersBelowMember(n - 1, last);
        IndexInjective(Pow3(i), Pow3(n - 1));
        Pow3Equal(i, n - 1);
        assert false;
      }
    }
  }

  ghost function OneTo(n: nat): (s: set<nat>)
    ensures |s| == n
    ensures forall i :: i in s <==> 1 <= i <= n
  {
    if n == 0 then {} else OneTo(n - 1) + {n}
  }

  lemma SubsetOfSameSize<T>(a: set<T>, b: set<T>)
    requires a <= b && |a| == |b|
    ensures a == b
  {
    assert |b - a| == |b| - |a|;
  }

  lemma LogExists(x: bv8)
    requires x != 0
    ensures exists i: nat :: i < 255 && Pow3(i) == x
  {
    hide Pow3, Index;
    var all := OneTo(255);
    forall v | v in PowersBelow(255)
      ensures v in all
    {
      var i := PowersBelowMember(255, v);
      Pow3NonZero(i);
      IndexInjective(Pow3(i), 0);
    }
    PowersBelowSize(255);
    SubsetOfSameSize(PowersBelow(255), all);
    IndexInjective(x, 0);
    assert Index(x) in all;
    var i := PowersBelowMember(255, Index(x));
    IndexInjective(Pow3(i), x);
  }

  // ---------- Logarithms and inverses ----------

  /** The discrete logarithm to base {03}. */
  ghost function Log3(x: bv8): (i: nat)
    requires x != 0
    ensures i < 255 && Pow3(i) == x
  {
    LogExists(x);
    var i: nat :| i < 255 && Pow3(i) == x;
    i
  }

  lemma InverseExists(b: bv8)
    requires b != 0
    ensures GMul(b, Pow3(255 - Log3(b))) == 1
  {
    hide *;
    Pow3Add(Log3(b), 255 - Log3(b));
    Pow3Order();
  }

  /** The multiplicative inverse, with {00} mapped to itself (FIPS-197 section 5.1.1). */
  ghost function Inv(b: bv8): (c: bv8)
    ensures b == 0 ==> c == 0
    ensures b != 0 ==> GMul(b, c) == 1
  {
    if b == 0 then 0
    else
      InverseExists(b);
      var c :| GMul(b, c) == 1;
      c
  }

  lemma InverseUnique(b: bv8, c: bv8)
    requires GMul(b, c) == 1
    ensures b != 0 && c == Pow3(255 - Log3(b)) == Inv(b)
  {
    assert GMul(0, c) == 0;
    GMulZeroRight(b);
    hide GMul, Pow3;
    InverseIsPower(b, c);
    InverseIsPower(b, Inv(b));
  }

  lemma InverseIsPower(b: bv8, c: bv8)
    requires b != 0 && c != 0 && GMul(b, c) == 1
    ensures c == Pow3(255 - Log3(b))
  {
    hide *;
    Pow3Add(Log3(b), Log3(c));
    Pow3Zero();
    Pow3Equal(0, Log3(b) + Log3(c));
    Pow3Equal(Log3(c), 255 - Log3(b));
  }

  /** Taking inverses is an involution, so it permutes the field. */
  lemma InvInvolution(b: bv8)
    ensures Inv(Inv(b)) == b
  {
    if b != 0 {
      hide *;
      var c := Inv(b);
      InverseUnique(b, c);
      Pow3NonZero(255 - Log3(b));
      Pow3Add(Log3(b), Log3(c));
      Pow3Add(Log3(c), Log3(b));
      InverseUnique(c, b);
    }
  }

  lemma Pow3Mod(n: nat)
    ensures Pow3(n) == Pow3(n % 255)
  {
    hide *;
    Pow3Order();
    Pow3Period(n % 255, 255, n / 255);
  }

  /** A product is the power at the sum of the logarithms, taken modulo 255. */
  lemma GMulByLogs(i: nat, j: nat)
    ensures GMul(Pow3(i), Pow3(j)) == Pow3((i + j) % 255)
  {
    hide *;
    Pow3Add(i, j);
    Pow3Mod(i + j);
  }
}
