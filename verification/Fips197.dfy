/**
  The AES cipher as FIPS-197 defines it: byte substitution through the field inverse,
  row shifts, column mixing over GF(2^8), and key expansion. Everything here is the plain
  reference against which the table-driven code of C/AES/aes.cpp is proved.
 */
module Fips197 {
  import opened GF256

  /** A column of the state, or a word of the key schedule; `b0` is the first byte. */
  datatype Word = Word(b0: bv8, b1: bv8, b2: bv8, b3: bv8)

  /** The state, by columns (section 3.4). */
  datatype State = State(c0: Word, c1: Word, c2: Word, c3: Word)

  // ---------- Substitution (sections 5.1.1 and 5.3.2) ----------

  function RotateLeft1(b: bv8): bv8 {
    (b << 1) | (b >> 7)
  }

  /** The affine transformation, as a sum of five rotations. */
  function Affine(b: bv8): bv8 {
    var r1 := RotateLeft1(b);
    var r2 := RotateLeft1(r1);
    var r3 := RotateLeft1(r2);
    b ^ r1 ^ r2 ^ r3 ^ RotateLeft1(r3) ^ 0x63
  }

  /** Bit i of the result is b_i + b_(i+4) + b_(i+5) + b_(i+6) + b_(i+7) + c_i, indices
      modulo 8, c = {63}: equation (5.1) of the standard. */
  lemma AffineByBits(b: bv8)
    ensures Affine(b) & 1 == (b ^ (b >> 4) ^ (b >> 5) ^ (b >> 6) ^ (b >> 7) ^ 1) & 1
    ensures (Affine(b) >> 1) & 1 == ((b >> 1) ^ (b >> 5) ^ (b >> 6) ^ (b >> 7) ^ b ^ 1) & 1
    ensures (Affine(b) >> 2) & 1 == ((b >> 2) ^ (b >> 6) ^ (b >> 7) ^ b ^ (b >> 1)) & 1
    ensures (Affine(b) >> 3) & 1 == ((b >> 3) ^ (b >> 7) ^ b ^ (b >> 1) ^ (b >> 2)) & 1
    ensures (Affine(b) >> 4) & 1 == ((b >> 4) ^ b ^ (b >> 1) ^ (b >> 2) ^ (b >> 3)) & 1
    ensures (Affine(b) >> 5) & 1 == ((b >> 5) ^ (b >> 1) ^ (b >> 2) ^ (b >> 3) ^ (b >> 4) ^ 1) & 1
    ensures (Affine(b) >> 6) & 1 == ((b >> 6) ^ (b >> 2) ^ (b >> 3) ^ (b >> 4) ^ (b >> 5) ^ 1) & 1
    ensures (Affine(b) >> 7) & 1 == ((b >> 7) ^ (b >> 3) ^ (b >> 4) ^ (b >> 5) ^ (b >> 6)) & 1
  {}

  function InvAffine(b: bv8): bv8 {
    ((b << 1) | (b >> 7)) ^ ((b << 3) | (b >> 5)) ^ ((b << 6) | (b >> 2)) ^ 0x05
  }

  lemma AffineInverse(b: bv8)
    ensures InvAffine(Affine(b)) == b && Affine(InvAffine(b)) == b
  {}

  ghost function Sbox(b: bv8): bv8 {
    Affine(Inv(b))
  }

  ghost function InvSbox(b: bv8): bv8 {
    Inv(InvAffine(b))
  }

  /** The two substitutions undo each other on every byte. */
  lemma SboxInverse(b: bv8)
    ensures InvSbox(Sbox(b)) == b && Sbox(InvSbox(b)) == b
  {
    hide Affine, InvAffine, Inv;
    AffineInverse(Inv(b));
    AffineInverse(b);
    InvInvolution(b);
    InvInvolution(InvAffine(b));
  }

  // ---------- Columns (sections 5.1.3 and 5.3.3) ----------

  function WAdd(v: Word, w: Word): Word {
    Word(Add(v.b0, w.b0), Add(v.b1, w.b1), Add(v.b2, w.b2), Add(v.b3, w.b3))
  }

  function Sum4(a: bv8, b: bv8, c: bv8, d: bv8): bv8 {
    Add(Add(a, b), Add(c, d))
  }

  /** A row of a matrix over the field, applied to a column. */
  function Dot(k0: bv8, k1: bv8, k2: bv8, k3: bv8, w: Word): bv8 {
    Sum4(GMul(k0, w.b0), GMul(k1, w.b1), GMul(k2, w.b2), GMul(k3, w.b3))
  }

  function MixColumn(w: Word): Word {
    Word(Dot(2, 3, 1, 1, w), Dot(1, 2, 3, 1, w), Dot(1, 1, 2, 3, w), Dot(3, 1, 1, 2, w))
  }

  function InvMixColumn(w: Word): Word {
    Word(Dot(14, 11, 13, 9, w), Dot(9, 14, 11, 13, w), Dot(13, 9, 14, 11, w), Dot(11, 13, 9, 14, w))
  }

  lemma Sum4Add(a: bv8, b: bv8, c: bv8, d: bv8, a': bv8, b': bv8, c': bv8, d': bv8)
    ensures Sum4(Add(a, a'), Add(b, b'), Add(c, c'), Add(d, d')) ==
            Add(Sum4(a, b, c, d), Sum4(a', b', c', d'))
  {
    hide Add;
    AddShuffle(a, a', b, b');
    AddShuffle(c, c', d, d');
    AddShuffle(Add(a, b), Add(a', b'), Add(c, d), Add(c', d'));
  }

  lemma DotAdd(k0: bv8, k1: bv8, k2: bv8, k3: bv8, v: Word, w: Word)
    ensures Dot(k0, k1, k2, k3, WAdd(v, w)) == Add(Dot(k0, k1, k2, k3, v), Dot(k0, k1, k2, k3, w))
  {
    hide Add, GMul, Sum4;
    GMulAddRight(k0, v.b0, w.b0);
    GMulAddRight(k1, v.b1, w.b1);
    GMulAddRight(k2, v.b2, w.b2);
    GMulAddRight(k3, v.b3, w.b3);
    Sum4Add(GMul(k0, v.b0), GMul(k1, v.b1), GMul(k2, v.b2), GMul(k3, v.b3),
            GMul(k0, w.b0), GMul(k1, w.b1), GMul(k2, w.b2), GMul(k3, w.b3));
  }

  /** Inverse column mixing is linear, which lets it move across AddRoundKey (section 5.3.5). */
  lemma InvMixColumnLinear(v: Word, w: Word)
    ensures InvMixColumn(WAdd(v, w)) == WAdd(InvMixColumn(v), InvMixColumn(w))
  {
    hide Dot, Add;
    DotAdd(14, 11, 13, 9, v, w);
    DotAdd(9, 14, 11, 13, v, w);
    DotAdd(13, 9, 14, 11, v, w);
    DotAdd(11, 13, 9, 14, v, w);
  }

  /** The sum over a column of two matrices: an entry of their product, applied to `x`. */
  function Entry(k0: bv8, k1: bv8, k2: bv8, k3: bv8, m0: bv8, m1: bv8, m2: bv8, m3: bv8, x: bv8): bv8 {
    Sum4(GMul(k0, GMul(m0, x)), GMul(k1, GMul(m1, x)), GMul(k2, GMul(m2, x)), GMul(k3, GMul(m3, x)))
  }

  lemma GMulSum4(k: bv8, a: bv8, b: bv8, c: bv8, d: bv8)
    ensures GMul(k, Sum4(a, b, c, d)) == Sum4(GMul(k, a), GMul(k, b), GMul(k, c), GMul(k, d))
  {
    hide Add, GMul;
    GMulAddRight(k, Add(a, b), Add(c, d));
    GMulAddRight(k, a, b);
    GMulAddRight(k, c, d);
  }

  /** A row of a matrix after column mixing: the product row, entry by entry. */
  lemma DotMix(k0: bv8, k1: bv8, k2: bv8, k3: bv8, w: Word)
    ensures Dot(k0, k1, k2, k3, MixColumn(w)) ==
            Sum4(Entry(k0, k1, k2, k3, 2, 1, 1, 3, w.b0), Entry(k0, k1, k2, k3, 3, 2, 1, 1, w.b1),
                 Entry(k0, k1, k2, k3, 1, 3, 2, 1, w.b2), Entry(k0, k1, k2, k3, 1, 1, 3, 2, w.b3))
  {
    hide Add, GMul, Sum4;
    var a, b, c, d := w.b0, w.b1, w.b2, w.b3;
    GMulSum4(k0, GMul(2, a), GMul(3, b), GMul(1, c), GMul(1, d));
    GMulSum4(k1, GMul(1, a), GMul(2, b), GMul(3, c), GMul(1, d));
    GMulSum4(k2, GMul(1, a), GMul(1, b), GMul(2, c), GMul(3, d));
    GMulSum4(k3, GMul(3, a), GMul(1, b), GMul(1, c), GMul(2, d));
    Sum4Transpose(
      GMul(k0, GMul(2, a)), GMul(k0, GMul(3, b)), GMul(k0, GMul(1, c)), GMul(k0, GMul(1, d)),
      GMul(k1, GMul(1, a)), GMul(k1, GMul(2, b)), GMul(k1, GMul(3, c)), GMul(k1, GMul(1, d)),
      GMul(k2, GMul(1, a)), GMul(k2, GMul(1, b)), GMul(k2, GMul(2, c)), GMul(k2, GMul(3, d)),
      GMul(k3, GMul(3, a)), GMul(k3, GMul(1, b)), GMul(k3, GMul(1, c)), GMul(k3, GMul(2, d)));
  }

  lemma Sum4Transpose(a0: bv8, a1: bv8, a2: bv8, a3: bv8, b0: bv8, b1: bv8, b2: bv8, b3: bv8,
                      c0: bv8, c1: bv8, c2: bv8, c3: bv8, d0: bv8, d1: bv8, d2: bv8, d3: bv8)
    ensures Sum4(Sum4(a0, a1, a2, a3), Sum4(b0, b1, b2, b3), Sum4(c0, c1, c2, c3), Sum4(d0, d1, d2, d3)) ==
            Sum4(Sum4(a0, b0, c0, d0), Sum4(a1, b1, c1, d1), Sum4(a2, b2, c2, d2), Sum4(a3, b3, c3, d3))
  {
    hide Add;
    Sum4Add(a0, a1, a2, a3, b0, b1, b2, b3);
    Sum4Add(c0, c1, c2, c3, d0, d1, d2, d3);
    Sum4Add(Add(a0, b0), Add(a1, b1), Add(a2, b2), Add(a3, b3), Add(c0, d0), Add(c1, d1), Add(c2, d2), Add(c3, d3));
  }

  /** Sums in which each term occurs twice, or all but those on the right-hand side do. */
  lemma Cancel0(a: bv8, b: bv8, c: bv8, d: bv8, e: bv8)
    ensures Add(Add(c, Add(d, e)), Add(a, Add(b, d))) == Add(Add(a, c), Add(b, e))
  {}

  lemma Cancel0Rest(a: bv8, c: bv8, d: bv8, y: bv8)
    ensures Add(Add(a, Add(c, d)), Add(Add(a, d), y)) == Add(c, y) && Add(Add(Add(a, c), y), Add(c, y)) == a
  {}

  lemma Cancel1(b: bv8, c: bv8, d: bv8, e: bv8)
    ensures Add(Add(b, Add(c, d)), Add(c, Add(d, e))) == Add(b, e)
  {}

  lemma Cancel1Next(b: bv8, c: bv8, e: bv8)
    ensures Add(Add(b, e), Add(b, Add(c, e))) == c
  {}

  lemma Cancel1Rest(a: bv8, c: bv8, d: bv8)
    ensures Add(Add(a, Add(c, d)), Add(a, d)) == c
  {}

  lemma Cancel2(a: bv8, b: bv8, c: bv8, d: bv8, e: bv8)
    ensures Add(Add(a, Add(b, d)), Add(b, Add(c, e))) == Add(Add(a, d), Add(c, e))
  {}

  lemma Cancel2Next(a: bv8, b: bv8, c: bv8, d: bv8, e: bv8)
    ensures Add(Add(b, Add(c, d)), Add(Add(a, d), Add(c, e))) == Add(a, Add(b, e))
  {}

  lemma Cancel2Rest(a: bv8, b: bv8, d: bv8, e: bv8)
    ensures Add(Add(b, Add(d, e)), Add(a, d)) == Add(a, Add(b, e))
  {}

  lemma Cancel3(a: bv8, b: bv8, c: bv8, d: bv8)
    ensures Add(Add(b, Add(c, d)), Add(a, Add(b, d))) == Add(a, c)
  {}

  lemma Cancel3Next(a: bv8, b: bv8, c: bv8, d: bv8, e: bv8)
    ensures Add(Add(a, Add(c, d)), Add(b, Add(d, e))) == Add(Add(a, c), Add(b, e))
  {}

  lemma Cancel3Rest(x: bv8, y: bv8)
    ensures Add(Add(x, y), y) == x
  {}

  /** The product of the two mixing matrices is the identity: its first row ... */
  lemma MixRow(x: bv8)
    ensures Entry(14, 11, 13, 9, 2, 1, 1, 3, x) == x
    ensures Entry(14, 11, 13, 9, 3, 2, 1, 1, x) == 0
    ensures Entry(14, 11, 13, 9, 1, 3, 2, 1, x) == 0
    ensures Entry(14, 11, 13, 9, 1, 1, 3, 2, x) == 0
  {
    hide Add, Xtime, GMul;
    var b := Xtime(x);
    var c := Xtime(b);
    var d := Xtime(c);
    var e := Xtime(d);
    GMulConstants(x);
    GMulConstants(b);
    GMulAddRight(14, x, b);
    GMulAddRight(11, x, b);
    GMulAddRight(13, x, b);
    GMulAddRight(9, x, b);
    Cancel0(x, b, c, d, e);
    Cancel0Rest(x, c, d, Add(b, e));
    Cancel1(b, c, d, e);
    Cancel1Next(b, c, e);
    Cancel1Rest(x, c, d);
    Cancel2(x, b, c, d, e);
    Cancel2Next(x, b, c, d, e);
    Cancel2Rest(x, b, d, e);
    Cancel3(x, b, c, d);
    Cancel3Next(x, b, c, d, e);
    Cancel3Rest(Add(x, c), Add(b, e));
    AddZero(c);
    AddZero(Add(x, Add(b, e)));
    AddZero(Add(x, c));
  }

  /** ... and, both matrices being circulant, the other rows as rotations of it. */
  lemma EntryRotate(k0: bv8, k1: bv8, k2: bv8, k3: bv8, m0: bv8, m1: bv8, m2: bv8, m3: bv8, x: bv8)
    ensures Entry(k3, k0, k1, k2, m3, m0, m1, m2, x) == Entry(k0, k1, k2, k3, m0, m1, m2, m3, x)
  {
    hide Add, GMul;
    var a, b, c, d := GMul(k0, GMul(m0, x)), GMul(k1, GMul(m1, x)), GMul(k2, GMul(m2, x)), GMul(k3, GMul(m3, x));
    AddCommutes(d, a);
    AddCommutes(b, c);
    AddShuffle(a, d, c, b);
    AddCommutes(d, b);
    AddShuffle(a, c, b, d);
    AddShuffle(a, c, d, b);
  }

  lemma DotOfMixed(r: nat, w: Word)
    requires r < 4
    ensures r == 0 ==> Dot(14, 11, 13, 9, MixColumn(w)) == w.b0
    ensures r == 1 ==> Dot(9, 14, 11, 13, MixColumn(w)) == w.b1
    ensures r == 2 ==> Dot(13, 9, 14, 11, MixColumn(w)) == w.b2
    ensures r == 3 ==> Dot(11, 13, 9, 14, MixColumn(w)) == w.b3
  {
    hide Dot, MixColumn, Add, GMul, Entry;
    var x := if r == 0 then w.b0 else if r == 1 then w.b1 else if r == 2 then w.b2 else w.b3;
    AddZero(x);
    AddZero(0);
    MixEntries(w.b0);
    MixEntries(w.b1);
    MixEntries(w.b2);
    MixEntries(w.b3);
    DotMix(14, 11, 13, 9, w);
    DotMix(9, 14, 11, 13, w);
    DotMix(13, 9, 14, 11, w);
    DotMix(11, 13, 9, 14, w);
  }

  lemma MixEntries(x: bv8)
    ensures Entry(14, 11, 13, 9, 2, 1, 1, 3, x) == x && Entry(14, 11, 13, 9, 3, 2, 1, 1, x) == 0
    ensures Entry(14, 11, 13, 9, 1, 3, 2, 1, x) == 0 && Entry(14, 11, 13, 9, 1, 1, 3, 2, x) == 0
    ensures Entry(9, 14, 11, 13, 2, 1, 1, 3, x) == 0 && Entry(9, 14, 11, 13, 3, 2, 1, 1, x) == x
    ensures Entry(9, 14, 11, 13, 1, 3, 2, 1, x) == 0 && Entry(9, 14, 11, 13, 1, 1, 3, 2, x) == 0
    ensures Entry(13, 9, 14, 11, 2, 1, 1, 3, x) == 0 && Entry(13, 9, 14, 11, 3, 2, 1, 1, x) == 0
    ensures Entry(13, 9, 14, 11, 1, 3, 2, 1, x) == x && Entry(13, 9, 14, 11, 1, 1, 3, 2, x) == 0
    ensures Entry(11, 13, 9, 14, 2, 1, 1, 3, x) == 0 && Entry(11, 13, 9, 14, 3, 2, 1, 1, x) == 0
    ensures Entry(11, 13, 9, 14, 1, 3, 2, 1, x) == 0 && Entry(11, 13, 9, 14, 1, 1, 3, 2, x) == x
  {
    hide *;
    MixRow(x);
    EntryRotate(14, 11, 13, 9, 2, 1, 1, 3, x); EntryRotate(14, 11, 13, 9, 3, 2, 1, 1, x);
    EntryRotate(14, 11, 13, 9, 1, 3, 2, 1, x); EntryRotate(14, 11, 13, 9, 1, 1, 3, 2, x);
    EntryRotate(9, 14, 11, 13, 2, 1, 1, 3, x); EntryRotate(9, 14, 11, 13, 3, 2, 1, 1, x);
    EntryRotate(9, 14, 11, 13, 1, 3, 2, 1, x); EntryRotate(9, 14, 11, 13, 1, 1, 3, 2, x);
    EntryRotate(13, 9, 14, 11, 2, 1, 1, 3, x); EntryRotate(13, 9, 14, 11, 3, 2, 1, 1, x);
    EntryRotate(13, 9, 14, 11, 1, 3, 2, 1, x); EntryRotate(13, 9, 14, 11, 1, 1, 3, 2, x);
  }

  lemma InvMixColumnInverse(w: Word)
    ensures InvMixColumn(MixColumn(w)) == w
  {
    hide Dot, MixColumn;
    DotOfMixed(0, w);
    DotOfMixed(1, w);
    DotOfMixed(2, w);
    DotOfMixed(3, w);
  }

  lemma WAddCancel(v: Word, k: Word)
    ensures WAdd(WAdd(v, k), k) == v
  {
    hide Add;
    AddAssociates(v.b0, k.b0, k.b0); AddZero(k.b0); AddZero(v.b0);
    AddAssociates(v.b1, k.b1, k.b1); AddZero(k.b1); AddZero(v.b1);
    AddAssociates(v.b2, k.b2, k.b2); AddZero(k.b2); AddZero(v.b2);
    AddAssociates(v.b3, k.b3, k.b3); AddZero(k.b3); AddZero(v.b3);
  }

  // ---------- The state transformations (sections 5.1 and 5.3) ----------

  ghost function SubWord(w: Word): Word {
    Word(Sbox(w.b0), Sbox(w.b1), Sbox(w.b2), Sbox(w.b3))
  }

  ghost function InvSubWord(w: Word): Word {
    Word(InvSbox(w.b0), InvSbox(w.b1), InvSbox(w.b2), InvSbox(w.b3))
  }

  ghost function SubBytes(s: State): State {
    State(SubWord(s.c0), SubWord(s.c1), SubWord(s.c2), SubWord(s.c3))
  }

  ghost function InvSubBytes(s: State): State {
    State(InvSubWord(s.c0), InvSubWord(s.c1), InvSubWord(s.c2), InvSubWord(s.c3))
  }

  /** Row r moves r places to the left. */
  function ShiftRows(s: State): State {
    State(Word(s.c0.b0, s.c1.b1, s.c2.b2, s.c3.b3), Word(s.c1.b0, s.c2.b1, s.c3.b2, s.c0.b3),
          Word(s.c2.b0, s.c3.b1, s.c0.b2, s.c1.b3), Word(s.c3.b0, s.c0.b1, s.c1.b2, s.c2.b3))
  }

  /** Row r moves r places to the right. */
  function InvShiftRows(s: State): State {
    State(Word(s.c0.b0, s.c3.b1, s.c2.b2, s.c1.b3), Word(s.c1.b0, s.c0.b1, s.c3.b2, s.c2.b3),
          Word(s.c2.b0, s.c1.b1, s.c0.b2, s.c3.b3), Word(s.c3.b0, s.c2.b1, s.c1.b2, s.c0.b3))
  }

  function MixColumns(s: State): State {
    State(MixColumn(s.c0), MixColumn(s.c1), MixColumn(s.c2), MixColumn(s.c3))
  }

  function InvMixColumns(s: State): State {
    State(InvMixColumn(s.c0), InvMixColumn(s.c1), InvMixColumn(s.c2), InvMixColumn(s.c3))
  }

  function AddRoundKey(s: State, k: State): State {
    State(WAdd(s.c0, k.c0), WAdd(s.c1, k.c1), WAdd(s.c2, k.c2), WAdd(s.c3, k.c3))
  }

  lemma InvSubWordInverse(w: Word)
    ensures InvSubWord(SubWord(w)) == w
  {
    hide Sbox, InvSbox;
    SboxInverse(w.b0); SboxInverse(w.b1); SboxInverse(w.b2); SboxInverse(w.b3);
  }

  lemma InvSubBytesInverse(s: State)
    ensures InvSubBytes(SubBytes(s)) == s
  {
    hide SubWord, InvSubWord;
    InvSubWordInverse(s.c0); InvSubWordInverse(s.c1); InvSubWordInverse(s.c2); InvSubWordInverse(s.c3);
  }

  lemma InvShiftRowsInverse(s: State)
    ensures InvShiftRows(ShiftRows(s)) == s
  {}

  lemma InvMixColumnsInverse(s: State)
    ensures InvMixColumns(MixColumns(s)) == s
  {
    hide MixColumn, InvMixColumn;
    InvMixColumnInverse(s.c0); InvMixColumnInverse(s.c1); InvMixColumnInverse(s.c2); InvMixColumnInverse(s.c3);
  }

  lemma AddRoundKeyInverse(s: State, k: State)
    ensures AddRoundKey(AddRoundKey(s, k), k) == s
  {
    hide WAdd;
    WAddCancel(s.c0, k.c0); WAddCancel(s.c1, k.c1); WAddCancel(s.c2, k.c2); WAddCancel(s.c3, k.c3);
  }

  lemma InvMixColumnsLinear(s: State, k: State)
    ensures InvMixColumns(AddRoundKey(s, k)) == AddRoundKey(InvMixColumns(s), InvMixColumns(k))
  {
    hide WAdd, InvMixColumn;
    InvMixColumnLinear(s.c0, k.c0); InvMixColumnLinear(s.c1, k.c1);
    InvMixColumnLinear(s.c2, k.c2); InvMixColumnLinear(s.c3, k.c3);
  }

  /** The inverse substitution acts byte by byte, so it commutes with the inverse row shift. */
  lemma InvSubShiftCommute(s: State)
    ensures InvSubBytes(InvShiftRows(s)) == InvShiftRows(InvSubBytes(s))
  {
    hide InvSbox;
  }

  // ---------- Cipher, inverse cipher, equivalent inverse cipher ----------

  /** A key schedule: round keys 0 to Nr, with at least two rounds' worth. */
  ghost predicate IsSchedule(rk: seq<State>) {
    |rk| >= 2
  }

  ghost function Round(s: State, k: State): State {
    AddRoundKey(MixColumns(ShiftRows(SubBytes(s))), k)
  }

  /** The state after the first `r` rounds of the cipher (section 5.1). */
  ghost function Rounds(rk: seq<State>, s: State, r: nat): State
    requires r < |rk|
  {
    if r == 0 then AddRoundKey(s, rk[0]) else Round(Rounds(rk, s, r - 1), rk[r])
  }

  ghost function Cipher(rk: seq<State>, s: State): State
    requires IsSchedule(rk)
  {
    AddRoundKey(ShiftRows(SubBytes(Rounds(rk, s, |rk| - 2))), rk[|rk| - 1])
  }

  ghost function InvRound(s: State, k: State): State {
    InvMixColumns(AddRoundKey(InvSubBytes(InvShiftRows(s)), k))
  }

  /** The state of the inverse cipher (section 5.3) when the rounds down to `r` are done. */
  ghost function InvRounds(rk: seq<State>, s: State, r: nat): State
    requires r < |rk|
    decreases |rk| - r
  {
    if r == |rk| - 1 then AddRoundKey(s, rk[r]) else InvRound(InvRounds(rk, s, r + 1), rk[r])
  }

  ghost function InvCipher(rk: seq<State>, s: State): State
    requires IsSchedule(rk)
  {
    AddRoundKey(InvSubBytes(InvShiftRows(InvRounds(rk, s, 1))), rk[0])
  }

  ghost function EqRound(s: State, k: State): State {
    AddRoundKey(InvMixColumns(InvShiftRows(InvSubBytes(s))), k)
  }

  /** The state after the first `r` rounds of the equivalent inverse cipher (section 5.3.5),
      whose round keys are listed in the order in which they are used. */
  ghost function EqRounds(dk: seq<State>, s: State, r: nat): State
    requires r < |dk|
  {
    if r == 0 then AddRoundKey(s, dk[0]) else EqRound(EqRounds(dk, s, r - 1), dk[r])
  }

  ghost function EqInvCipher(dk: seq<State>, s: State): State
    requires IsSchedule(dk)
  {
    AddRoundKey(InvShiftRows(InvSubBytes(EqRounds(dk, s, |dk| - 2))), dk[|dk| - 1])
  }

  /** The decryption schedule: reversed, with the inner round keys column-mixed. */
  ghost predicate IsInverseSchedule(rk: seq<State>, dk: seq<State>) {
    && IsSchedule(rk)
    && |dk| == |rk|
    && dk[0] == rk[|rk| - 1]
    && dk[|rk| - 1] == rk[0]
    && forall r :: 0 < r < |rk| - 1 ==> dk[r] == InvMixColumns(rk[|rk| - 1 - r])
  }

  lemma RoundUndone(s: State, k: State)
    ensures InvSubBytes(InvShiftRows(InvMixColumns(AddRoundKey(Round(s, k), k)))) == s
  {
    hide SubBytes, InvSubBytes, ShiftRows, InvShiftRows, MixColumns, InvMixColumns, AddRoundKey;
    AddRoundKeyInverse(MixColumns(ShiftRows(SubBytes(s))), k);
    InvMixColumnsInverse(ShiftRows(SubBytes(s)));
    InvShiftRowsInverse(SubBytes(s));
    InvSubBytesInverse(s);
  }

  /** Undoing the rounds of the cipher one by one leads back through its states. */
  lemma {:induction false} InvRoundsUndoRounds(rk: seq<State>, s: State, r: nat)
    requires IsSchedule(rk) && 1 <= r < |rk|
    ensures InvSubBytes(InvShiftRows(InvRounds(rk, Cipher(rk, s), r))) == Rounds(rk, s, r - 1)
    decreases |rk| - r
  {
    hide SubBytes, InvSubBytes, ShiftRows, InvShiftRows, MixColumns, InvMixColumns, AddRoundKey, Round;
    if r == |rk| - 1 {
      var last := SubBytes(Rounds(rk, s, r - 1));
      AddRoundKeyInverse(ShiftRows(last), rk[r]);
      InvShiftRowsInverse(last);
      InvSubBytesInverse(Rounds(rk, s, r - 1));
    } else {
      InvRoundsUndoRounds(rk, s, r + 1);
      RoundUndone(Rounds(rk, s, r - 1), rk[r]);
    }
  }

  /** Decryption undoes encryption, for every key schedule and every block. */
  lemma InvCipherUndoesCipher(rk: seq<State>, s: State)
    requires IsSchedule(rk)
    ensures InvCipher(rk, Cipher(rk, s)) == s
  {
    hide Cipher, InvRounds, AddRoundKey, InvSubBytes, InvShiftRows;
    InvRoundsUndoRounds(rk, s, 1);
    AddRoundKeyInverse(s, rk[0]);
  }

  lemma {:induction false} EqRoundsAreInvRounds(rk: seq<State>, dk: seq<State>, s: State, r: nat)
    requires IsInverseSchedule(rk, dk) && r < |rk| - 1
    ensures EqRounds(dk, s, r) == InvRounds(rk, s, |rk| - 1 - r)
  {
    hide InvSubBytes, InvShiftRows, InvMixColumns, AddRoundKey;
    if r == 0 {
    } else {
      EqRoundsAreInvRounds(rk, dk, s, r - 1);
      var t := EqRounds(dk, s, r - 1);
      InvSubShiftCommute(t);
      InvMixColumnsLinear(InvShiftRows(InvSubBytes(t)), rk[|rk| - 1 - r]);
    }
  }

  /** The equivalent inverse cipher computes the inverse cipher (section 5.3.5). */
  lemma EqInvCipherIsInvCipher(rk: seq<State>, dk: seq<State>, s: State)
    requires IsInverseSchedule(rk, dk)
    ensures EqInvCipher(dk, s) == InvCipher(rk, s)
  {
    hide InvSubBytes, InvShiftRows, AddRoundKey, EqRounds, InvRounds;
    EqRoundsAreInvRounds(rk, dk, s, |rk| - 2);
    InvSubShiftCommute(EqRounds(dk, s, |rk| - 2));
  }

  // ---------- Key expansion (section 5.2) ----------

  function RotWord(w: Word): Word {
    Word(w.b1, w.b2, w.b3, w.b0)
  }

  /** The powers of x that make up the round constants. */
  function XPower(n: nat): bv8 {
    if n == 0 then 1 else Xtime(XPower(n - 1))
  }

  function Rcon(i: nat): Word
    requires i >= 1
  {
    Word(XPower(i - 1), 0, 0, 0)
  }

  predicate IsKey(key: seq<Word>) {
    |key| == 4 || |key| == 6 || |key| == 8
  }

  /** Word `i` of the expanded key. */
  ghost function KeyWord(key: seq<Word>, i: nat): Word
    requires IsKey(key)
  {
    var nk := |key|;
    if i < nk then key[i]
    else
      var temp := KeyWord(key, i - 1);
      WAdd(KeyWord(key, i - nk),
           if i % nk == 0 then WAdd(SubWord(RotWord(temp)), Rcon(i / nk))
           else if nk > 6 && i % nk == 4 then SubWord(temp)
           else temp)
  }

  ghost function RoundKey(key: seq<Word>, r: nat): State
    requires IsKey(key)
  {
    State(KeyWord(key, 4 * r), KeyWord(key, 4 * r + 1), KeyWord(key, 4 * r + 2), KeyWord(key, 4 * r + 3))
  }

  /** The number of rounds: 10, 12 or 14. */
  function RoundCount(key: seq<Word>): nat
    requires IsKey(key)
  {
    |key| + 6
  }

  ghost function KeySchedule(key: seq<Word>): (rk: seq<State>)
    requires IsKey(key)
    ensures IsSchedule(rk) && |rk| == RoundCount(key) + 1
  {
    seq(RoundCount(key) + 1, r requires 0 <= r => RoundKey(key, r))
  }
}
