/**
  Key expansion and cipher byte by byte, from the rows and columns of FIPS-197 alone: what the
  word and state transformations of module Fips197 come to.
 */
module CipherBytes {
  import opened GF256
  import opened Fips197

  /** The byte of a word in row `r`. */
  function Octet(w: Word, r: int): bv8
    requires 0 <= r < 4
  {
    if r == 0 then w.b0 else if r == 1 then w.b1 else if r == 2 then w.b2 else w.b3
  }

  function Column(s: State, c: int): Word
    requires 0 <= c < 4
  {
    if c == 0 then s.c0 else if c == 1 then s.c1 else if c == 2 then s.c2 else s.c3
  }

  /** The byte of a state in row `r` and column `c`. */
  function At(s: State, r: int, c: int): bv8
    requires 0 <= r < 4 && 0 <= c < 4
  {
    Octet(Column(s, c), r)
  }

  // ---------- Key expansion (section 5.2) ----------

  const ROUND_CONSTANTS: seq<bv8> := [0x01, 0x02, 0x04, 0x08, 0x10, 0x20, 0x40, 0x80, 0x1B, 0x36]

  predicate IsKeyBytes(key: seq<bv8>) {
    |key| == 16 || |key| == 24 || |key| == 32
  }

  /** Byte j of word n, in terms of the word nk before it and the word before it: at the start of each
      run of nk words the latter is substituted, its bytes one place further on, and a round constant
      is added to byte 0; in the middle of a run of eight words it is substituted in place. */
  ghost predicate ByteFollows(w: seq<Word>, nk: nat, n: nat, j: int)
    requires (nk == 4 || nk == 6 || nk == 8) && nk <= n < |w| && 0 <= j < 4
  {
    var before, last := Octet(w[n - nk], j), w[n - 1];
    Octet(w[n], j) ==
      if n % nk == 0 then
        Add(Add(before, Sbox(Octet(last, (j + 1) % 4))),
            if j == 0 && 1 <= n / nk <= 10 then ROUND_CONSTANTS[n / nk - 1] else 0)
      else if nk > 6 && n % nk == 4 then Add(before, Sbox(Octet(last, j)))
      else Add(before, Octet(last, j))
  }

  /** The words are the expansion of the key, nk words of it and 4 (nk + 7) in all. */
  ghost predicate IsExpansion(key: seq<bv8>, w: seq<Word>)
    requires IsKeyBytes(key)
  {
    var nk := |key| / 4;
    && |w| == 4 * (nk + 7)
    && (forall n, j :: 0 <= n < nk && 0 <= j < 4 ==> Octet(w[n], j) == key[4 * n + j])
    && (forall n, j :: nk <= n < |w| && 0 <= j < 4 ==> ByteFollows(w, nk, n, j))
  }

  lemma SameOctets(v: Word, w: Word)
    requires forall j :: 0 <= j < 4 ==> Octet(v, j) == Octet(w, j)
    ensures v == w
  {
    assert Octet(v, 0) == Octet(w, 0) && Octet(v, 1) == Octet(w, 1);
    assert Octet(v, 2) == Octet(w, 2) && Octet(v, 3) == Octet(w, 3);
  }

  /** A key has one expansion only. */
  lemma {:induction false} ExpansionUnique(key: seq<bv8>, v: seq<Word>, w: seq<Word>, n: nat)
    requires IsKeyBytes(key) && IsExpansion(key, v) && IsExpansion(key, w) && n <= |w|
    ensures v[..n] == w[..n]
  {
    hide Octet, Add, Sbox;
    if n == 0 {
    } else {
      var k, nk := n - 1, |key| / 4;
      ExpansionUnique(key, v, w, k);
      assert forall i :: 0 <= i < k ==> v[i] == v[..k][i] == w[..k][i] == w[i];
      forall j | 0 <= j < 4
        ensures Octet(v[k], j) == Octet(w[k], j)
      {
        if k >= nk {
          assert ByteFollows(v, nk, k, j) && ByteFollows(w, nk, k, j);
        }
      }
      SameOctets(v[k], w[k]);
    }
  }

  lemma OctetAdd(v: Word, w: Word, j: int)
    requires 0 <= j < 4
    ensures Octet(WAdd(v, w), j) == Add(Octet(v, j), Octet(w, j))
  {
    hide Add;
  }

  lemma OctetRot(w: Word, j: int)
    requires 0 <= j < 4
    ensures Octet(RotWord(w), j) == Octet(w, (j + 1) % 4)
  {}

  lemma OctetSub(w: Word, j: int)
    requires 0 <= j < 4
    ensures Octet(SubWord(w), j) == Sbox(Octet(w, j))
  {
    hide Sbox;
  }

  lemma Constants(i: nat)
    requires 1 <= i <= 10
    ensures XPower(i - 1) == ROUND_CONSTANTS[i - 1]
  {
    assert XPower(0) == 0x01 && XPower(1) == 0x02 && XPower(2) == 0x04;
    assert XPower(3) == 0x08 && XPower(4) == 0x10 && XPower(5) == 0x20;
    assert XPower(6) == 0x40 && XPower(7) == 0x80 && XPower(8) == 0x1B;
    assert XPower(9) == 0x36;
  }

  lemma OctetRcon(i: nat, j: int)
    requires 1 <= i <= 10 && 0 <= j < 4
    ensures Octet(Rcon(i), j) == if j == 0 then ROUND_CONSTANTS[i - 1] else 0
  {
    hide XPower;
    Constants(i);
  }

  lemma AtMostTen(nk: nat, n: nat)
    requires nk == 4 || nk == 6 || nk == 8
    requires nk <= n < 4 * (nk + 7)
    ensures 1 <= n / nk <= 10
  {}

  /** What the word before contributes. */
  ghost function Feed(nk: nat, n: nat, last: Word): Word
    requires nk > 0 && n >= nk
  {
    if n % nk == 0 then WAdd(SubWord(RotWord(last)), Rcon(Quotient(n, nk)))
    else if nk > 6 && n % nk == 4 then SubWord(last)
    else last
  }

  function Quotient(n: nat, nk: nat): (q: nat)
    requires nk > 0 && n >= nk
    ensures q >= 1
  {
    n / nk
  }

  lemma KeyWordFeeds(key: seq<Word>, n: nat)
    requires IsKey(key) && n >= |key|
    ensures KeyWord(key, n) == WAdd(KeyWord(key, n - |key|), Feed(|key|, n, KeyWord(key, n - 1)))
  {
    hide WAdd, SubWord, RotWord, Rcon;
  }

  lemma OctetFeed(nk: nat, n: nat, last: Word, j: int)
    requires (nk == 4 || nk == 6 || nk == 8) && nk <= n < 4 * (nk + 7) && 0 <= j < 4
    ensures Octet(Feed(nk, n, last), j) ==
            if n % nk == 0 then
              Add(Sbox(Octet(last, (j + 1) % 4)),
                  if j == 0 && 1 <= n / nk <= 10 then ROUND_CONSTANTS[n / nk - 1] else 0)
            else if nk > 6 && n % nk == 4 then Sbox(Octet(last, j))
            else Octet(last, j)
  {
    hide Octet, Add, WAdd, Sbox, RotWord, SubWord, Rcon;
    AtMostTen(nk, n);
    if n % nk == 0 {
      OctetAdd(SubWord(RotWord(last)), Rcon(n / nk), j);
      OctetSub(RotWord(last), j);
      OctetRot(last, j);
      OctetRcon(n / nk, j);
    } else {
      OctetSub(last, j);
    }
  }

  /** Every word of the key expansion is made so. */
  lemma WordFollows(key: seq<Word>, w: seq<Word>, n: nat, j: int)
    requires IsKey(key) && |key| <= n < |w| <= 4 * (|key| + 7) && 0 <= j < 4
    requires forall i :: 0 <= i < |w| ==> w[i] == KeyWord(key, i)
    ensures ByteFollows(w, |key|, n, j)
  {
    hide Octet, Add, WAdd, Sbox, Feed, KeyWord;
    var nk := |key|;
    var before, last := w[n - nk], w[n - 1];
    KeyWordFeeds(key, n);
    OctetAdd(before, Feed(nk, n, last), j);
    OctetFeed(nk, n, last, j);
    AddAssociates(Octet(before, j), Sbox(Octet(last, (j + 1) % 4)),
        if j == 0 && 1 <= n / nk <= 10 then ROUND_CONSTANTS[n / nk - 1] else 0);
  }

  /** The words of a schedule, in order. */
  ghost function Words(rk: seq<State>): (w: seq<Word>)
    ensures |w| == 4 * |rk|
  {
    seq(4 * |rk|, n requires 0 <= n < 4 * |rk| => Column(rk[n / 4], n % 4))
  }

  lemma RoundKeyColumn(key: seq<Word>, r: nat, c: int)
    requires IsKey(key) && 0 <= c < 4
    ensures Column(RoundKey(key, r), c) == KeyWord(key, 4 * r + c)
  {
    hide KeyWord;
  }

  lemma ScheduleWord(key: seq<Word>, n: nat)
    requires IsKey(key) && n < 4 * (|key| + 7)
    ensures Words(KeySchedule(key))[n] == KeyWord(key, n)
  {
    hide KeyWord, RoundKey, Column;
    RoundKeyColumn(key, n / 4, n % 4);
    assert 4 * (n / 4) + n % 4 == n;
  }

  /** The key schedule of a key given by its bytes is its expansion. */
  lemma ScheduleExpands(key: seq<bv8>, kw: seq<Word>)
    requires IsKeyBytes(key) && |kw| == |key| / 4
    requires forall n, j :: 0 <= n < |kw| && 0 <= j < 4 ==> Octet(kw[n], j) == key[4 * n + j]
    ensures IsExpansion(key, Words(KeySchedule(kw)))
  {
    hide Octet, ByteFollows, KeySchedule, Words;
    var w := Words(KeySchedule(kw));
    forall n | 0 <= n < |w|
      ensures w[n] == KeyWord(kw, n)
    {
      ScheduleWord(kw, n);
    }
    forall n, j | |kw| <= n < |w| && 0 <= j < 4
      ensures ByteFollows(w, |kw|, n, j)
    {
      WordFollows(kw, w, n, j);
    }
  }

  // ---------- The cipher (section 5.1) ----------

  /** A round, byte by byte: the bytes on the diagonal from (r, c + r) downwards, substituted, with the
      weights 2, 3, 1 and 1, and the key byte. */
  ghost predicate IsRound(s: State, k: State, next: State) {
    forall r, c :: 0 <= r < 4 && 0 <= c < 4 ==>
      var s0, s1 := Sbox(At(s, r, (c + r) % 4)), Sbox(At(s, (r + 1) % 4, (c + (r + 1) % 4) % 4));
      var s2, s3 := Sbox(At(s, (r + 2) % 4, (c + (r + 2) % 4) % 4)), Sbox(At(s, (r + 3) % 4, (c + (r + 3) % 4) % 4));
      At(next, r, c) == Add(Add(Add(GMul(2, s0), GMul(3, s1)), Add(s2, s3)), At(k, r, c))
  }

  /** The last round has no column mixing. */
  ghost predicate IsLastRound(s: State, k: State, next: State) {
    forall r, c :: 0 <= r < 4 && 0 <= c < 4 ==> At(next, r, c) == Add(Sbox(At(s, r, (c + r) % 4)), At(k, r, c))
  }

  ghost predicate IsSum(s: State, k: State, next: State) {
    forall r, c :: 0 <= r < 4 && 0 <= c < 4 ==> At(next, r, c) == Add(At(s, r, c), At(k, r, c))
  }

  lemma AtSub(s: State, r: int, c: int)
    requires 0 <= r < 4 && 0 <= c < 4
    ensures At(SubBytes(s), r, c) == Sbox(At(s, r, c))
  {
    hide SubWord, Octet;
    OctetSub(Column(s, c), r);
  }

  lemma AtShift(s: State, r: int, c: int)
    requires 0 <= r < 4 && 0 <= c < 4
    ensures At(ShiftRows(s), r, c) == At(s, r, (c + r) % 4)
  {}

  lemma AtAdd(s: State, k: State, r: int, c: int)
    requires 0 <= r < 4 && 0 <= c < 4
    ensures At(AddRoundKey(s, k), r, c) == Add(At(s, r, c), At(k, r, c))
  {
    hide WAdd, Octet;
    OctetAdd(Column(s, c), Column(k, c), r);
  }

  /** The four ways in which the terms of a row are added up. */
  lemma SumRotations(a: bv8, b: bv8, c: bv8, d: bv8)
    ensures Add(Add(d, a), Add(b, c)) == Add(Add(a, b), Add(c, d))
    ensures Add(Add(c, d), Add(a, b)) == Add(Add(a, b), Add(c, d))
    ensures Add(Add(b, c), Add(d, a)) == Add(Add(a, b), Add(c, d))
  {}

  lemma GMulOne(x: bv8)
    ensures GMul(1, x) == x
  {
    GMulConstants(x);
  }

  /** The rows of the mixing matrix, each from its diagonal on. */
  lemma MixRows(w: Word)
    ensures Dot(2, 3, 1, 1, w) == Add(Add(GMul(2, w.b0), GMul(3, w.b1)), Add(w.b2, w.b3))
    ensures Dot(1, 2, 3, 1, w) == Add(Add(GMul(2, w.b1), GMul(3, w.b2)), Add(w.b3, w.b0))
    ensures Dot(1, 1, 2, 3, w) == Add(Add(GMul(2, w.b2), GMul(3, w.b3)), Add(w.b0, w.b1))
    ensures Dot(3, 1, 1, 2, w) == Add(Add(GMul(2, w.b3), GMul(3, w.b0)), Add(w.b1, w.b2))
  {
    hide Add, GMul;
    GMulOne(w.b0); GMulOne(w.b1); GMulOne(w.b2); GMulOne(w.b3);
    SumRotations(GMul(2, w.b1), GMul(3, w.b2), w.b3, w.b0);
    SumRotations(GMul(2, w.b2), GMul(3, w.b3), w.b0, w.b1);
    SumRotations(GMul(2, w.b3), GMul(3, w.b0), w.b1, w.b2);
  }

  lemma OctetMix(w: Word, r: int)
    requires 0 <= r < 4
    ensures Octet(MixColumn(w), r) ==
            Add(Add(GMul(2, Octet(w, r)), GMul(3, Octet(w, (r + 1) % 4))),
                Add(Octet(w, (r + 2) % 4), Octet(w, (r + 3) % 4)))
  {
    hide Add, GMul, Dot;
    MixRows(w);
  }

  lemma AtMix(s: State, r: int, c: int)
    requires 0 <= r < 4 && 0 <= c < 4
    ensures At(MixColumns(s), r, c) ==
            Add(Add(GMul(2, At(s, r, c)), GMul(3, At(s, (r + 1) % 4, c))),
                Add(At(s, (r + 2) % 4, c), At(s, (r + 3) % 4, c)))
  {
    hide MixColumn, Add, GMul, Octet;
    OctetMix(Column(s, c), r);
  }

  lemma AtSubShift(s: State, r: int, c: int)
    requires 0 <= r < 4 && 0 <= c < 4
    ensures At(ShiftRows(SubBytes(s)), r, c) == Sbox(At(s, r, (c + r) % 4))
  {
    hide At, SubBytes, ShiftRows;
    AtShift(SubBytes(s), r, c);
    AtSub(s, r, (c + r) % 4);
  }

  lemma RoundByBytes(s: State, k: State)
    ensures IsRound(s, k, Round(s, k)) && IsLastRound(s, k, AddRoundKey(ShiftRows(SubBytes(s)), k))
  {
    hide At, SubBytes, ShiftRows, MixColumns, AddRoundKey, Add, GMul;
    var t := ShiftRows(SubBytes(s));
    forall r, c | 0 <= r < 4 && 0 <= c < 4
      ensures At(t, r, c) == Sbox(At(s, r, (c + r) % 4))
      ensures At(AddRoundKey(t, k), r, c) == Add(At(t, r, c), At(k, r, c))
    {
      AtSubShift(s, r, c);
      AtAdd(t, k, r, c);
    }
    forall r, c | 0 <= r < 4 && 0 <= c < 4
      ensures At(Round(s, k), r, c) ==
              Add(Add(Add(GMul(2, At(t, r, c)), GMul(3, At(t, (r + 1) % 4, c))),
                      Add(At(t, (r + 2) % 4, c), At(t, (r + 3) % 4, c))), At(k, r, c))
    {
      AtMix(t, r, c);
      AtAdd(MixColumns(t), k, r, c);
    }
  }

  /** The states of an encryption: the input with the first round key, the state after each round,
      and the output. */
  ghost predicate IsEncryption(rk: seq<State>, s: State, states: seq<State>, output: State)
    requires IsSchedule(rk)
  {
    var n := |rk| - 1;
    && |states| == n && IsSum(s, rk[0], states[0])
    && (forall i :: 0 < i < n ==> IsRound(states[i - 1], rk[i], states[i]))
    && IsLastRound(states[n - 1], rk[n], output)
  }

  lemma SumByBytes(s: State, k: State)
    ensures IsSum(s, k, AddRoundKey(s, k))
  {
    hide At, AddRoundKey, Add;
    forall r, c | 0 <= r < 4 && 0 <= c < 4
      ensures At(AddRoundKey(s, k), r, c) == Add(At(s, r, c), At(k, r, c))
    {
      AtAdd(s, k, r, c);
    }
  }

  /** The cipher goes through such states. */
  lemma CipherByBytes(rk: seq<State>, s: State) returns (states: seq<State>)
    requires IsSchedule(rk)
    ensures IsEncryption(rk, s, states, Cipher(rk, s))
  {
    hide IsSum, IsRound, IsLastRound, Round, AddRoundKey, ShiftRows, SubBytes;
    var n := |rk| - 1;
    states := seq(n, i requires 0 <= i < n => Rounds(rk, s, i));
    SumByBytes(s, rk[0]);
    forall i | 0 < i < n
      ensures IsRound(states[i - 1], rk[i], states[i])
    {
      RoundByBytes(states[i - 1], rk[i]);
    }
    RoundByBytes(states[n - 1], rk[n]);
  }

  /** The bytes of a block, by columns. */
  ghost predicate IsStateOf(s: State, block: seq<bv8>) {
    |block| == 16 && forall r, c :: 0 <= r < 4 && 0 <= c < 4 ==> At(s, r, c) == block[4 * c + r]
  }

  /** `output` is the encryption of `block` under the key, all given by their bytes. */
  ghost predicate IsAes(key: seq<bv8>, block: seq<bv8>, output: seq<bv8>)
    requires IsKeyBytes(key)
  {
    exists rk, s, states, last :: IsSchedule(rk) && IsExpansion(key, Words(rk)) &&
      IsStateOf(s, block) && IsEncryption(rk, s, states, last) && IsStateOf(last, output)
  }
}
