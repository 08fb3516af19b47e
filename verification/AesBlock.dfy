/**
  Key schedules and single-block encryption and decryption of C/AES/aes.cpp, proved against
  the cipher of FIPS-197.
 */
module AesBlock {
  import opened GF256
  import opened Fips197
  import opened AesTables
  import opened AesStatic
  import opened CipherBytes

  const AES_ENCRYPT := 1
  const AES_DECRYPT := 0
  const ERR_INVALID_KEY_LENGTH := -0x20

  // ---------- Bytes and words ----------

  /** The bytes of a block or key, by columns. */
  function WordsOf(b: seq<bv8>): (w: seq<Word>)
    requires |b| % 4 == 0
    ensures |w| == |b| / 4
  {
    seq(|b| / 4, i requires 0 <= i < |b| / 4 => Word(b[4 * i], b[4 * i + 1], b[4 * i + 2], b[4 * i + 3]))
  }

  /** The buffer `s` with the bytes `b` written at offset `o`. */
  function Splice(s: seq<bv8>, o: nat, b: seq<bv8>): (r: seq<bv8>)
    requires o + |b| <= |s|
    ensures |r| == |s|
  {
    s[..o] + b + s[o + |b|..]
  }

  lemma SpliceTwice(s: seq<bv8>, o: nat, a: seq<bv8>, b: seq<bv8>)
    requires o + |a| + |b| <= |s|
    ensures Splice(Splice(s, o, a), o + |a|, b) == Splice(s, o, a + b)
  {}

  predicate IsKeySize(keysize: nat) {
    keysize == 128 || keysize == 192 || keysize == 256
  }

  /** The words of a key of `keysize` bits stored at the front of `b`. */
  function KeyOf(b: seq<bv8>, keysize: nat): (kw: seq<Word>)
    requires IsKeySize(keysize) && |b| >= keysize / 8
    ensures IsKey(kw) && |kw| == keysize / 32
  {
    WordsOf(b[..keysize / 8])
  }

  predicate IsBlock(b: seq<bv8>) {
    |b| == 16
  }

  function StateOf(b: seq<bv8>): State
    requires IsBlock(b)
  {
    State(Word(b[0], b[1], b[2], b[3]), Word(b[4], b[5], b[6], b[7]),
          Word(b[8], b[9], b[10], b[11]), Word(b[12], b[13], b[14], b[15]))
  }

  function ColumnBytes(w: Word): (b: seq<bv8>)
    ensures |b| == 4
  {
    [w.b0, w.b1, w.b2, w.b3]
  }

  function BytesOf(s: State): (b: seq<bv8>)
    ensures IsBlock(b)
  {
    ColumnBytes(s.c0) + ColumnBytes(s.c1) + ColumnBytes(s.c2) + ColumnBytes(s.c3)
  }

  lemma BytesOfStateOf(b: seq<bv8>)
    requires IsBlock(b)
    ensures BytesOf(StateOf(b)) == b
  {}

  /** The macro GET_UINT32_LE. */
  function GetLE(b0: bv8, b1: bv8, b2: bv8, b3: bv8): bv32 {
    Wide(b0) | (Wide(b1) << 8) | (Wide(b2) << 16) | (Wide(b3) << 24)
  }

  lemma GetLEBytes(b0: bv8, b1: bv8, b2: bv8, b3: bv8)
    ensures Unpack(GetLE(b0, b1, b2, b3)) == Word(b0, b1, b2, b3)
  {}

  lemma GetLEIsPack(b0: bv8, b1: bv8, b2: bv8, b3: bv8)
    ensures GetLE(b0, b1, b2, b3) == Pack(Word(b0, b1, b2, b3))
  {
    hide *;
    GetLEBytes(b0, b1, b2, b3);
    PackUnpack(GetLE(b0, b1, b2, b3));
  }

  /** The value assembled for the first word of a key schedule step. */
  lemma KeyStep(k: Word, rc: Word, s: Word)
    ensures Xor(Xor(Pack(k), Pack(rc)), Pack(s)) == Pack(WAdd(k, WAdd(s, rc)))
  {
    hide *;
    PackAdd(k, rc);
    PackAdd(WAdd(k, rc), s);
    WAddAssociates(k, rc, s);
    WAddCommutes(rc, s);
  }

  // ---------- Block encryption as a function of bytes ----------

  ghost function EncryptBlock(rk: seq<State>, b: seq<bv8>): (c: seq<bv8>)
    requires IsSchedule(rk) && IsBlock(b)
    ensures IsBlock(c)
  {
    BytesOf(Cipher(rk, StateOf(b)))
  }

  ghost function DecryptBlock(dk: seq<State>, b: seq<bv8>): (c: seq<bv8>)
    requires IsSchedule(dk) && IsBlock(b)
    ensures IsBlock(c)
  {
    BytesOf(EqInvCipher(dk, StateOf(b)))
  }

  ghost function CryptBlock(mode: int, rk: seq<State>, b: seq<bv8>): (c: seq<bv8>)
    requires IsSchedule(rk) && IsBlock(b)
    ensures IsBlock(c)
  {
    if mode == AES_DECRYPT then DecryptBlock(rk, b) else EncryptBlock(rk, b)
  }

  /** Decrypting under the inverse schedule returns the block that was encrypted. */
  lemma DecryptUndoesEncrypt(rk: seq<State>, dk: seq<State>, b: seq<bv8>)
    requires IsInverseSchedule(rk, dk) && IsBlock(b)
    ensures DecryptBlock(dk, EncryptBlock(rk, b)) == b
  {
    hide Cipher, EqInvCipher, InvCipher;
    var s := StateOf(b);
    EqInvCipherIsInvCipher(rk, dk, Cipher(rk, s));
    InvCipherUndoesCipher(rk, s);
    BytesOfStateOf(b);
    StateOfBytesOf(Cipher(rk, s));
  }

  lemma StateOfBytesOf(s: State)
    ensures StateOf(BytesOf(s)) == s
  {}

  // ---------- Words of the expanded key ----------

  /** The first `n` words of the buffer are those of the expanded key. */
  ghost predicate Expanded(kw: seq<Word>, n: nat, buf: seq<bv32>)
    requires IsKey(kw)
  {
    |buf| == 68 && n <= 68 && forall j: nat :: j < n ==> buf[j] == Pack(KeyWord(kw, j))
  }

  lemma ExpandedNext(kw: seq<Word>, n: nat, buf: seq<bv32>, v: bv32)
    requires IsKey(kw) && n < 68 && Expanded(kw, n, buf) && v == Pack(KeyWord(kw, n))
    ensures Expanded(kw, n + 1, buf[n := v])
  {
    hide Pack, KeyWord;
  }

  /** The word that opens a step: rotated, substituted, with a round constant. */
  lemma FirstWord(kw: seq<Word>, i: nat)
    requires IsKey(kw) && i < 10
    ensures var o := |kw| * i;
            var x := KeyWord(kw, o + |kw| - 1);
            Xor(Xor(Pack(KeyWord(kw, o)), Pack(Rcon(i + 1))), Pack(SubWord(RotWord(x)))) ==
            Pack(KeyWord(kw, o + |kw|))
  {
    hide Pack, Xor, WAdd, SubWord, RotWord, Rcon;
    var o := |kw| * i;
    var x := KeyWord(kw, o + |kw| - 1);
    assert (o + |kw|) % |kw| == 0 && (o + |kw|) / |kw| == i + 1;
    KeyStep(KeyWord(kw, o), Rcon(i + 1), SubWord(RotWord(x)));
  }

  /** The words in between. */
  lemma NextWord(kw: seq<Word>, n: nat)
    requires IsKey(kw) && n >= |kw| && n % |kw| != 0 && (|kw| == 8 ==> n % 8 != 4)
    ensures Xor(Pack(KeyWord(kw, n - |kw|)), Pack(KeyWord(kw, n - 1))) == Pack(KeyWord(kw, n))
  {
    hide Pack, Xor, WAdd;
    PackAdd(KeyWord(kw, n - |kw|), KeyWord(kw, n - 1));
  }

  /** The extra substitution in the middle of a step of a 256-bit key. */
  lemma MiddleWord(kw: seq<Word>, n: nat)
    requires |kw| == 8 && n >= 8 && n % 8 == 4
    ensures Xor(Pack(KeyWord(kw, n - 8)), Pack(SubWord(KeyWord(kw, n - 1)))) == Pack(KeyWord(kw, n))
  {
    hide Pack, Xor, WAdd, SubWord;
    PackAdd(KeyWord(kw, n - 8), SubWord(KeyWord(kw, n - 1)));
  }

  /** The words in a buffer, by their bytes. */
  ghost function UnpackAll(buf: seq<bv32>): (w: seq<Word>)
    ensures |w| == |buf|
  {
    seq(|buf|, n requires 0 <= n < |buf| => Unpack(buf[n]))
  }

  lemma KeyOctets(key: seq<bv8>, n: nat, j: int)
    requires |key| % 4 == 0 && n < |key| / 4 && 0 <= j < 4
    ensures Octet(WordsOf(key)[n], j) == key[4 * n + j]
  {}

  lemma KeyExpands(key: seq<bv8>)
    requires IsKeyBytes(key)
    ensures IsExpansion(key, Words(KeySchedule(WordsOf(key))))
  {
    hide Octet, WordsOf, IsExpansion, KeySchedule, Words;
    forall n, j | 0 <= n < |key| / 4 && 0 <= j < 4
      ensures Octet(WordsOf(key)[n], j) == key[4 * n + j]
    {
      KeyOctets(key, n, j);
    }
    ScheduleExpands(key, WordsOf(key));
  }

  lemma ColumnOfBlock(b: seq<bv8>, c: int)
    requires IsBlock(b) && 0 <= c < 4
    ensures Column(StateOf(b), c) == Word(b[4 * c], b[4 * c + 1], b[4 * c + 2], b[4 * c + 3])
  {}

  lemma StateOfOctets(b: seq<bv8>)
    requires IsBlock(b)
    ensures IsStateOf(StateOf(b), b)
  {
    hide StateOf, Column;
    forall r, c | 0 <= r < 4 && 0 <= c < 4
      ensures At(StateOf(b), r, c) == b[4 * c + r]
    {
      ColumnOfBlock(b, c);
    }
  }

  /** Encrypting a block under the schedule of a key is AES, byte by byte. */
  lemma EncryptionByBytes(key: seq<bv8>, block: seq<bv8>)
    requires IsKeyBytes(key) && IsBlock(block)
    ensures IsAes(key, block, EncryptBlock(KeySchedule(WordsOf(key)), block))
  {
    hide IsExpansion, Words, IsStateOf, IsEncryption, StateOf, BytesOf, Cipher, KeySchedule, WordsOf;
    var rk, s := KeySchedule(WordsOf(key)), StateOf(block);
    KeyExpands(key);
    StateOfOctets(block);
    var states := CipherByBytes(rk, s);
    StateOfOctets(BytesOf(Cipher(rk, s)));
    StateOfBytesOf(Cipher(rk, s));
    assert IsExpansion(key, Words(rk)) && IsEncryption(rk, s, states, Cipher(rk, s));
  }

  /** The words of an expanded key are its expansion byte by byte. */
  lemma ExpandedByBytes(key: seq<bv8>, buf: seq<bv32>)
    requires IsKeyBytes(key) && Expanded(WordsOf(key), 4 * (|key| / 4 + 7), buf)
    ensures IsExpansion(key, UnpackAll(buf[..4 * (|key| / 4 + 7)]))
  {
    hide Pack, Unpack, KeyWord, WordsOf, IsExpansion, KeySchedule, Words;
    KeyExpands(key);
    var kw, n := WordsOf(key), 4 * (|key| / 4 + 7);
    forall j | 0 <= j < n
      ensures UnpackAll(buf[..n])[j] == Words(KeySchedule(kw))[j]
    {
      UnpackPack(KeyWord(kw, j));
      ScheduleWord(kw, j);
    }
    assert UnpackAll(buf[..n]) == Words(KeySchedule(kw));
  }

  /** The schedule `v` has the words of `w` by fours in reverse order, the inner ones inverse-mixed. */
  ghost predicate IsReverse(w: seq<Word>, v: seq<Word>) {
    && |v| == |w| && |w| % 4 == 0
    && forall j :: 0 <= j < |v| ==>
         v[j] == var x := w[|w| - 4 - j / 4 * 4 + j % 4]; if 4 <= j < |w| - 4 then InvMixColumn(x) else x
  }

  /** Word `j` of the decryption schedule: the round keys in reverse order, the inner ones
      with their columns inverse-mixed. */
  ghost function InvKeyWord(kw: seq<Word>, j: nat): Word
    requires IsKey(kw) && j < 4 * RoundCount(kw) + 4
  {
    var r := j / 4;
    var x := KeyWord(kw, 4 * (RoundCount(kw) - r) + j % 4);
    if r == 0 || r == RoundCount(kw) then x else InvMixColumn(x)
  }

  ghost predicate InvExpanded(kw: seq<Word>, n: nat, buf: seq<bv32>)
    requires IsKey(kw)
  {
    |buf| == 68 && n <= 4 * RoundCount(kw) + 4 && forall j: nat :: j < n ==> buf[j] == Pack(InvKeyWord(kw, j))
  }

  lemma InvExpandedByBytes(key: seq<bv8>, buf: seq<bv32>)
    requires IsKeyBytes(key) && InvExpanded(WordsOf(key), 4 * (|key| / 4 + 7), buf)
    ensures exists w :: IsExpansion(key, w) && IsReverse(w, UnpackAll(buf[..4 * (|key| / 4 + 7)]))
  {
    hide Pack, Unpack, KeyWord, WordsOf, IsExpansion, KeySchedule, Words, InvMixColumn;
    KeyExpands(key);
    var kw, n := WordsOf(key), 4 * (|key| / 4 + 7);
    var w := Words(KeySchedule(kw));
    forall j | 0 <= j < n
      ensures UnpackAll(buf[..n])[j] ==
              var x := w[n - 4 - j / 4 * 4 + j % 4]; if 4 <= j < n - 4 then InvMixColumn(x) else x
    {
      UnpackPack(InvKeyWord(kw, j));
      ScheduleWord(kw, n - 4 - j / 4 * 4 + j % 4);
    }
  }

  lemma InvExpandedNext(kw: seq<Word>, n: nat, buf: seq<bv32>, v: bv32)
    requires IsKey(kw) && n < 4 * RoundCount(kw) + 4 && InvExpanded(kw, n, buf) && v == Pack(InvKeyWord(kw, n))
    ensures InvExpanded(kw, n + 1, buf[n := v])
  {
    hide Pack, InvKeyWord;
  }

  /** The first `n` round keys, of four words each. */
  ghost function RoundKeysIn(n: nat, buf: seq<bv32>): (rk: seq<State>)
    requires 4 * n <= |buf|
    ensures |rk| == n
  {
    seq(n, r requires 0 <= r < n =>
      State(Unpack(buf[4 * r]), Unpack(buf[4 * r + 1]), Unpack(buf[4 * r + 2]), Unpack(buf[4 * r + 3])))
  }

  /** The state whose columns are four 32-bit words. */
  function StateW(x0: bv32, x1: bv32, x2: bv32, x3: bv32): State {
    State(Unpack(x0), Unpack(x1), Unpack(x2), Unpack(x3))
  }

  /** Four fused words, gathering along the shifted rows, make a round of the cipher. */
  lemma FRoundMeaning(t: Tables, k0: bv32, k1: bv32, k2: bv32, k3: bv32, y0: bv32, y1: bv32, y2: bv32, y3: bv32)
    requires t.Separate() && t.Generated()
    ensures StateW(t.FWord(k0, y0, y1, y2, y3), t.FWord(k1, y1, y2, y3, y0),
                   t.FWord(k2, y2, y3, y0, y1), t.FWord(k3, y3, y0, y1, y2)) ==
            Round(StateW(y0, y1, y2, y3), StateW(k0, k1, k2, k3))
  {
    hide t.Separate, t.Generated, t.FWord, MixColumn, WAdd, Low, Sbox;
    t.FWordMeaning(k0, y0, y1, y2, y3);
    t.FWordMeaning(k1, y1, y2, y3, y0);
    t.FWordMeaning(k2, y2, y3, y0, y1);
    t.FWordMeaning(k3, y3, y0, y1, y2);
  }

  lemma RRoundMeaning(t: Tables, k0: bv32, k1: bv32, k2: bv32, k3: bv32, y0: bv32, y1: bv32, y2: bv32, y3: bv32)
    requires t.Separate() && t.Generated()
    ensures StateW(t.RWord(k0, y0, y3, y2, y1), t.RWord(k1, y1, y0, y3, y2),
                   t.RWord(k2, y2, y1, y0, y3), t.RWord(k3, y3, y2, y1, y0)) ==
            EqRound(StateW(y0, y1, y2, y3), StateW(k0, k1, k2, k3))
  {
    hide t.Separate, t.Generated, t.RWord, InvMixColumn, WAdd, Low, InvSbox;
    t.RWordMeaning(k0, y0, y3, y2, y1);
    t.RWordMeaning(k1, y1, y0, y3, y2);
    t.RWordMeaning(k2, y2, y1, y0, y3);
    t.RWordMeaning(k3, y3, y2, y1, y0);
  }

  /** The last rounds leave out column mixing. */
  lemma LastRoundMeaning(t: Tables, k0: bv32, k1: bv32, k2: bv32, k3: bv32, y0: bv32, y1: bv32, y2: bv32, y3: bv32)
    requires t.Separate() && t.Generated()
    ensures StateW(t.FLast(k0, y0, y1, y2, y3), t.FLast(k1, y1, y2, y3, y0),
                   t.FLast(k2, y2, y3, y0, y1), t.FLast(k3, y3, y0, y1, y2)) ==
            AddRoundKey(ShiftRows(SubBytes(StateW(y0, y1, y2, y3))), StateW(k0, k1, k2, k3))
    ensures StateW(t.RLast(k0, y0, y3, y2, y1), t.RLast(k1, y1, y0, y3, y2),
                   t.RLast(k2, y2, y1, y0, y3), t.RLast(k3, y3, y2, y1, y0)) ==
            AddRoundKey(InvShiftRows(InvSubBytes(StateW(y0, y1, y2, y3))), StateW(k0, k1, k2, k3))
  {
    hide t.Separate, t.Generated, t.FLast, t.RLast, WAdd, Low, Sbox, InvSbox;
    t.LastMeaning(k0, y0, y1, y2, y3);
    t.LastMeaning(k1, y1, y2, y3, y0);
    t.LastMeaning(k2, y2, y3, y0, y1);
    t.LastMeaning(k3, y3, y0, y1, y2);
    t.LastMeaning(k0, y0, y3, y2, y1);
    t.LastMeaning(k1, y1, y0, y3, y2);
    t.LastMeaning(k2, y2, y1, y0, y3);
    t.LastMeaning(k3, y3, y2, y1, y0);
  }

  class Context {
    var nr: nat
    const buf: array<bv32>

    ghost predicate Shape() {
      buf.Length == 68
    }

    constructor ()
      ensures Shape() && fresh(buf)
    {
      nr := 0;
      buf := new bv32[68];
    }

    /** A schedule of 10, 12 or 14 rounds has been set. */
    ghost predicate Keyed()
      reads this
    {
      Shape() && (nr == 10 || nr == 12 || nr == 14)
    }

    /** A schedule is set and the tables are filled. */
    ghost predicate Ready(t: Tables)
      reads this, t.Arrays()
    {
      Keyed() && t.Usable()
    }

    /** The round keys in the buffer. */
    ghost function RoundKeys(): (rk: seq<State>)
      requires Keyed()
      reads this, buf
      ensures |rk| == nr + 1
    {
      RoundKeysIn(nr + 1, buf[..])
    }

    lemma ExpandedSchedule(kw: seq<Word>)
      requires IsKey(kw) && Keyed() && nr == RoundCount(kw) && Expanded(kw, 4 * nr + 4, buf[..])
      ensures RoundKeys() == KeySchedule(kw)
    {
      hide Pack, Unpack, KeyWord;
      forall r | 0 <= r < nr + 1
        ensures RoundKeys()[r] == RoundKey(kw, r)
      {
        UnpackPack(KeyWord(kw, 4 * r));
        UnpackPack(KeyWord(kw, 4 * r + 1));
        UnpackPack(KeyWord(kw, 4 * r + 2));
        UnpackPack(KeyWord(kw, 4 * r + 3));
      }
    }

    // ---------- Key schedule (encryption) ----------

    /** The first assignment of every schedule loop. */
    method StepFirst(t: Tables, nk: nat, i: nat, ghost kw: seq<Word>)
      requires Shape() && t.Separate() && t.Generated()
      requires IsKey(kw) && nk == |kw| && i < 10 && nk * i + nk < 68
      requires Expanded(kw, nk * i + nk, buf[..])
      requires buf !in t.Arrays()
      modifies buf
      ensures Expanded(kw, nk * i + nk + 1, buf[..])
    {
      hide t.Generated, Pack, Xor, KeyWord, Rcon, t.SubstRot;
      var o := nk * i;
      ghost var x := KeyWord(kw, o + nk - 1);
      t.SubstMeaning(x);
      FirstWord(kw, i);
      t.RconAt(i);
      ghost var was := buf[..];
      var v := Xor(Xor(buf[o], t.RCON[i]), t.SubstRot(buf[o + nk - 1]));
      ExpandedNext(kw, o + nk, was, v);
      buf[o + nk] := v;
      assert buf[..] == was[o + nk := v];
    }

    /** RK[n] = RK[n - nk] ^ RK[n - 1]. */
    method StepNext(nk: nat, n: nat, ghost kw: seq<Word>)
      requires Shape() && IsKey(kw) && nk == |kw| && nk <= n < 68
      requires n % nk != 0 && (nk == 8 ==> n % 8 != 4)
      requires Expanded(kw, n, buf[..])
      modifies buf
      ensures Expanded(kw, n + 1, buf[..])
    {
      hide Pack, Xor, KeyWord;
      NextWord(kw, n);
      ghost var was := buf[..];
      var v := Xor(buf[n - nk], buf[n - 1]);
      ExpandedNext(kw, n, was, v);
      buf[n] := v;
      assert buf[..] == was[n := v];
    }

    /** The substitution in the middle of a step of the 256-bit schedule. */
    method StepMiddle(t: Tables, n: nat, ghost kw: seq<Word>)
      requires Shape() && t.Separate() && t.Generated()
      requires |kw| == 8 && 8 <= n < 68 && n % 8 == 4
      requires Expanded(kw, n, buf[..])
      requires buf !in t.Arrays()
      modifies buf
      ensures Expanded(kw, n + 1, buf[..])
    {
      hide t.Generated, Pack, Xor, KeyWord, t.Subst;
      ghost var x := KeyWord(kw, n - 1);
      t.SubstMeaning(x);
      MiddleWord(kw, n);
      ghost var was := buf[..];
      var v := Xor(buf[n - 8], t.Subst(buf[n - 1]));
      ExpandedNext(kw, n, was, v);
      buf[n] := v;
      assert buf[..] == was[n := v];
    }

    /** The schedule loop of a 128-bit key: ten steps of four words. */
    method Expand128(t: Tables, ghost kw: seq<Word>)
      requires Shape() && t.Separate() && t.Generated() && buf !in t.Arrays()
      requires |kw| == 4 && Expanded(kw, 4, buf[..])
      modifies buf
      ensures Expanded(kw, 44, buf[..])
    {
      hide t.Generated, t.Separate, Expanded;
      var i := 0;
      while i < 10
        invariant 0 <= i <= 10
        invariant t.Generated()
        invariant Expanded(kw, 4 * i + 4, buf[..])
      {
        StepFirst(t, 4, i, kw);
        StepNext(4, 4 * i + 5, kw);
        StepNext(4, 4 * i + 6, kw);
        StepNext(4, 4 * i + 7, kw);
        i := i + 1;
      }
    }

    /** The schedule loop of a 192-bit key: eight steps of six words. */
    method Expand192(t: Tables, ghost kw: seq<Word>)
      requires Shape() && t.Separate() && t.Generated() && buf !in t.Arrays()
      requires |kw| == 6 && Expanded(kw, 6, buf[..])
      modifies buf
      ensures Expanded(kw, 54, buf[..])
    {
      hide t.Generated, t.Separate, Expanded;
      var i := 0;
      while i < 8
        invariant 0 <= i <= 8
        invariant t.Generated()
        invariant Expanded(kw, 6 * i + 6, buf[..])
      {
        StepFirst(t, 6, i, kw);
        StepNext(6, 6 * i + 7, kw);
        StepNext(6, 6 * i + 8, kw);
        StepNext(6, 6 * i + 9, kw);
        StepNext(6, 6 * i + 10, kw);
        StepNext(6, 6 * i + 11, kw);
        i := i + 1;
      }
    }

    /** The schedule loop of a 256-bit key: seven steps of eight words. */
    method Expand256(t: Tables, ghost kw: seq<Word>)
      requires Shape() && t.Separate() && t.Generated() && buf !in t.Arrays()
      requires |kw| == 8 && Expanded(kw, 8, buf[..])
      modifies buf
      ensures Expanded(kw, 64, buf[..])
    {
      hide t.Generated, t.Separate, Expanded;
      var i := 0;
      while i < 7
        invariant 0 <= i <= 7
        invariant t.Generated()
        invariant Expanded(kw, 8 * i + 8, buf[..])
      {
        StepFirst(t, 8, i, kw);
        StepNext(8, 8 * i + 9, kw);
        StepNext(8, 8 * i + 10, kw);
        StepNext(8, 8 * i + 11, kw);
        StepMiddle(t, 8 * i + 12, kw);
        StepNext(8, 8 * i + 13, kw);
        StepNext(8, 8 * i + 14, kw);
        StepNext(8, 8 * i + 15, kw);
        i := i + 1;
      }
    }

    /** The loop that loads the key words. */
    method LoadKey(key: array<bv8>, nk: nat)
      requires Shape() && (nk == 4 || nk == 6 || nk == 8) && key.Length >= 4 * nk && buf as object != key
      modifies buf
      ensures Expanded(WordsOf(key[..4 * nk]), nk, buf[..])
    {
      hide GetLE, Pack;
      ghost var kw := WordsOf(key[..4 * nk]);
      var i := 0;
      while i < nk
        invariant 0 <= i <= nk
        invariant key[..4 * nk] == old(key[..4 * nk])
        invariant forall j: nat :: j < i ==> buf[j] == Pack(kw[j])
      {
        GetLEIsPack(key[4 * i], key[4 * i + 1], key[4 * i + 2], key[4 * i + 3]);
        buf[i] := GetLE(key[4 * i], key[4 * i + 1], key[4 * i + 2], key[4 * i + 3]);
        i := i + 1;
      }
    }

    /** The context holds the encryption schedule of the key `kw`. */
    ghost predicate HoldsSchedule(kw: seq<Word>)
      requires IsKey(kw)
      reads this, buf
    {
      Keyed() && nr == RoundCount(kw) && RoundKeys() == KeySchedule(kw) && Expanded(kw, 4 * nr + 4, buf[..])
    }

    /** The same byte by byte, from the bytes of the key. */
    ghost predicate HoldsExpansion(key: seq<bv8>)
      reads this, buf
    {
      IsKeyBytes(key) && Shape() && nr <= 14 && IsExpansion(key, UnpackAll(buf[..4 * nr + 4]))
    }

    /** The argument arrays do not overlap the static tables or one another. */
    ghost predicate Apart(t: Tables, key: array<bv8>) {
      {this as object, buf, key} !! {t as object} + t.Arrays() && buf as object != key
    }

    /** The function aes_setkey_enc. */
    method SetKeyEnc(t: Tables, key: array<bv8>, keysize: nat) returns (ret: int)
      requires Shape() && t.Valid() && Apart(t, key)
      requires IsKeySize(keysize) ==> key.Length >= keysize / 8
      modifies this, buf, t, t.Arrays()
      ensures t.Valid() && t.initDone
      ensures ret == if IsKeySize(keysize) then 0 else ERR_INVALID_KEY_LENGTH
      ensures ret == 0 ==> HoldsSchedule(KeyOf(key[..], keysize))
      ensures ret == 0 ==> HoldsExpansion(key[..keysize / 8])
      ensures ret != 0 ==> unchanged(this) && unchanged(buf)
    {
      hide t.Generated, t.Separate, Expanded, RoundKeys, KeySchedule, IsExpansion, UnpackAll;
      t.Init();
      match keysize {
        case 128 => nr := 10;
        case 192 => nr := 12;
        case 256 => nr := 14;
        case _ => return ERR_INVALID_KEY_LENGTH;
      }
      ghost var kw := KeyOf(key[..], keysize);
      assert key[..4 * (keysize / 32)] == key[..][..keysize / 8];
      LoadKey(key, keysize / 32);
      match nr {
        case 10 => Expand128(t, kw);
        case 12 => Expand192(t, kw); ExpandedPrefix(kw, 54, 52, buf[..]);
        case _ => Expand256(t, kw); ExpandedPrefix(kw, 64, 60, buf[..]);
      }
      ExpandedSchedule(kw);
      ExpandedByBytes(key[..keysize / 8], buf[..]);
      assert buf[..][..4 * nr + 4] == buf[..4 * nr + 4];
      return 0;
    }

    static lemma ExpandedPrefix(kw: seq<Word>, n: nat, m: nat, s: seq<bv32>)
      requires IsKey(kw) && m <= n && Expanded(kw, n, s)
      ensures Expanded(kw, m, s)
    {}

    // ---------- Key schedule (decryption) ----------

    /** The context holds the decryption schedule of the key `kw`. */
    ghost predicate HoldsInverseSchedule(kw: seq<Word>)
      requires IsKey(kw)
      reads this, buf
    {
      Keyed() && nr == RoundCount(kw) && IsInverseSchedule(KeySchedule(kw), RoundKeys())
    }

    /** The same from the bytes of the key. */
    ghost predicate HoldsReverse(key: seq<bv8>)
      reads this, buf
    {
      && IsKeyBytes(key) && Shape() && nr <= 14
      && exists w :: IsExpansion(key, w) && IsReverse(w, UnpackAll(buf[..4 * nr + 4]))
    }

    /** Four words copied from the encryption schedule of `cty`, at the first or last round key. */
    method CopyKey(cty: Context, q: nat, p: nat, ghost kw: seq<Word>)
      requires Shape() && cty.Shape() && cty.buf != buf && IsKey(kw)
      requires Expanded(kw, 4 * RoundCount(kw) + 4, cty.buf[..])
      requires (p == 0 && q == 4 * RoundCount(kw)) || (p == 4 * RoundCount(kw) && q == 0)
      requires InvExpanded(kw, p, buf[..])
      modifies buf
      ensures InvExpanded(kw, p + 4, buf[..])
    {
      hide Pack, KeyWord, InvMixColumn;
      var j := 0;
      while j < 4
        invariant 0 <= j <= 4
        invariant InvExpanded(kw, p + j, buf[..])
        invariant cty.buf[..] == old(cty.buf[..])
      {
        ghost var was := buf[..];
        assert cty.buf[q + j] == cty.buf[..][q + j] == Pack(InvKeyWord(kw, p + j));
        InvExpandedNext(kw, p + j, was, cty.buf[q + j]);
        buf[p + j] := cty.buf[q + j];
        assert buf[..] == was[p + j := cty.buf[q + j]];
        j := j + 1;
      }
    }

    /** Four words of an inner round key, with their columns inverse-mixed. */
    method MixKey(t: Tables, cty: Context, q: nat, p: nat, ghost kw: seq<Word>)
      requires Shape() && cty.Shape() && cty.buf != buf && t.Separate() && t.Generated()
      requires buf !in t.Arrays()
      requires IsKey(kw) && p + q == 4 * RoundCount(kw) && p % 4 == 0 && p != 0 && q != 0
      requires Expanded(kw, 4 * RoundCount(kw) + 4, cty.buf[..])
      requires InvExpanded(kw, p, buf[..])
      modifies buf
      ensures InvExpanded(kw, p + 4, buf[..])
    {
      hide t.Generated, t.InvKeyMix, Pack, KeyWord, InvMixColumn;
      var j := 0;
      while j < 4
        invariant 0 <= j <= 4
        invariant t.Generated()
        invariant InvExpanded(kw, p + j, buf[..])
        invariant cty.buf[..] == old(cty.buf[..])
      {
        ghost var was := buf[..];
        assert cty.buf[q + j] == cty.buf[..][q + j] == Pack(KeyWord(kw, q + j));
        t.InvKeyMixMeaning(KeyWord(kw, q + j));
        var v := t.InvKeyMix(cty.buf[q + j]);
        assert v == Pack(InvKeyWord(kw, p + j));
        InvExpandedNext(kw, p + j, was, v);
        buf[p + j] := v;
        assert buf[..] == was[p + j := v];
        j := j + 1;
      }
    }

    static lemma InvRoundKeyAt(kw: seq<Word>, r: nat, s: seq<bv32>)
      requires IsKey(kw) && r <= RoundCount(kw) && InvExpanded(kw, 4 * RoundCount(kw) + 4, s)
      ensures var k := RoundKey(kw, RoundCount(kw) - r);
              RoundKeysIn(RoundCount(kw) + 1, s)[r] ==
              if r == 0 || r == RoundCount(kw) then k else InvMixColumns(k)
    {
      hide Pack, Unpack, InvKeyWord, RoundKey, InvMixColumns;
      InvKeyWords(kw, r);
      UnpackPack(InvKeyWord(kw, 4 * r));
      UnpackPack(InvKeyWord(kw, 4 * r + 1));
      UnpackPack(InvKeyWord(kw, 4 * r + 2));
      UnpackPack(InvKeyWord(kw, 4 * r + 3));
    }

    lemma InvExpandedSchedule(kw: seq<Word>)
      requires IsKey(kw) && Keyed() && nr == RoundCount(kw) && InvExpanded(kw, 4 * nr + 4, buf[..])
      ensures HoldsInverseSchedule(kw)
    {
      hide InvExpanded, RoundKeysIn, RoundKey, InvMixColumns;
      forall r | 0 <= r < nr + 1
        ensures var k := KeySchedule(kw)[nr - r];
                RoundKeys()[r] == if r == 0 || r == nr then k else InvMixColumns(k)
      {
        InvRoundKeyAt(kw, r, buf[..]);
      }
    }

    static lemma InvKeyWords(kw: seq<Word>, r: nat)
      requires IsKey(kw) && r <= RoundCount(kw)
      ensures var k := RoundKey(kw, RoundCount(kw) - r);
              State(InvKeyWord(kw, 4 * r), InvKeyWord(kw, 4 * r + 1), InvKeyWord(kw, 4 * r + 2),
                  InvKeyWord(kw, 4 * r + 3)) ==
              if r == 0 || r == RoundCount(kw) then k else InvMixColumns(k)
    {
      hide KeyWord, InvMixColumn;
    }

    /** The three copying phases of aes_setkey_dec. */
    method InvertFrom(t: Tables, cty: Context, ghost kw: seq<Word>)
      requires Shape() && cty.Shape() && cty.buf != buf && t.Separate() && t.Generated()
      requires {this as object, buf} !! t.Arrays()
      requires IsKey(kw) && nr == cty.nr == RoundCount(kw)
      requires Expanded(kw, 4 * nr + 4, cty.buf[..])
      modifies buf
      ensures InvExpanded(kw, 4 * nr + 4, buf[..])
    {
      hide t.Generated, t.Separate, Expanded, InvExpanded;
      var sk, rk := cty.nr * 4, 0;
      InvExpandedNothing(kw, buf[..]);
      CopyKey(cty, sk, rk, kw);
      sk, rk := sk + 4, rk + 4;
      var i := nr - 1;
      sk := sk - 8;
      while i > 0
        invariant 0 <= i < nr && sk == 4 * i && rk == 4 * (nr - i)
        invariant t.Generated()
        invariant Expanded(kw, 4 * nr + 4, cty.buf[..])
        invariant InvExpanded(kw, rk, buf[..])
      {
        MixKey(t, cty, sk, rk, kw);
        sk, rk := sk + 4, rk + 4;
        i := i - 1;
        sk := sk - 8;
      }
      CopyKey(cty, sk, rk, kw);
    }

    /** The function aes_setkey_dec. */
    method SetKeyDec(t: Tables, key: array<bv8>, keysize: nat) returns (ret: int)
      requires Shape() && t.Valid() && Apart(t, key)
      requires IsKeySize(keysize) ==> key.Length >= keysize / 8
      modifies this, buf, t, t.Arrays()
      ensures t.Valid() && (ret == 0 ==> t.initDone)
      ensures ret == if IsKeySize(keysize) then 0 else ERR_INVALID_KEY_LENGTH
      ensures ret == 0 ==> HoldsInverseSchedule(KeyOf(key[..], keysize))
      ensures ret == 0 ==> HoldsReverse(key[..keysize / 8])
      ensures ret != 0 ==> unchanged(this) && unchanged(buf)
    {
      hide t.Generated, t.Separate, Expanded, InvExpanded, RoundKeys, KeySchedule, HoldsInverseSchedule;
      hide IsExpansion, UnpackAll, IsReverse, HoldsExpansion;
      match keysize {
        case 128 => nr := 10;
        case 192 => nr := 12;
        case 256 => nr := 14;
        case _ => return ERR_INVALID_KEY_LENGTH;
      }
      var cty := new Context();
      ret := cty.SetKeyEnc(t, key, keysize);
      ghost var kw := KeyOf(key[..], keysize);
      InvertFrom(t, cty, kw);
      InvExpandedSchedule(kw);
      assert key[..][..keysize / 8] == key[..keysize / 8];
      InvExpandedByBytes(key[..keysize / 8], buf[..]);
      assert buf[..][..4 * nr + 4] == buf[..4 * nr + 4];
    }

    static lemma InvExpandedNothing(kw: seq<Word>, s: seq<bv32>)
      requires IsKey(kw) && |s| == 68
      ensures InvExpanded(kw, 0, s)
    {}

    // ---------- Block encryption and decryption ----------

    lemma KeyAt(o: nat)
      requires Keyed() && o % 4 == 0 && o <= 4 * nr
      ensures StateW(buf[o], buf[o + 1], buf[o + 2], buf[o + 3]) == RoundKeys()[o / 4]
    {
      hide Unpack;
    }

    /** The macro AES_FROUND, with RK at `o`. */
    method FRound(t: Tables, o: nat, y0: bv32, y1: bv32, y2: bv32, y3: bv32)
      returns (x0: bv32, x1: bv32, x2: bv32, x3: bv32)
      requires Keyed() && t.Separate() && t.Generated() && o % 4 == 0 && o < 4 * nr
      ensures StateW(x0, x1, x2, x3) == Round(StateW(y0, y1, y2, y3), RoundKeys()[o / 4])
      ensures t.Generated()
    {
      hide t.Separate, t.Generated, t.FWord, StateW, RoundKeys, Round;
      KeyAt(o);
      FRoundMeaning(t, buf[o], buf[o + 1], buf[o + 2], buf[o + 3], y0, y1, y2, y3);
      x0 := t.FWord(buf[o], y0, y1, y2, y3);
      x1 := t.FWord(buf[o + 1], y1, y2, y3, y0);
      x2 := t.FWord(buf[o + 2], y2, y3, y0, y1);
      x3 := t.FWord(buf[o + 3], y3, y0, y1, y2);
    }

    /** The macro AES_RROUND, with RK at `o`. */
    method RRound(t: Tables, o: nat, y0: bv32, y1: bv32, y2: bv32, y3: bv32)
      returns (x0: bv32, x1: bv32, x2: bv32, x3: bv32)
      requires Keyed() && t.Separate() && t.Generated() && o % 4 == 0 && o < 4 * nr
      ensures StateW(x0, x1, x2, x3) == EqRound(StateW(y0, y1, y2, y3), RoundKeys()[o / 4])
      ensures t.Generated()
    {
      hide t.Separate, t.Generated, t.RWord, StateW, RoundKeys, EqRound;
      KeyAt(o);
      RRoundMeaning(t, buf[o], buf[o + 1], buf[o + 2], buf[o + 3], y0, y1, y2, y3);
      x0 := t.RWord(buf[o], y0, y3, y2, y1);
      x1 := t.RWord(buf[o + 1], y1, y0, y3, y2);
      x2 := t.RWord(buf[o + 2], y2, y1, y0, y3);
      x3 := t.RWord(buf[o + 3], y3, y2, y1, y0);
    }

    /** The encryption branch: rounds two at a time, then the round without column mixing. */
    method EncryptWords(t: Tables, x0: bv32, x1: bv32, x2: bv32, x3: bv32, ghost s: State)
      returns (X0: bv32, X1: bv32, X2: bv32, X3: bv32)
      requires Keyed() && t.Separate() && t.Generated()
      requires StateW(x0, x1, x2, x3) == AddRoundKey(s, RoundKeys()[0])
      ensures StateW(X0, X1, X2, X3) == Cipher(RoundKeys(), s)
    {
      hide t.Separate, t.Generated, t.FLast, StateW, RoundKeys, Round, AddRoundKey, ShiftRows, SubBytes;
      ghost var rk := RoundKeys();
      X0, X1, X2, X3 := x0, x1, x2, x3;
      var Y0, Y1, Y2, Y3;
      var o := 4;
      var i := nr / 2 - 1;
      while i > 0
        invariant 0 <= i <= nr / 2 - 1 && o == 4 * (nr - 1 - 2 * i)
        invariant t.Generated()
        invariant StateW(X0, X1, X2, X3) == Rounds(rk, s, nr - 2 - 2 * i)
      {
        Y0, Y1, Y2, Y3 := FRound(t, o, X0, X1, X2, X3);
        X0, X1, X2, X3 := FRound(t, o + 4, Y0, Y1, Y2, Y3);
        o := o + 8;
        i := i - 1;
      }
      Y0, Y1, Y2, Y3 := FRound(t, o, X0, X1, X2, X3);
      o := o + 4;
      LastRoundMeaning(t, buf[o], buf[o + 1], buf[o + 2], buf[o + 3], Y0, Y1, Y2, Y3);
      KeyAt(o);
      X0 := t.FLast(buf[o], Y0, Y1, Y2, Y3);
      X1 := t.FLast(buf[o + 1], Y1, Y2, Y3, Y0);
      X2 := t.FLast(buf[o + 2], Y2, Y3, Y0, Y1);
      X3 := t.FLast(buf[o + 3], Y3, Y0, Y1, Y2);
    }

    /** The decryption branch. */
    method DecryptWords(t: Tables, x0: bv32, x1: bv32, x2: bv32, x3: bv32, ghost s: State)
      returns (X0: bv32, X1: bv32, X2: bv32, X3: bv32)
      requires Keyed() && t.Separate() && t.Generated()
      requires StateW(x0, x1, x2, x3) == AddRoundKey(s, RoundKeys()[0])
      ensures StateW(X0, X1, X2, X3) == EqInvCipher(RoundKeys(), s)
    {
      hide t.Separate, t.Generated, t.RLast, StateW, RoundKeys, EqRound, AddRoundKey, InvShiftRows, InvSubBytes;
      ghost var rk := RoundKeys();
      X0, X1, X2, X3 := x0, x1, x2, x3;
      var Y0, Y1, Y2, Y3;
      var o := 4;
      var i := nr / 2 - 1;
      while i > 0
        invariant 0 <= i <= nr / 2 - 1 && o == 4 * (nr - 1 - 2 * i)
        invariant t.Generated()
        invariant StateW(X0, X1, X2, X3) == EqRounds(rk, s, nr - 2 - 2 * i)
      {
        Y0, Y1, Y2, Y3 := RRound(t, o, X0, X1, X2, X3);
        X0, X1, X2, X3 := RRound(t, o + 4, Y0, Y1, Y2, Y3);
        o := o + 8;
        i := i - 1;
      }
      Y0, Y1, Y2, Y3 := RRound(t, o, X0, X1, X2, X3);
      o := o + 4;
      LastRoundMeaning(t, buf[o], buf[o + 1], buf[o + 2], buf[o + 3], Y0, Y1, Y2, Y3);
      KeyAt(o);
      X0 := t.RLast(buf[o], Y0, Y3, Y2, Y1);
      X1 := t.RLast(buf[o + 1], Y1, Y0, Y3, Y2);
      X2 := t.RLast(buf[o + 2], Y2, Y1, Y0, Y3);
      X3 := t.RLast(buf[o + 3], Y3, Y2, Y1, Y0);
    }

    /** The words loaded at the start of aes_crypt_ecb, with the first round key added. */
    method LoadBlock(input: array<bv8>, i: nat) returns (X0: bv32, X1: bv32, X2: bv32, X3: bv32)
      requires Keyed() && i + 16 <= input.Length
      ensures StateW(X0, X1, X2, X3) == AddRoundKey(StateOf(input[i..i + 16]), RoundKeys()[0])
    {
      hide GetLE, Xor, Unpack, WAdd, RoundKeys;
      KeyAt(0);
      X0 := LoadWord(input, i, 0);
      X1 := LoadWord(input, i + 4, 1);
      X2 := LoadWord(input, i + 8, 2);
      X3 := LoadWord(input, i + 12, 3);
    }

    method LoadWord(input: array<bv8>, i: nat, k: nat) returns (X: bv32)
      requires Shape() && i + 4 <= input.Length && k < 4
      ensures Unpack(X) == WAdd(Word(input[i], input[i + 1], input[i + 2], input[i + 3]), Unpack(buf[k]))
    {
      hide GetLE, Xor, Unpack, WAdd;
      X := GetLE(input[i], input[i + 1], input[i + 2], input[i + 3]);
      GetLEBytes(input[i], input[i + 1], input[i + 2], input[i + 3]);
      UnpackXor(X, buf[k]);
      X := Xor(X, buf[k]);
    }

    /** The function aes_crypt_ecb: any mode other than AES_DECRYPT encrypts. All input is read
        before any output is written, so the two blocks may overlap in any way. */
    method CryptEcb(t: Tables, mode: int, input: array<bv8>, i: nat, output: array<bv8>, o: nat)
      requires Ready(t)
      requires i + 16 <= input.Length && o + 16 <= output.Length
      requires output as object !in t.Arrays() + {buf}
      modifies output
      ensures RoundKeys() == old(RoundKeys())
      ensures output[..] == Splice(old(output[..]), o, CryptBlock(mode, RoundKeys(), old(input[i..i + 16])))
      ensures Ready(t)
    {
      hide t.Separate, t.Generated, StateW, RoundKeys, Cipher, EqInvCipher, AddRoundKey, StateOf;
      ghost var s := StateOf(input[i..i + 16]);
      var X0, X1, X2, X3 := LoadBlock(input, i);
      assert t.Generated();
      if mode == AES_DECRYPT {
        X0, X1, X2, X3 := DecryptWords(t, X0, X1, X2, X3, s);
      } else {
        X0, X1, X2, X3 := EncryptWords(t, X0, X1, X2, X3, s);
      }
      StoreBlock(X0, X1, X2, X3, output, o);
    }

    static method StoreBlock(X0: bv32, X1: bv32, X2: bv32, X3: bv32, output: array<bv8>, o: nat)
      requires o + 16 <= output.Length
      modifies output
      ensures output[..] == Splice(old(output[..]), o, BytesOf(StateW(X0, X1, X2, X3)))
    {
      hide Splice, Unpack, ColumnBytes;
      ghost var s := output[..];
      StoreWord(X0, output, o);
      StoreWord(X1, output, o + 4);
      StoreWord(X2, output, o + 8);
      StoreWord(X3, output, o + 12);
      SpliceTwice(s, o, ColumnBytes(Unpack(X0)), ColumnBytes(Unpack(X1)));
      SpliceTwice(s, o, ColumnBytes(Unpack(X0)) + ColumnBytes(Unpack(X1)), ColumnBytes(Unpack(X2)));
      SpliceTwice(s, o, ColumnBytes(Unpack(X0)) + ColumnBytes(Unpack(X1)) + ColumnBytes(Unpack(X2)),
          ColumnBytes(Unpack(X3)));
    }

    /** The macro PUT_UINT32_LE. */
    static method StoreWord(X: bv32, output: array<bv8>, o: nat)
      requires o + 4 <= output.Length
      modifies output
      ensures output[..] == Splice(old(output[..]), o, ColumnBytes(Unpack(X)))
    {
      hide Low;
      output[o] := Low(X);
      output[o + 1] := Low(X >> 8);
      output[o + 2] := Low(X >> 16);
      output[o + 3] := Low(X >> 24);
    }
  }
}
