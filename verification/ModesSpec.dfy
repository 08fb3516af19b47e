/**
  The modes of operation of NIST SP 800-38A as functions of whole messages, and the laws
  they are used for: decryption undoes encryption, and a message may be split over calls.
  `rk` is the encryption schedule and `dk` the decryption schedule of a key.
 */
module ModesSpec {
  import opened Division
  import opened GF256
  import opened Fips197
  import opened AesBlock

  lemma TakeTake<T>(s: seq<T>, j: nat)
    requires 0 < j <= |s|
    ensures s[..j][..j - 1] == s[..j - 1] && s[..j][j - 1] == s[j - 1]
  {}

  lemma Regroup<T>(a: seq<T>, b: seq<T>, c: seq<T>)
    ensures (a + b) + c == a + (b + c)
  {}

  function XorBytes(a: seq<bv8>, b: seq<bv8>): (c: seq<bv8>)
    requires |a| <= |b|
    ensures |c| == |a|
  {
    seq(|a|, i requires 0 <= i < |a| => Add(a[i], b[i]))
  }

  lemma XorBytesTwice(a: seq<bv8>, b: seq<bv8>)
    requires |a| <= |b|
    ensures XorBytes(XorBytes(a, b), b) == a
  {
    hide Add;
    forall i | 0 <= i < |a|
      ensures XorBytes(XorBytes(a, b), b)[i] == a[i]
    {
      AddAssociates(a[i], b[i], b[i]);
      AddZero(a[i]);
      AddZero(b[i]);
    }
  }

  // ---------- CBC (section 6.2) ----------

  ghost predicate IsAligned(m: seq<bv8>) {
    |m| % 16 == 0
  }

  ghost function CbcEncrypt(rk: seq<State>, iv: seq<bv8>, m: seq<bv8>): (c: seq<bv8>)
    requires IsSchedule(rk) && IsBlock(iv) && IsAligned(m)
    ensures |c| == |m|
    decreases |m|
  {
    hide XorBytes, EncryptBlock;
    if m == [] then []
    else
      var b := EncryptBlock(rk, XorBytes(m[..16], iv));
      b + CbcEncrypt(rk, b, m[16..])
  }

  ghost function CbcDecrypt(dk: seq<State>, iv: seq<bv8>, c: seq<bv8>): (m: seq<bv8>)
    requires IsSchedule(dk) && IsBlock(iv) && IsAligned(c)
    ensures |m| == |c|
    decreases |c|
  {
    hide XorBytes, DecryptBlock;
    if c == [] then []
    else XorBytes(DecryptBlock(dk, c[..16]), iv) + CbcDecrypt(dk, c[..16], c[16..])
  }

  /** The IV left behind: the last ciphertext block, if there is one. */
  function LastBlock(iv: seq<bv8>, c: seq<bv8>): (b: seq<bv8>)
    requires IsBlock(iv) && |c| % 16 == 0
    ensures IsBlock(b)
  {
    if c == [] then iv else c[|c| - 16..]
  }

  /** CBC decryption undoes CBC encryption, for every key, IV and aligned message. */
  lemma {:induction false} CbcRoundTrip(rk: seq<State>, dk: seq<State>, iv: seq<bv8>, m: seq<bv8>)
    requires IsInverseSchedule(rk, dk) && IsBlock(iv) && IsAligned(m)
    ensures CbcDecrypt(dk, iv, CbcEncrypt(rk, iv, m)) == m
    decreases |m|
  {
    hide XorBytes, EncryptBlock, DecryptBlock;
    if m == [] {
    } else {
      var x := XorBytes(m[..16], iv);
      var b := EncryptBlock(rk, x);
      var c := b + CbcEncrypt(rk, b, m[16..]);
      assert c[..16] == b && c[16..] == CbcEncrypt(rk, b, m[16..]);
      DecryptUndoesEncrypt(rk, dk, x);
      XorBytesTwice(m[..16], iv);
      CbcRoundTrip(rk, dk, b, m[16..]);
      assert m == m[..16] + m[16..];
    }
  }

  /** Two calls that hand the IV on are one call. */
  lemma {:induction false} CbcEncryptSplit(rk: seq<State>, iv: seq<bv8>, m: seq<bv8>, m': seq<bv8>)
    requires IsSchedule(rk) && IsBlock(iv) && IsAligned(m) && IsAligned(m')
    ensures var c := CbcEncrypt(rk, iv, m);
            CbcEncrypt(rk, iv, m + m') == c + CbcEncrypt(rk, LastBlock(iv, c), m')
    decreases |m|
  {
    hide XorBytes, EncryptBlock;
    if m == [] {
      assert m + m' == m';
    } else {
      var b := EncryptBlock(rk, XorBytes(m[..16], iv));
      assert (m + m')[..16] == m[..16] && (m + m')[16..] == m[16..] + m';
      CbcEncryptSplit(rk, b, m[16..], m');
      LastBlockOf(iv, b, CbcEncrypt(rk, b, m[16..]));
    }
  }

  lemma {:induction false} CbcDecryptSplit(dk: seq<State>, iv: seq<bv8>, c: seq<bv8>, c': seq<bv8>)
    requires IsSchedule(dk) && IsBlock(iv) && IsAligned(c) && IsAligned(c')
    ensures CbcDecrypt(dk, iv, c + c') == CbcDecrypt(dk, iv, c) + CbcDecrypt(dk, LastBlock(iv, c), c')
    decreases |c|
  {
    hide XorBytes, DecryptBlock;
    if c == [] {
      assert c + c' == c';
    } else {
      assert (c + c')[..16] == c[..16] && (c + c')[16..] == c[16..] + c';
      CbcDecryptSplit(dk, c[..16], c[16..], c');
      LastBlockOf(iv, c[..16], c[16..]);
      assert c == c[..16] + c[16..];
    }
  }

  /** Block `i` of a message, or the block before the first one. */
  function BlockAt(iv: seq<bv8>, m: seq<bv8>, i: int): (b: seq<bv8>)
    requires IsBlock(iv) && -1 <= i && 16 * i + 16 <= |m|
    ensures IsBlock(b)
  {
    if i == -1 then iv else m[16 * i..16 * i + 16]
  }

  lemma BlockBehind(iv: seq<bv8>, b: seq<bv8>, m: seq<bv8>, i: int)
    requires IsBlock(iv) && IsBlock(b) && 0 <= i && 16 * i <= |m|
    ensures BlockAt(iv, b + m, i) == BlockAt(b, m, i - 1)
  {}

  /** The equation of the standard: C_i = CIPH(P_i xor C_(i-1)), with the IV before C_0. */
  lemma {:induction false} CbcEncryptAt(rk: seq<State>, iv: seq<bv8>, m: seq<bv8>, i: nat)
    requires IsSchedule(rk) && IsBlock(iv) && IsAligned(m) && 16 * i + 16 <= |m|
    ensures var c := CbcEncrypt(rk, iv, m);
            BlockAt(iv, c, i) == EncryptBlock(rk, XorBytes(BlockAt(iv, m, i), BlockAt(iv, c, i - 1)))
    decreases |m|
  {
    hide XorBytes, EncryptBlock, BlockAt;
    var b := EncryptBlock(rk, XorBytes(m[..16], iv));
    var rest := CbcEncrypt(rk, b, m[16..]);
    BlockBehind(iv, b, rest, i);
    BlockBehind(iv, m[..16], m[16..], i);
    assert m == m[..16] + m[16..];
    if i == 0 {
      FirstBlocks(iv, m);
      FirstBlocks(b, rest);
      FirstBlocks(iv, b + rest);
      assert (b + rest)[..16] == b;
    } else {
      CbcEncryptAt(rk, b, m[16..], i - 1);
      BlockBehind(iv, b, rest, i - 1);
      IvUnused(b, m[..16], m[16..], i - 1);
    }
  }

  lemma FirstBlocks(iv: seq<bv8>, m: seq<bv8>)
    requires IsBlock(iv)
    ensures BlockAt(iv, m, -1) == iv
    ensures |m| >= 16 ==> BlockAt(iv, m, 0) == m[..16]
  {}

  lemma IvUnused(iv: seq<bv8>, iv': seq<bv8>, m: seq<bv8>, i: nat)
    requires IsBlock(iv) && IsBlock(iv') && 16 * i + 16 <= |m|
    ensures BlockAt(iv, m, i) == BlockAt(iv', m, i)
  {}

  /** P_i = CIPH^-1(C_i) xor C_(i-1). */
  lemma {:induction false} CbcDecryptAt(dk: seq<State>, iv: seq<bv8>, c: seq<bv8>, i: nat)
    requires IsSchedule(dk) && IsBlock(iv) && IsAligned(c) && 16 * i + 16 <= |c|
    ensures BlockAt(iv, CbcDecrypt(dk, iv, c), i) ==
            XorBytes(DecryptBlock(dk, BlockAt(iv, c, i)), BlockAt(iv, c, i - 1))
    decreases |c|
  {
    hide XorBytes, DecryptBlock, BlockAt;
    var b := XorBytes(DecryptBlock(dk, c[..16]), iv);
    var rest := CbcDecrypt(dk, c[..16], c[16..]);
    BlockBehind(iv, b, rest, i);
    BlockBehind(iv, c[..16], c[16..], i);
    assert c == c[..16] + c[16..];
    if i == 0 {
      FirstBlocks(iv, c);
      FirstBlocks(b, rest);
    } else {
      CbcDecryptAt(dk, c[..16], c[16..], i - 1);
      BlockBehind(iv, c[..16], c[16..], i - 1);
      IvUnused(b, c[..16], rest, i - 1);
    }
  }

  lemma LastBlockOf(iv: seq<bv8>, b: seq<bv8>, c: seq<bv8>)
    requires IsBlock(iv) && IsBlock(b) && |c| % 16 == 0
    ensures LastBlock(iv, b + c) == LastBlock(b, c)
  {}

  // ---------- CFB with 128-bit segments (section 6.3), byte by byte ----------

  /** The feedback register and the position in it. */
  datatype Cfb = Cfb(iv: seq<bv8>, n: nat) {
    predicate Valid() {
      IsBlock(iv) && n < 16
    }
  }

  /** The register when the next byte is processed: encrypted afresh at a block boundary. */
  ghost function CfbRefill(rk: seq<State>, s: Cfb): (r: Cfb)
    requires IsSchedule(rk) && s.Valid()
    ensures r.Valid() && r.n == s.n
  {
    if s.n == 0 then Cfb(EncryptBlock(rk, s.iv), 0) else s
  }

  /** The ciphertext byte replaces the register byte it was added to. */
  ghost function CfbNext(r: Cfb, c: bv8): (s: Cfb)
    requires r.Valid()
    ensures s.Valid()
  {
    Cfb(r.iv[r.n := c], (r.n + 1) % 16)
  }

  /** The ciphertext byte of an input byte, in either direction. */
  function CfbCipherByte(mode: int, r: Cfb, x: bv8): bv8
    requires r.Valid()
  {
    if mode == AES_DECRYPT then x else Add(r.iv[r.n], x)
  }

  ghost function CfbState(rk: seq<State>, mode: int, s: Cfb, m: seq<bv8>): (s': Cfb)
    requires IsSchedule(rk) && s.Valid()
    ensures s'.Valid()
    decreases |m|
  {
    if m == [] then s
    else
      var r := CfbRefill(rk, s);
      CfbState(rk, mode, CfbNext(r, CfbCipherByte(mode, r, m[0])), m[1..])
  }

  ghost function CfbOutput(rk: seq<State>, mode: int, s: Cfb, m: seq<bv8>): (c: seq<bv8>)
    requires IsSchedule(rk) && s.Valid()
    ensures |c| == |m|
    decreases |m|
  {
    if m == [] then []
    else
      var r := CfbRefill(rk, s);
      [Add(r.iv[r.n], m[0])] + CfbOutput(rk, mode, CfbNext(r, CfbCipherByte(mode, r, m[0])), m[1..])
  }

  /** CFB decryption undoes CFB encryption, and both leave the same register behind. */
  lemma {:induction false} CfbRoundTrip(rk: seq<State>, s: Cfb, m: seq<bv8>)
    requires IsSchedule(rk) && s.Valid()
    ensures var c := CfbOutput(rk, AES_ENCRYPT, s, m);
            && CfbOutput(rk, AES_DECRYPT, s, c) == m
            && CfbState(rk, AES_DECRYPT, s, c) == CfbState(rk, AES_ENCRYPT, s, m)
    decreases |m|
  {
    hide Add, EncryptBlock, CfbRefill, CfbNext;
    if m == [] {
    } else {
      var r := CfbRefill(rk, s);
      var k := r.iv[r.n];
      var c0 := Add(k, m[0]);
      var s1 := CfbNext(r, c0);
      var rest := CfbOutput(rk, AES_ENCRYPT, s1, m[1..]);
      var c := [c0] + rest;
      assert c[0] == c0 && c[1..] == rest;
      CfbRoundTrip(rk, s1, m[1..]);
      AddAssociates(k, k, m[0]);
      AddZero(k);
      AddZero(m[0]);
      assert m == [m[0]] + m[1..];
    }
  }

  /** Any split of the data over calls gives the same bytes and the same final register. */
  lemma {:induction false} CfbSplit(rk: seq<State>, mode: int, s: Cfb, m: seq<bv8>, m': seq<bv8>)
    requires IsSchedule(rk) && s.Valid()
    ensures var s1 := CfbState(rk, mode, s, m);
            && CfbOutput(rk, mode, s, m + m') == CfbOutput(rk, mode, s, m) + CfbOutput(rk, mode, s1, m')
            && CfbState(rk, mode, s, m + m') == CfbState(rk, mode, s1, m')
    decreases |m|
  {
    hide Add, EncryptBlock, CfbRefill, CfbNext;
    if m == [] {
      assert m + m' == m';
    } else {
      var r := CfbRefill(rk, s);
      assert (m + m')[0] == m[0] && (m + m')[1..] == m[1..] + m';
      CfbSplit(rk, mode, CfbNext(r, CfbCipherByte(mode, r, m[0])), m[1..], m');
    }
  }

  /** Mode CFB of the standard on whole segments: C_j = P_j + CIPH(C_(j-1)). */
  ghost function CfbBlocks(rk: seq<State>, iv: seq<bv8>, m: seq<bv8>): (c: seq<bv8>)
    requires IsSchedule(rk) && IsBlock(iv) && IsAligned(m)
    ensures |c| == |m|
    decreases |m|
  {
    if m == [] then []
    else
      var b := XorBytes(m[..16], EncryptBlock(rk, iv));
      b + CfbBlocks(rk, b, m[16..])
  }

  /** Processing a byte away from a block boundary. */
  lemma CfbInnerByte(rk: seq<State>, s: Cfb, m: seq<bv8>)
    requires IsSchedule(rk) && s.Valid() && s.n != 0 && m != []
    ensures var c0 := Add(m[0], s.iv[s.n]);
            var s1 := Cfb(s.iv[s.n := c0], (s.n + 1) % 16);
            && CfbOutput(rk, AES_ENCRYPT, s, m) == [c0] + CfbOutput(rk, AES_ENCRYPT, s1, m[1..])
            && CfbState(rk, AES_ENCRYPT, s, m) == CfbState(rk, AES_ENCRYPT, s1, m[1..])
  {
    hide Add, EncryptBlock;
    AddCommutes(s.iv[s.n], m[0]);
  }

  lemma XorBytesFirst(a: seq<bv8>, b: seq<bv8>)
    requires 0 < |a| <= |b|
    ensures XorBytes(a, b) == [Add(a[0], b[0])] + XorBytes(a[1..], b[1..])
  {
    hide Add;
  }

  /** From position n to the end of the register, no refill happens. */
  lemma {:induction false} CfbWithinBlock(rk: seq<State>, s: Cfb, m: seq<bv8>)
    requires IsSchedule(rk) && s.Valid() && s.n != 0 && |m| == 16 - s.n
    ensures CfbOutput(rk, AES_ENCRYPT, s, m) == XorBytes(m, s.iv[s.n..])
    ensures CfbState(rk, AES_ENCRYPT, s, m) == Cfb(s.iv[..s.n] + XorBytes(m, s.iv[s.n..]), 0)
    decreases |m|
  {
    hide Add, CfbOutput, CfbState, XorBytes;
    CfbInnerByte(rk, s, m);
    XorBytesFirst(m, s.iv[s.n..]);
    var c0 := Add(m[0], s.iv[s.n]);
    var s1 := Cfb(s.iv[s.n := c0], (s.n + 1) % 16);
    assert s.iv[s.n..][1..] == s.iv[s.n + 1..];
    if |m| == 1 {
      CfbNothing(rk, s1, m[1..], s.iv[s.n + 1..]);
      assert s1.iv == s.iv[..s.n] + [c0];
    } else {
      CfbWithinBlock(rk, s1, m[1..]);
      assert s1.iv[s1.n..] == s.iv[s.n + 1..];
      assert s1.iv[..s1.n] == s.iv[..s.n] + [c0];
    }
  }

  lemma CfbNothing(rk: seq<State>, s: Cfb, m: seq<bv8>, b: seq<bv8>)
    requires IsSchedule(rk) && s.Valid() && m == []
    ensures CfbState(rk, AES_ENCRYPT, s, m) == s && CfbOutput(rk, AES_ENCRYPT, s, m) == [] == XorBytes(m, b)
  {}

  lemma CfbOneBlock(rk: seq<State>, iv: seq<bv8>, m: seq<bv8>)
    requires IsSchedule(rk) && IsBlock(iv) && |m| == 16
    ensures var c := XorBytes(m, EncryptBlock(rk, iv));
            && CfbOutput(rk, AES_ENCRYPT, Cfb(iv, 0), m) == c
            && CfbState(rk, AES_ENCRYPT, Cfb(iv, 0), m) == Cfb(c, 0)
  {
    hide Add, EncryptBlock;
    var e := EncryptBlock(rk, iv);
    var c0 := Add(e[0], m[0]);
    var s1 := CfbNext(Cfb(e, 0), c0);
    AddCommutes(e[0], m[0]);
    CfbWithinBlock(rk, s1, m[1..]);
    assert s1.iv[1..] == e[1..] && s1.iv[..1] == [c0];
    assert XorBytes(m, e) == [c0] + XorBytes(m[1..], e[1..]);
  }

  /** On whole blocks, starting at a block boundary, the byte loop computes CFB mode. */
  lemma {:induction false} CfbIsBlockMode(rk: seq<State>, iv: seq<bv8>, m: seq<bv8>)
    requires IsSchedule(rk) && IsBlock(iv) && IsAligned(m)
    ensures CfbOutput(rk, AES_ENCRYPT, Cfb(iv, 0), m) == CfbBlocks(rk, iv, m)
    decreases |m|
  {
    hide XorBytes, EncryptBlock, CfbOutput, CfbState;
    if m == [] {
      CfbOutputEmpty(rk, Cfb(iv, 0));
    } else {
      CfbOneBlock(rk, iv, m[..16]);
      CfbSplit(rk, AES_ENCRYPT, Cfb(iv, 0), m[..16], m[16..]);
      assert m == m[..16] + m[16..];
      CfbIsBlockMode(rk, XorBytes(m[..16], EncryptBlock(rk, iv)), m[16..]);
    }
  }

  lemma CfbOutputEmpty(rk: seq<State>, s: Cfb)
    requires IsSchedule(rk) && s.Valid()
    ensures CfbOutput(rk, AES_ENCRYPT, s, []) == []
  {}

  // ---------- CTR (section 6.5) ----------

  function Bump(b: bv8): bv8 {
    b + 1
  }

  /** The big-endian increment loop of aes_crypt_ctr, which wraps around at the end. */
  function Increment(c: seq<bv8>): (d: seq<bv8>)
    ensures |d| == |c|
  {
    if c == [] then []
    else
      var last := Bump(c[|c| - 1]);
      if last != 0 then c[..|c| - 1] + [last] else Increment(c[..|c| - 1]) + [0]
  }

  /** The number a big-endian counter stands for. */
  function Value(c: seq<bv8>): nat {
    if c == [] then 0 else 256 * Value(c[..|c| - 1]) + Index(c[|c| - 1])
  }

  function Pow256(n: nat): (p: nat)
    ensures p >= 1
  {
    if n == 0 then 1 else 256 * Pow256(n - 1)
  }

  lemma {:induction false} ValueBounded(c: seq<bv8>)
    ensures Value(c) < Pow256(|c|)
  {
    hide Index;
    if c == [] {
    } else {
      ValueBounded(c[..|c| - 1]);
    }
  }

  /** Incrementing adds one modulo 256^n. */
  lemma {:induction false} IncrementValue(c: seq<bv8>)
    ensures Value(Increment(c)) == (if Value(c) + 1 == Pow256(|c|) then 0 else Value(c) + 1)
  {
    hide Index;
    if c == [] {
    } else {
      var front, b := c[..|c| - 1], c[|c| - 1];
      IndexSuccessor(b);
      IndexInjective(b, 0);
      IndexInjective(0, 0);
      IncrementValue(front);
      ValueBounded(front);
      var d := Increment(c);
      if Bump(b) != 0 {
        assert d[..|d| - 1] == front && d[|d| - 1] == Bump(b);
      } else {
        assert d[..|d| - 1] == Increment(front) && d[|d| - 1] == 0;
      }
    }
  }

  /** The counter after `k` increments. */
  function CounterAt(c: seq<bv8>, k: nat): (d: seq<bv8>)
    ensures |d| == |c|
  {
    if k == 0 then c else Increment(CounterAt(c, k - 1))
  }

  /** The counter is a number modulo 2^128. */
  lemma {:induction false} CounterValue(c: seq<bv8>, k: nat)
    ensures Value(CounterAt(c, k)) == (Value(c) + k) % Pow256(|c|)
  {
    hide Value, Increment, Pow256;
    var p := Pow256(|c|);
    ValueBounded(c);
    if k == 0 {
      ModSmall(Value(c), p);
    } else {
      CounterValue(c, k - 1);
      IncrementValue(CounterAt(c, k - 1));
      ModSuccessor(Value(c) + k - 1, p);
    }
  }

  lemma ModSmall(a: nat, p: nat)
    requires a < p
    ensures a % p == a
  {}

  lemma ModSuccessor(a: nat, p: nat)
    requires p > 0
    ensures (a + 1) % p == if a % p + 1 == p then 0 else a % p + 1
  {
    var q, r := a / p, a % p;
    assert a == q * p + r;
    if r + 1 == p {
      assert a + 1 == (q + 1) * p + 0;
      DivModUnique(q + 1, 0, p, a + 1);
    } else {
      DivModUnique(q, r + 1, p, a + 1);
    }
  }

  datatype Ctr = Ctr(counter: seq<bv8>, stream: seq<bv8>, n: nat) {
    predicate Valid() {
      IsBlock(counter) && IsBlock(stream) && n < 16
    }
  }

  ghost function CtrRefill(rk: seq<State>, s: Ctr): (r: Ctr)
    requires IsSchedule(rk) && s.Valid()
    ensures r.Valid() && r.n == s.n
  {
    if s.n == 0 then Ctr(Increment(s.counter), EncryptBlock(rk, s.counter), 0) else s
  }

  /** The state after `k` bytes. The data does not enter into it. */
  ghost function CtrState(rk: seq<State>, s: Ctr, k: nat): (s': Ctr)
    requires IsSchedule(rk) && s.Valid()
    ensures s'.Valid()
  {
    if k == 0 then s
    else
      var r := CtrRefill(rk, CtrState(rk, s, k - 1));
      r.(n := (r.n + 1) % 16)
  }

  /** Byte `i` of the key stream that starts in state `s`. */
  ghost function KeyByte(rk: seq<State>, s: Ctr, i: nat): bv8
    requires IsSchedule(rk) && s.Valid()
  {
    var r := CtrRefill(rk, CtrState(rk, s, i));
    r.stream[r.n]
  }

  ghost function CtrOutput(rk: seq<State>, s: Ctr, m: seq<bv8>): (c: seq<bv8>)
    requires IsSchedule(rk) && s.Valid()
    ensures |c| == |m|
  {
    if m == [] then []
    else
      var k := |m| - 1;
      CtrOutput(rk, s, m[..k]) + [Add(m[k], KeyByte(rk, s, k))]
  }

  /** CTR mode is its own inverse: running it again from the same state restores the data. */
  lemma {:induction false} CtrSelfInverse(rk: seq<State>, s: Ctr, m: seq<bv8>)
    requires IsSchedule(rk) && s.Valid()
    ensures CtrOutput(rk, s, CtrOutput(rk, s, m)) == m
  {
    hide Add, KeyByte;
    if m == [] {
    } else {
      var k := |m| - 1;
      CtrSelfInverse(rk, s, m[..k]);
      var c := CtrOutput(rk, s, m);
      assert c[..k] == CtrOutput(rk, s, m[..k]);
      AddAssociates(m[k], KeyByte(rk, s, k), KeyByte(rk, s, k));
      AddZero(KeyByte(rk, s, k));
      AddZero(m[k]);
      assert m == m[..k] + [m[k]];
    }
  }

  lemma {:induction false} CtrStateSplit(rk: seq<State>, s: Ctr, j: nat, k: nat)
    requires IsSchedule(rk) && s.Valid()
    ensures CtrState(rk, s, j + k) == CtrState(rk, CtrState(rk, s, j), k)
  {
    hide CtrRefill;
    if k == 0 {
    } else {
      CtrStateSplit(rk, s, j, k - 1);
    }
  }

  lemma KeyByteSplit(rk: seq<State>, s: Ctr, j: nat, i: nat)
    requires IsSchedule(rk) && s.Valid()
    ensures KeyByte(rk, s, j + i) == KeyByte(rk, CtrState(rk, s, j), i)
  {
    hide CtrState, CtrRefill;
    CtrStateSplit(rk, s, j, i);
  }

  /** Any split of the data over calls gives the same bytes. */
  lemma {:induction false} CtrSplit(rk: seq<State>, s: Ctr, m: seq<bv8>, m': seq<bv8>)
    requires IsSchedule(rk) && s.Valid()
    ensures CtrOutput(rk, s, m + m') == CtrOutput(rk, s, m) + CtrOutput(rk, CtrState(rk, s, |m|), m')
    ensures CtrState(rk, s, |m + m'|) == CtrState(rk, CtrState(rk, s, |m|), |m'|)
    decreases |m'|
  {
    hide Add, CtrState, KeyByte;
    CtrStateSplit(rk, s, |m|, |m'|);
    if m' == [] {
      assert m + m' == m;
    } else {
      var k := |m'| - 1;
      CtrSplit(rk, s, m, m'[..k]);
      KeyByteSplit(rk, s, |m|, k);
      assert (m + m')[..|m| + k] == m + m'[..k] && (m + m')[|m| + k] == m'[k];
    }
  }

  /** The number of blocks begun after `p` bytes. */
  function Ceil16(p: nat): nat {
    (p + 15) / 16
  }

  /** The key stream block with index `q`, counting from the block the state is in. */
  ghost function StreamBlock(rk: seq<State>, s: Ctr, q: nat): (b: seq<bv8>)
    requires IsSchedule(rk) && s.Valid()
    ensures IsBlock(b)
  {
    if q < Ceil16(s.n) then s.stream else EncryptBlock(rk, CounterAt(s.counter, q - Ceil16(s.n)))
  }

  lemma Ceil16Step(p: nat)
    ensures Ceil16(p + 1) == if p % 16 == 0 then Ceil16(p) + 1 else Ceil16(p)
    ensures p % 16 == 0 ==> Ceil16(p) == p / 16
    ensures (p + 1) % 16 == (p % 16 + 1) % 16
    ensures (p + 1) % 16 != 0 ==> (p + 1) / 16 == p / 16
  {}

  lemma Ceil16Monotone(p: nat, q: nat)
    requires p <= q
    ensures Ceil16(p) <= Ceil16(q)
  {}

  /** The counter advances once per block begun, and the position once per byte. */
  lemma {:induction false} CtrAdvance(rk: seq<State>, s: Ctr, k: nat)
    requires IsSchedule(rk) && s.Valid()
    ensures Ceil16(s.n) <= Ceil16(s.n + k)
    ensures var t := CtrState(rk, s, k);
            && t.n == (s.n + k) % 16
            && t.counter == CounterAt(s.counter, Ceil16(s.n + k) - Ceil16(s.n))
            && ((s.n + k) % 16 != 0 ==> t.stream == StreamBlock(rk, s, (s.n + k) / 16))
  {
    hide EncryptBlock, Increment, Ceil16;
    Ceil16Monotone(s.n, s.n + k);
    if k != 0 {
      CtrAdvance(rk, s, k - 1);
      Ceil16Step(s.n + k - 1);
      Ceil16Monotone(s.n, s.n + k - 1);
    } else if s.n != 0 {
      StartBlock(s.n);
    }
  }

  lemma StartBlock(n: nat)
    requires 0 < n < 16
    ensures Ceil16(n) == 1
  {}

  /** Every byte of CTR output, in closed form: counter blocks T_q are the initial counter plus
      q modulo 2^128, whatever the position at which the call resumes. */
  lemma {:induction false} CtrClosedForm(rk: seq<State>, s: Ctr, m: seq<bv8>, i: nat)
    requires IsSchedule(rk) && s.Valid() && i < |m|
    ensures CtrOutput(rk, s, m)[i] == Add(m[i], StreamBlock(rk, s, (s.n + i) / 16)[(s.n + i) % 16])
  {
    hide Add, EncryptBlock, Increment, CtrState;
    var k := |m| - 1;
    if i == k {
      CtrAdvance(rk, s, i);
    } else {
      CtrClosedForm(rk, s, m[..k], i);
    }
  }

  /** The counter left behind: the number of blocks begun is added modulo 2^128. */
  lemma CtrFinalCounter(rk: seq<State>, s: Ctr, k: nat)
    requires IsSchedule(rk) && s.Valid()
    ensures Value(CtrState(rk, s, k).counter) ==
            (Value(s.counter) + (Ceil16(s.n + k) - Ceil16(s.n))) % Pow256(16)
  {
    hide Value, CtrState, Pow256;
    CtrAdvance(rk, s, k);
    CounterValue(s.counter, Ceil16(s.n + k) - Ceil16(s.n));
  }
}
