/**
  The buffer loops of C/AES/aes.cpp: CBC, CFB128 and CTR over arrays, in place or not,
  proved against the modes as functions of whole messages.
 */
module AesModes {
  import opened GF256
  import opened Fips197
  import opened CipherBytes
  import opened AesStatic
  import opened AesBlock
  import opened ModesSpec

  const ERR_INVALID_INPUT_LENGTH := -0x22

  /** The array `a` may be written while the schedule and the tables are in use. */
  ghost predicate Writable(t: Tables, ctx: Context, a: array<bv8>) {
    a as object !in t.Arrays() + {ctx.buf, ctx}
  }

  /** Input and output regions fit; when they share an array, output does not run into input that
      is still to be read, which covers the in-place use. */
  ghost predicate Regions(length: nat, input: array<bv8>, i: nat, output: array<bv8>, o: nat) {
    && i + length <= input.Length && o + length <= output.Length
    && (input == output ==> o <= i || i + length <= o)
  }

  // ---------- CBC ----------

  lemma CbcDecryptNext(dk: seq<State>, iv: seq<bv8>, src: seq<bv8>, k: nat)
    requires IsSchedule(dk) && IsBlock(iv) && k % 16 == 0 && k + 16 <= |src|
    ensures CbcDecrypt(dk, iv, src[..k + 16]) ==
            CbcDecrypt(dk, iv, src[..k]) + XorBytes(DecryptBlock(dk, src[k..k + 16]), LastBlock(iv, src[..k]))
    ensures LastBlock(iv, src[..k + 16]) == src[k..k + 16]
  {
    hide XorBytes, DecryptBlock;
    assert src[..k + 16] == src[..k] + src[k..k + 16];
    CbcDecryptSplit(dk, iv, src[..k], src[k..k + 16]);
    var b := src[k..k + 16];
    assert b[..16] == b && b[16..] == [];
    assert CbcDecrypt(dk, LastBlock(iv, src[..k]), b[16..]) == [];
  }

  lemma CbcEncryptNext(rk: seq<State>, iv: seq<bv8>, src: seq<bv8>, k: nat)
    requires IsSchedule(rk) && IsBlock(iv) && k % 16 == 0 && k + 16 <= |src|
    ensures var c := CbcEncrypt(rk, iv, src[..k]);
            var b := EncryptBlock(rk, XorBytes(src[k..k + 16], LastBlock(iv, c)));
            CbcEncrypt(rk, iv, src[..k + 16]) == c + b && LastBlock(iv, c + b) == b
  {
    hide XorBytes, EncryptBlock;
    assert src[..k + 16] == src[..k] + src[k..k + 16];
    CbcEncryptSplit(rk, iv, src[..k], src[k..k + 16]);
    var c := CbcEncrypt(rk, iv, src[..k]);
    var x := src[k..k + 16];
    assert x[..16] == x && x[16..] == [];
    var b := EncryptBlock(rk, XorBytes(x, LastBlock(iv, c)));
    assert CbcEncrypt(rk, b, x[16..]) == [];
  }

  lemma SpliceNothing(out: seq<bv8>, o: nat)
    requires o <= |out|
    ensures Splice(out, o, []) == out
  {}

  lemma CbcStart(rk: seq<State>, iv: seq<bv8>, out: seq<bv8>, o: nat)
    requires IsSchedule(rk) && IsBlock(iv) && o <= |out|
    ensures LastBlock(iv, []) == iv && CbcEncrypt(rk, iv, []) == CbcDecrypt(rk, iv, []) == []
    ensures Splice(out, o, []) == out
  {}

  /** Output that does not run into it leaves the unread input alone. */
  lemma UnreadIntact(out: seq<bv8>, o: nat, c: seq<bv8>, i: nat, n: nat)
    requires i + |c| + n <= |out| && o + |c| <= |out| && (o <= i || i + |c| + n <= o)
    ensures Splice(out, o, c)[i + |c|..i + |c| + n] == out[i + |c|..i + |c| + n]
  {
    var s := Splice(out, o, c);
    forall j | i + |c| <= j < i + |c| + n
      ensures s[j] == out[j]
    {
    }
  }

  lemma NextIntact(out: seq<bv8>, o: nat, c: seq<bv8>, i: nat)
    requires i + |c| < |out| && o + |c| <= |out| && (o <= i || i + |c| < o)
    ensures Splice(out, o, c)[i + |c|] == out[i + |c|]
  {}

  lemma SubSlice(s: seq<bv8>, i: nat, n: nat, a: nat, b: nat)
    requires a <= b <= n && i + n <= |s|
    ensures s[i..i + n][a..b] == s[i + a..i + b]
  {
    var t := s[i..i + n];
    forall j | 0 <= j < b - a
      ensures t[a..b][j] == s[i + a..i + b][j]
    {
    }
  }

  /** Writing the same place twice keeps the second value. */
  lemma SpliceAgain(s: seq<bv8>, o: nat, a: seq<bv8>, b: seq<bv8>, c: seq<bv8>)
    requires o + |a| + |b| <= |s| && |b| == |c|
    ensures var s1 := Splice(Splice(s, o, a), o + |a|, b);
            s1[o + |a|..o + |a| + |b|] == b && Splice(s1, o + |a|, c) == Splice(s, o, a + c)
  {}

  /** The byte loop that adds `b` to sixteen bytes of `a`, writing to `output`. */
  method XorInto(a: array<bv8>, i: nat, b: array<bv8>, output: array<bv8>, o: nat)
    requires i + 16 <= a.Length && b.Length == 16 && o + 16 <= output.Length
    requires output != b && (a == output ==> o <= i || i + 16 <= o)
    modifies output
    ensures output[..] == Splice(old(output[..]), o, XorBytes(old(a[i..i + 16]), b[..]))
  {
    hide Add;
    ghost var a0, b0, out := a[..], b[..], output[..];
    var j := 0;
    while j < 16
      invariant 0 <= j <= 16
      invariant forall k :: 0 <= k < j ==> output[o + k] == Add(a0[i + k], b0[k])
      invariant forall k :: 0 <= k < output.Length && !(o <= k < o + j) ==> output[k] == out[k]
      invariant a == output || a[..] == a0
    {
      output[o + j] := Add(a[i + j], b[j]);
      j := j + 1;
    }
    ghost var r := Splice(out, o, XorBytes(a0[i..i + 16], b0));
    forall k | 0 <= k < output.Length
      ensures output[k] == r[k]
    {
      if o <= k < o + 16 {
        assert output[o + (k - o)] == Add(a0[i + (k - o)], b0[k - o]);
      }
    }
  }

  method Copy16(a: array<bv8>, i: nat, b: array<bv8>)
    requires i + 16 <= a.Length && b.Length == 16 && a != b
    modifies b
    ensures b[..] == a[i..i + 16]
  {
    var j := 0;
    while j < 16
      invariant 0 <= j <= 16
      invariant forall k :: 0 <= k < j ==> b[k] == a[i + k]
    {
      b[j] := a[i + j];
      j := j + 1;
    }
  }

  /** The function aes_crypt_cbc. */
  method CryptCbc(t: Tables, ctx: Context, mode: int, length: nat, iv: array<bv8>,
                  input: array<bv8>, i: nat, output: array<bv8>, o: nat) returns (ret: int)
    requires ctx.Ready(t) && Regions(length, input, i, output, o)
    requires iv.Length == 16 && iv != input && iv != output
    requires Writable(t, ctx, iv) && Writable(t, ctx, output)
    modifies iv, output
    ensures ctx.RoundKeys() == old(ctx.RoundKeys())
    ensures ret == if length % 16 != 0 then ERR_INVALID_INPUT_LENGTH else 0
    ensures ret != 0 ==> iv[..] == old(iv[..]) && output[..] == old(output[..])
    ensures ret == 0 ==>
              var src := old(input[i..i + length]);
              var dst := if mode == AES_DECRYPT then CbcDecrypt(ctx.RoundKeys(), old(iv[..]), src)
                         else CbcEncrypt(ctx.RoundKeys(), old(iv[..]), src);
              && output[..] == Splice(old(output[..]), o, dst)
              && iv[..] == LastBlock(old(iv[..]), if mode == AES_DECRYPT then src else dst)
    ensures ctx.Ready(t)
  {
    if length % 16 != 0 {
      return ERR_INVALID_INPUT_LENGTH;
    }
    if mode == AES_DECRYPT {
      CbcDecryptLoop(t, ctx, length, iv, input, i, output, o);
    } else {
      CbcEncryptLoop(t, ctx, mode, length, iv, input, i, output, o);
    }
    ret := 0;
  }

  /** One iteration of the decryption loop. */
  method CbcDecryptStep(t: Tables, ctx: Context, iv: array<bv8>,
                        input: array<bv8>, i: nat, output: array<bv8>, o: nat)
    requires ctx.Ready(t) && Regions(16, input, i, output, o)
    requires iv.Length == 16 && iv != input && iv != output
    requires Writable(t, ctx, iv) && Writable(t, ctx, output)
    modifies iv, output
    ensures ctx.RoundKeys() == old(ctx.RoundKeys())
    ensures output[..] == Splice(old(output[..]), o,
              XorBytes(DecryptBlock(ctx.RoundKeys(), old(input[i..i + 16])), old(iv[..])))
    ensures iv[..] == old(input[i..i + 16])
    ensures ctx.Ready(t)
  {
    hide t.Usable, ctx.RoundKeys, XorBytes, DecryptBlock, Splice;
    ghost var x, out, iv0 := input[i..i + 16], output[..], iv[..];
    ghost var d := DecryptBlock(ctx.RoundKeys(), x);
    var temp := new bv8[16];
    Copy16(input, i, temp);
    ctx.CryptEcb(t, AES_DECRYPT, input, i, output, o);
    SpliceAgain(out, o, [], d, XorBytes(d, iv0));
    SpliceNothing(out, o);
    assert [] + XorBytes(d, iv0) == XorBytes(d, iv0);
    XorInto(output, o, iv, output, o);
    Copy16(temp, 0, iv);
    assert temp[0..16] == temp[..];
  }

  /** One iteration of the encryption loop. */
  method CbcEncryptStep(t: Tables, ctx: Context, mode: int, iv: array<bv8>,
                        input: array<bv8>, i: nat, output: array<bv8>, o: nat)
    requires ctx.Ready(t) && Regions(16, input, i, output, o) && mode != AES_DECRYPT
    requires iv.Length == 16 && iv != input && iv != output
    requires Writable(t, ctx, iv) && Writable(t, ctx, output)
    modifies iv, output
    ensures ctx.RoundKeys() == old(ctx.RoundKeys())
    ensures var b := EncryptBlock(ctx.RoundKeys(), XorBytes(old(input[i..i + 16]), old(iv[..])));
            output[..] == Splice(old(output[..]), o, b) && iv[..] == b
    ensures ctx.Ready(t)
  {
    hide t.Usable, ctx.RoundKeys, XorBytes, EncryptBlock, Splice;
    ghost var out := output[..];
    ghost var y := XorBytes(input[i..i + 16], iv[..]);
    ghost var b := EncryptBlock(ctx.RoundKeys(), y);
    SpliceAgain(out, o, [], y, b);
    SpliceAgain(out, o, [], b, y);
    SpliceNothing(out, o);
    assert [] + y == y && [] + b == b;
    XorInto(input, i, iv, output, o);
    ctx.CryptEcb(t, mode, output, o, output, o);
    Copy16(output, o, iv);
  }

  method CbcDecryptLoop(t: Tables, ctx: Context, length: nat, iv: array<bv8>,
                        input: array<bv8>, i: nat, output: array<bv8>, o: nat)
    requires ctx.Ready(t) && Regions(length, input, i, output, o) && length % 16 == 0
    requires iv.Length == 16 && iv != input && iv != output
    requires Writable(t, ctx, iv) && Writable(t, ctx, output)
    modifies iv, output
    ensures ctx.RoundKeys() == old(ctx.RoundKeys())
    ensures output[..] ==
            Splice(old(output[..]), o, CbcDecrypt(ctx.RoundKeys(), old(iv[..]), old(input[i..i + length])))
    ensures iv[..] == LastBlock(old(iv[..]), old(input[i..i + length]))
    ensures ctx.Ready(t)
  {
    hide t.Usable, ctx.RoundKeys, CbcDecrypt, LastBlock, XorBytes, DecryptBlock, Splice;
    ghost var dk, iv0, inp, out := ctx.RoundKeys(), iv[..], input[..], output[..];
    ghost var src := inp[i..i + length];
    CbcStart(dk, iv0, out, o);
    assert src[..0] == [];
    var k := 0;
    while k < length
      invariant 0 <= k <= length && k % 16 == 0
      invariant ctx.Ready(t) && ctx.RoundKeys() == dk
      invariant output[..] == Splice(out, o, CbcDecrypt(dk, iv0, src[..k]))
      invariant iv[..] == LastBlock(iv0, src[..k])
      invariant input != output ==> input[..] == inp
    {
      ghost var m, x := CbcDecrypt(dk, iv0, src[..k]), src[k..k + 16];
      CbcDecryptNext(dk, iv0, src, k);
      if input == output {
        UnreadIntact(out, o, m, i, 16);
      }
      SubSlice(inp, i, length, k, k + 16);
      assert input[i + k..i + k + 16] == input[..][i + k..i + k + 16];
      SpliceTwice(out, o, m, XorBytes(DecryptBlock(dk, x), iv[..]));
      CbcDecryptStep(t, ctx, iv, input, i + k, output, o + k);
      k := k + 16;
    }
    assert src[..k] == src;
  }

  method CbcEncryptLoop(t: Tables, ctx: Context, mode: int, length: nat, iv: array<bv8>,
                        input: array<bv8>, i: nat, output: array<bv8>, o: nat)
    requires ctx.Ready(t) && Regions(length, input, i, output, o) && length % 16 == 0 && mode != AES_DECRYPT
    requires iv.Length == 16 && iv != input && iv != output
    requires Writable(t, ctx, iv) && Writable(t, ctx, output)
    modifies iv, output
    ensures ctx.RoundKeys() == old(ctx.RoundKeys())
    ensures var dst := CbcEncrypt(ctx.RoundKeys(), old(iv[..]), old(input[i..i + length]));
            output[..] == Splice(old(output[..]), o, dst) && iv[..] == LastBlock(old(iv[..]), dst)
    ensures ctx.Ready(t)
  {
    hide t.Usable, ctx.RoundKeys, CbcEncrypt, LastBlock, XorBytes, EncryptBlock, Splice;
    ghost var rk, iv0, inp, out := ctx.RoundKeys(), iv[..], input[..], output[..];
    ghost var src := inp[i..i + length];
    CbcStart(rk, iv0, out, o);
    assert src[..0] == [];
    var k := 0;
    while k < length
      invariant 0 <= k <= length && k % 16 == 0
      invariant ctx.Ready(t) && ctx.RoundKeys() == rk
      invariant output[..] == Splice(out, o, CbcEncrypt(rk, iv0, src[..k]))
      invariant iv[..] == LastBlock(iv0, CbcEncrypt(rk, iv0, src[..k]))
      invariant input != output ==> input[..] == inp
    {
      ghost var c, x := CbcEncrypt(rk, iv0, src[..k]), src[k..k + 16];
      CbcEncryptNext(rk, iv0, src, k);
      if input == output {
        UnreadIntact(out, o, c, i, 16);
      }
      SubSlice(inp, i, length, k, k + 16);
      assert input[i + k..i + k + 16] == input[..][i + k..i + k + 16];
      SpliceTwice(out, o, c, EncryptBlock(rk, XorBytes(x, iv[..])));
      CbcEncryptStep(t, ctx, mode, iv, input, i + k, output, o + k);
      k := k + 16;
    }
    assert src[..k] == src;
  }

  // ---------- CFB128 ----------

  lemma CfbNextByte(rk: seq<State>, mode: int, s: Cfb, src: seq<bv8>, k: nat)
    requires IsSchedule(rk) && s.Valid() && k < |src|
    ensures var r := CfbRefill(rk, CfbState(rk, mode, s, src[..k]));
            && CfbState(rk, mode, s, src[..k + 1]) == CfbNext(r, CfbCipherByte(mode, r, src[k]))
            && CfbOutput(rk, mode, s, src[..k + 1]) == CfbOutput(rk, mode, s, src[..k]) + [Add(r.iv[r.n], src[k])]
  {
    hide Add, CfbRefill, CfbNext, CfbCipherByte;
    assert src[..k + 1] == src[..k] + [src[k]];
    CfbSplit(rk, mode, s, src[..k], [src[k]]);
    var s1 := CfbState(rk, mode, s, src[..k]);
    var r := CfbRefill(rk, s1);
    assert [src[k]][1..] == [];
    assert CfbOutput(rk, mode, CfbNext(r, CfbCipherByte(mode, r, src[k])), []) == [];
  }

  lemma CfbStart(rk: seq<State>, mode: int, s: Cfb)
    requires IsSchedule(rk) && s.Valid()
    ensures CfbState(rk, mode, s, []) == s && CfbOutput(rk, mode, s, []) == []
  {}

  lemma SpliceWhole(s: seq<bv8>, b: seq<bv8>)
    requires |b| == |s|
    ensures Splice(s, 0, b) == b
    ensures s[0..|s|] == s
  {}

  /** The refill at the head of either loop. */
  method CfbRefillRegister(t: Tables, ctx: Context, n: nat, iv: array<bv8>)
    requires ctx.Ready(t) && n < 16 && iv.Length == 16 && Writable(t, ctx, iv)
    modifies iv
    ensures ctx.RoundKeys() == old(ctx.RoundKeys())
    ensures iv[..] == CfbRefill(ctx.RoundKeys(), Cfb(old(iv[..]), n)).iv
    ensures ctx.Ready(t)
  {
    hide t.Usable, ctx.RoundKeys, EncryptBlock, Splice;
    if n == 0 {
      SpliceWhole(iv[..], EncryptBlock(ctx.RoundKeys(), iv[..]));
      assert iv[0..0 + 16] == iv[..][0..16];
      ctx.CryptEcb(t, AES_ENCRYPT, iv, 0, iv, 0);
    }
  }

  /** One iteration of either loop of aes_crypt_cfb128. */
  method CfbStep(t: Tables, ctx: Context, mode: int, n: nat, iv: array<bv8>,
                 input: array<bv8>, i: nat, output: array<bv8>, o: nat) returns (n': nat)
    requires ctx.Ready(t) && Regions(1, input, i, output, o) && n < 16
    requires iv.Length == 16 && iv != input && iv != output
    requires Writable(t, ctx, iv) && Writable(t, ctx, output)
    modifies iv, output
    ensures ctx.RoundKeys() == old(ctx.RoundKeys()) && n' < 16
    ensures var r := CfbRefill(ctx.RoundKeys(), Cfb(old(iv[..]), n));
            var x := old(input[i]);
            && Cfb(iv[..], n') == CfbNext(r, CfbCipherByte(mode, r, x))
            && output[..] == Splice(old(output[..]), o, [Add(r.iv[r.n], x)])
    ensures ctx.Ready(t)
  {
    hide t.Usable, ctx.RoundKeys, CfbRefill, CfbNext, CfbCipherByte, Splice, Add;
    CfbRefillRegister(t, ctx, n, iv);
    n' := CfbByte(mode, n, iv, input, i, output, o);
  }

  /** One byte of either loop, once the register is filled. */
  method CfbByte(mode: int, n: nat, iv: array<bv8>, input: array<bv8>, i: nat, output: array<bv8>, o: nat)
    returns (n': nat)
    requires Regions(1, input, i, output, o) && n < 16 && iv.Length == 16 && iv != input && iv != output
    modifies iv, output
    ensures n' < 16
    ensures var r, x := Cfb(old(iv[..]), n), old(input[i]);
            && Cfb(iv[..], n') == CfbNext(r, CfbCipherByte(mode, r, x))
            && output[..] == Splice(old(output[..]), o, [Add(r.iv[n], x)])
  {
    hide Add;
    ghost var out, reg, x := output[..], iv[..], input[i];
    AddCommutes(x, iv[n]);
    if mode == AES_DECRYPT {
      var c := input[i];
      output[o] := Add(c, iv[n]);
      iv[n] := c;
    } else {
      output[o] := Add(iv[n], input[i]);
      iv[n] := output[o];
    }
    n' := (n + 1) % 16;
    assert iv[..] == reg[n := if mode == AES_DECRYPT then x else Add(reg[n], x)];
    assert output[..] == Splice(out, o, [Add(reg[n], x)]);
  }

  /** The function aes_crypt_cfb128; `n` is the offset passed in, `n'` the one passed back. */
  method CryptCfb128(t: Tables, ctx: Context, mode: int, length: nat, n: nat, iv: array<bv8>,
                     input: array<bv8>, i: nat, output: array<bv8>, o: nat) returns (n': nat)
    requires ctx.Ready(t) && Regions(length, input, i, output, o) && n < 16
    requires iv.Length == 16 && iv != input && iv != output
    requires Writable(t, ctx, iv) && Writable(t, ctx, output)
    modifies iv, output
    ensures ctx.RoundKeys() == old(ctx.RoundKeys()) && n' < 16
    ensures var s, src := Cfb(old(iv[..]), n), old(input[i..i + length]);
            && Cfb(iv[..], n') == CfbState(ctx.RoundKeys(), mode, s, src)
            && output[..] == Splice(old(output[..]), o, CfbOutput(ctx.RoundKeys(), mode, s, src))
    ensures ctx.Ready(t)
  {
    hide t.Usable, ctx.RoundKeys, CfbState, CfbOutput, CfbRefill, CfbNext, CfbCipherByte, Add, Splice;
    ghost var rk, s, inp, out := ctx.RoundKeys(), Cfb(iv[..], n), input[..], output[..];
    ghost var src := inp[i..i + length];
    CfbStart(rk, mode, s);
    SpliceNothing(out, o);
    assert src[..0] == [];
    n' := n;
    var k := 0;
    while k < length
      invariant 0 <= k <= length && n' < 16
      invariant ctx.Ready(t) && ctx.RoundKeys() == rk
      invariant Cfb(iv[..], n') == CfbState(rk, mode, s, src[..k])
      invariant output[..] == Splice(out, o, CfbOutput(rk, mode, s, src[..k]))
      invariant input != output ==> input[..] == inp
    {
      ghost var c := CfbOutput(rk, mode, s, src[..k]);
      CfbNextByte(rk, mode, s, src, k);
      if input == output {
        NextIntact(out, o, c, i);
      }
      assert input[i + k] == src[k];
      ghost var r := CfbRefill(rk, Cfb(iv[..], n'));
      SpliceTwice(out, o, c, [Add(r.iv[r.n], src[k])]);
      n' := CfbStep(t, ctx, mode, n', iv, input, i + k, output, o + k);
      k := k + 1;
    }
    assert src[..k] == src;
  }

  // ---------- CTR ----------

  lemma IncrementStep(c: seq<bv8>)
    requires c != []
    ensures var b := Bump(c[|c| - 1]);
            Increment(c) == if b == 0 then Increment(c[..|c| - 1]) + [0] else c[..|c| - 1] + [b]
  {
    hide Bump;
  }

  lemma IncrementCarry(c: seq<bv8>, j: nat, zeros: seq<bv8>)
    requires 0 < j <= |c|
    requires Increment(c) == Increment(c[..j]) + zeros
    ensures Bump(c[j - 1]) == 0 ==> Increment(c) == Increment(c[..j - 1]) + ([0] + zeros)
    ensures Bump(c[j - 1]) != 0 ==> Increment(c) == c[..j - 1] + [Bump(c[j - 1])] + zeros
  {
    hide Increment, Bump;
    TakeTake(c, j);
    IncrementStep(c[..j]);
    Regroup(Increment(c[..j - 1]), [0], zeros);
  }

  /** A byte changed in front of the part that the carry has passed. */
  lemma SplitAt(was: seq<bv8>, c0: seq<bv8>, i: nat, zeros: seq<bv8>, b: bv8)
    requires |was| == |c0| && 0 < i <= |c0| && was[..i] == c0[..i] && was[i..] == zeros
    ensures was[i - 1] == c0[i - 1]
    ensures was[i - 1 := b] == c0[..i - 1] + [b] + zeros
    ensures was[i - 1 := b][..i - 1] == c0[..i - 1] && was[i - 1 := b][i - 1..] == [b] + zeros
  {
    assert was == c0[..i] + zeros;
    assert was[i - 1] == was[..i][i - 1] == c0[..i][i - 1];
  }

  /** The carry loop over the counter bytes. */
  method IncrementCounter(c: array<bv8>)
    requires c.Length == 16
    modifies c
    ensures c[..] == Increment(old(c[..]))
  {
    hide Increment, Bump;
    ghost var c0 := c[..];
    ghost var zeros: seq<bv8> := [];
    IncrementStart(c0);
    var i := 16;
    while i > 0
      invariant 0 <= i <= 16 && |zeros| == 16 - i
      invariant c[..i] == c0[..i] && c[i..] == zeros
      invariant Increment(c0) == Increment(c0[..i]) + zeros
    {
      IncrementCarry(c0, i, zeros);
      ghost var was := c[..];
      SplitAt(was, c0, i, zeros, Bump(c0[i - 1]));
      c[i - 1] := Bump(c[i - 1]);
      assert c[..] == was[i - 1 := Bump(c0[i - 1])];
      if c[i - 1] != 0 {
        return;
      }
      zeros := [0] + zeros;
      i := i - 1;
    }
    assert c[..] == zeros;
  }

  lemma IncrementStart(c: seq<bv8>)
    requires |c| == 16
    ensures Increment(c) == Increment(c[..16]) + []
    ensures Increment(c[..0]) == []
  {
    assert c[..16] == c;
  }

  lemma CtrNextByte(rk: seq<State>, s: Ctr, src: seq<bv8>, k: nat)
    requires IsSchedule(rk) && s.Valid() && k < |src|
    ensures var r := CtrRefill(rk, CtrState(rk, s, k));
            && CtrState(rk, s, k + 1) == r.(n := (r.n + 1) % 16)
            && CtrOutput(rk, s, src[..k + 1]) == CtrOutput(rk, s, src[..k]) + [Add(src[k], r.stream[r.n])]
  {
    hide Add, CtrRefill;
    assert src[..k + 1][..k] == src[..k];
  }

  /** One iteration of the loop of aes_crypt_ctr. */
  method CtrStep(t: Tables, ctx: Context, n: nat, counter: array<bv8>, stream: array<bv8>,
                 input: array<bv8>, i: nat, output: array<bv8>, o: nat) returns (n': nat)
    requires ctx.Ready(t) && Regions(1, input, i, output, o) && n < 16
    requires counter.Length == stream.Length == 16 && counter != stream
    requires {counter, stream} !! {input, output}
    requires Writable(t, ctx, counter) && Writable(t, ctx, stream) && Writable(t, ctx, output)
    modifies counter, stream, output
    ensures ctx.RoundKeys() == old(ctx.RoundKeys()) && n' < 16
    ensures var r := CtrRefill(ctx.RoundKeys(), Ctr(old(counter[..]), old(stream[..]), n));
            && Ctr(counter[..], stream[..], n') == r.(n := (r.n + 1) % 16)
            && output[..] == Splice(old(output[..]), o, [Add(old(input[i]), r.stream[r.n])])
    ensures ctx.Ready(t)
  {
    hide t.Usable, ctx.RoundKeys, EncryptBlock, Increment, Add;
    ghost var rk, out := ctx.RoundKeys(), output[..];
    if n == 0 {
      SpliceWhole(stream[..], EncryptBlock(rk, counter[..]));
      assert counter[0..0 + 16] == counter[..];
      ctx.CryptEcb(t, AES_ENCRYPT, counter, 0, stream, 0);
      IncrementCounter(counter);
    }
    ghost var r := CtrRefill(rk, Ctr(old(counter[..]), old(stream[..]), n));
    assert counter[..] == r.counter && stream[..] == r.stream;
    var c := input[i];
    output[o] := Add(c, stream[n]);
    n' := (n + 1) % 16;
    assert output[..] == Splice(out, o, [Add(c, r.stream[n])]);
  }

  /** The function aes_crypt_ctr; `n` is the offset passed in, `n'` the one passed back. */
  method CryptCtr(t: Tables, ctx: Context, length: nat, n: nat, counter: array<bv8>, stream: array<bv8>,
                  input: array<bv8>, i: nat, output: array<bv8>, o: nat) returns (n': nat)
    requires ctx.Ready(t) && Regions(length, input, i, output, o) && n < 16
    requires counter.Length == stream.Length == 16 && counter != stream
    requires {counter, stream} !! {input, output}
    requires Writable(t, ctx, counter) && Writable(t, ctx, stream) && Writable(t, ctx, output)
    modifies counter, stream, output
    ensures ctx.RoundKeys() == old(ctx.RoundKeys()) && n' < 16
    ensures var s, src := Ctr(old(counter[..]), old(stream[..]), n), old(input[i..i + length]);
            && Ctr(counter[..], stream[..], n') == CtrState(ctx.RoundKeys(), s, length)
            && output[..] == Splice(old(output[..]), o, CtrOutput(ctx.RoundKeys(), s, src))
    ensures ctx.Ready(t)
  {
    hide t.Usable, ctx.RoundKeys, CtrState, CtrOutput, CtrRefill, Add, Splice;
    ghost var rk, s := ctx.RoundKeys(), Ctr(counter[..], stream[..], n);
    ghost var inp, out := input[..], output[..];
    ghost var src := inp[i..i + length];
    CtrStart(rk, s);
    SpliceNothing(out, o);
    assert src[..0] == [];
    n' := n;
    var k := 0;
    while k < length
      invariant 0 <= k <= length && n' < 16
      invariant ctx.Ready(t) && ctx.RoundKeys() == rk
      invariant Ctr(counter[..], stream[..], n') == CtrState(rk, s, k)
      invariant output[..] == Splice(out, o, CtrOutput(rk, s, src[..k]))
      invariant input != output ==> input[..] == inp
    {
      ghost var c := CtrOutput(rk, s, src[..k]);
      CtrNextByte(rk, s, src, k);
      if input == output {
        NextIntact(out, o, c, i);
      }
      assert input[i + k] == src[k];
      ghost var r := CtrRefill(rk, CtrState(rk, s, k));
      SpliceTwice(out, o, c, [Add(src[k], r.stream[r.n])]);
      n' := CtrStep(t, ctx, n', counter, stream, input, i + k, output, o + k);
      k := k + 1;
    }
    assert src[..k] == src;
  }

  lemma CtrStart(rk: seq<State>, s: Ctr)
    requires IsSchedule(rk) && s.Valid()
    ensures CtrState(rk, s, 0) == s && CtrOutput(rk, s, []) == []
  {}

  // ---------- End to end ----------

  /** Contexts set up from one key by aes_setkey_enc and aes_setkey_dec belong together. */
  lemma SchedulesInvert(e: Context, d: Context, kw: seq<Word>)
    requires IsKey(kw) && e.HoldsSchedule(kw) && d.HoldsInverseSchedule(kw)
    ensures IsInverseSchedule(e.RoundKeys(), d.RoundKeys())
  {
    hide IsInverseSchedule;
  }

  /** The key set up both ways. */
  method SetKeys(t: Tables, key: array<bv8>, keysize: nat) returns (ret: int, e: Context, d: Context)
    requires t.Valid() && (IsKeySize(keysize) ==> key.Length >= keysize / 8)
    requires key as object !in {t as object} + t.Arrays()
    modifies t, t.Arrays()
    ensures ret == if IsKeySize(keysize) then 0 else ERR_INVALID_KEY_LENGTH
    ensures fresh(e) && fresh(d) && fresh(e.buf) && fresh(d.buf)
    ensures ret == 0 ==> e.HoldsSchedule(KeyOf(key[..], keysize)) && d.HoldsInverseSchedule(KeyOf(key[..], keysize))
    ensures t.Valid() && (ret == 0 ==> t.initDone)
  {
    hide t.Valid, KeyOf;
    e := new Context();
    d := new Context();
    hide e.HoldsSchedule, d.HoldsInverseSchedule;
    ret := e.SetKeyEnc(t, key, keysize);
    if ret == 0 {
      ghost var kw := KeyOf(key[..], keysize);
      assert e.HoldsSchedule(kw);
      ret := d.SetKeyDec(t, key, keysize);
      assert e.HoldsSchedule(kw);
    }
  }

  lemma KeyBytesEncrypt(key: seq<bv8>, keysize: nat, block: seq<bv8>)
    requires IsKeySize(keysize) && |key| >= keysize / 8 && IsBlock(block)
    ensures IsAes(key[..keysize / 8], block, EncryptBlock(KeySchedule(KeyOf(key, keysize)), block))
  {
    hide IsAes, EncryptBlock, KeySchedule;
    EncryptionByBytes(key[..keysize / 8], block);
  }

  /** From key bytes and a block: the block is encrypted under the schedule of the key, which
      is AES byte by byte, and decrypting brings it back. */
  method BlockThereAndBack(t: Tables, key: array<bv8>, keysize: nat, block: array<bv8>)
    returns (ret: int, cipher: array<bv8>, plain: array<bv8>)
    requires t.Valid() && (IsKeySize(keysize) ==> key.Length >= keysize / 8) && block.Length == 16
    requires {key as object, block} !! {t as object} + t.Arrays()
    modifies t, t.Arrays()
    ensures ret == if IsKeySize(keysize) then 0 else ERR_INVALID_KEY_LENGTH
    ensures ret == 0 ==>
              && cipher[..] == EncryptBlock(KeySchedule(KeyOf(key[..], keysize)), block[..])
              && IsAes(key[..keysize / 8], block[..], cipher[..]) && plain[..] == block[..]
  {
    hide t.Valid, t.Usable, IsInverseSchedule, EncryptBlock, KeySchedule, Expanded, KeyOf, IsAes;
    cipher, plain := block, block;
    var e, d;
    ret, e, d := SetKeys(t, key, keysize);
    if ret == 0 {
      TablesUsable(t);
      cipher, plain := CryptBoth(t, e, d, KeyOf(key[..], keysize), block);
      KeyBytesEncrypt(key[..], keysize, block[..]);
      assert key[..][..keysize / 8] == key[..keysize / 8];
    }
  }

  lemma TablesUsable(t: Tables)
    requires t.Valid() && t.initDone
    ensures t.Usable()
  {
    hide t.Generated, t.Separate;
  }

  method CryptBoth(t: Tables, e: Context, d: Context, ghost kw: seq<Word>, block: array<bv8>)
    returns (cipher: array<bv8>, plain: array<bv8>)
    requires IsKey(kw) && e.HoldsSchedule(kw) && d.HoldsInverseSchedule(kw) && e.Ready(t) && d.Ready(t)
    requires block.Length == 16
    ensures cipher[..] == EncryptBlock(KeySchedule(kw), block[..]) && plain[..] == block[..]
  {
    hide t.Usable, IsInverseSchedule, EncryptBlock, DecryptBlock, Splice, KeySchedule, Expanded;
    hide e.RoundKeys, d.RoundKeys;
    cipher := new bv8[16];
    assert Writable(t, e, cipher) && t.Usable();
    plain := new bv8[16];
    assert Writable(t, d, plain) && t.Usable();
    SchedulesInvert(e, d, kw);
    WholeBlock(block, cipher[..]);
    e.CryptEcb(t, AES_ENCRYPT, block, 0, cipher, 0);
    WholeBlock(cipher, plain[..]);
    d.CryptEcb(t, AES_DECRYPT, cipher, 0, plain, 0);
    DecryptUndoesEncrypt(e.RoundKeys(), d.RoundKeys(), block[..]);
  }

  lemma WholeBlock(a: array<bv8>, out: seq<bv8>)
    requires a.Length == 16 && |out| == 16
    ensures a[0..0 + 16] == a[..] && forall b: seq<bv8> :: |b| == 16 ==> Splice(out, 0, b) == b
  {}

  /** What two CBC calls over a whole buffer leave in it. */
  lemma WholeBuffer(rk: seq<State>, dk: seq<State>, iv: seq<bv8>, m: seq<bv8>, c: seq<bv8>)
    requires IsInverseSchedule(rk, dk) && IsBlock(iv) && IsAligned(m)
    requires c == Splice(m, 0, CbcEncrypt(rk, iv, m))
    ensures IsAligned(c) && |c| == |m| && Splice(c, 0, CbcDecrypt(dk, iv, c)) == m
  {
    hide CbcEncrypt, CbcDecrypt;
    CbcRoundTrip(rk, dk, iv, m);
    SpliceWhole(m, CbcEncrypt(rk, iv, m));
    SpliceWhole(c, m);
  }

  /** A caller that encrypts a buffer in place and decrypts it in place gets its data back,
      whatever the key, the IV and the data. */
  method EncryptThenDecrypt(t: Tables, e: Context, d: Context, ghost kw: seq<Word>,
                            iv1: array<bv8>, iv2: array<bv8>, data: array<bv8>) returns (ret: int)
    requires IsKey(kw) && e.HoldsSchedule(kw) && d.HoldsInverseSchedule(kw) && t.Usable()
    requires iv1.Length == iv2.Length == 16 && iv1[..] == iv2[..] && iv1 != iv2 && data !in {iv1, iv2}
    requires forall a :: a in {iv1, iv2, data} ==> Writable(t, e, a) && Writable(t, d, a)
    modifies iv1, iv2, data
    ensures ret == if data.Length % 16 != 0 then ERR_INVALID_INPUT_LENGTH else 0
    ensures data[..] == old(data[..])
  {
    hide t.Usable, IsInverseSchedule, CbcEncrypt, CbcDecrypt, LastBlock, Splice;
    hide e.RoundKeys, d.RoundKeys, KeySchedule, Expanded;
    SchedulesInvert(e, d, kw);
    ghost var rk, dk, iv, m := e.RoundKeys(), d.RoundKeys(), iv1[..], data[..];
    assert data[0..data.Length] == m;
    ret := CryptCbc(t, e, AES_ENCRYPT, data.Length, iv1, data, 0, data, 0);
    if ret == 0 {
      ghost var c := data[..];
      WholeBuffer(rk, dk, iv, m, c);
      assert data[0..data.Length] == c;
    }
    ret := CryptCbc(t, d, AES_DECRYPT, data.Length, iv2, data, 0, data, 0);
  }
}
