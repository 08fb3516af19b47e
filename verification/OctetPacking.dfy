/**
  The octet packer EncoderMMS of C/amr_encode/interf_enc.c: a table-of-contents byte, then
  the parameter bits in order of importance, most significant bit first (section 5.3 of
  RFC 3267). Bytes are integers below 256, and shifts drop what leaves the byte.
 */
module OctetPacking {
  import opened Division
  import opened DtxFrames

  const MRDTX := 8
  const NO_DATA_MODE := 15

  /** The number of bits each of the eight speech modes and the SID frame carries. */
  const BITS: seq<int> := [95, 103, 118, 134, 148, 159, 204, 244, 35]

  predicate IsByte(x: int) {
    0 <= x < 256
  }

  /** The tables of the encoder: for each mode, parameter number and mask of every bit. */
  datatype Tables = Tables(order: seq<seq<(nat, bv16)>>, toc: seq<int>, blockSize: seq<int>)

  /** Octets of a body of `n` bits. */
  function Octets(n: int): int
    requires n >= 0
  {
    (n + 7) / 8
  }

  ghost predicate AreTables(t: Tables, params: int) {
    && |t.order| == 9 && |t.toc| == 16 && |t.blockSize| == 16
    && (forall m :: 0 <= m < 9 ==> |t.order[m]| == BITS[m])
    && (forall m, k :: 0 <= m < 9 && 0 <= k < |t.order[m]| ==> t.order[m][k].0 < params)
    && (forall m :: 0 <= m < 16 ==> IsByte(t.toc[m]))
    && (forall m :: 0 <= m < 9 ==> t.blockSize[m] == 1 + Octets(BITS[m]))
    && (forall m :: MRDTX < m < NO_DATA_MODE ==> t.blockSize[m] == 0) && t.blockSize[NO_DATA_MODE] == 1
  }

  /** Whether a parameter has a bit of the mask set. */
  predicate MaskBit(param: seq<bv16>, entry: (nat, bv16))
    requires entry.0 < |param|
  {
    param[entry.0] & entry.1 != 0
  }

  /** The bits of a frame in class order. */
  function FrameBits(order: seq<(nat, bv16)>, param: seq<bv16>): (bits: seq<bool>)
    requires forall k :: 0 <= k < |order| ==> order[k].0 < |param|
    ensures |bits| == |order|
  {
    seq(|order|, k requires 0 <= k < |order| => MaskBit(param, order[k]))
  }

  // ---------- Bits and bytes ----------

  /** The number written by a sequence of bits, most significant first. */
  function Value(bits: seq<bool>): nat {
    if bits == [] then 0 else 2 * Value(bits[..|bits| - 1]) + if bits[|bits| - 1] then 1 else 0
  }

  function Pow2(n: nat): (p: nat)
    ensures p >= 1
  {
    if n == 0 then 1 else 2 * Pow2(n - 1)
  }

  function Zeros(n: nat): (z: seq<bool>)
    ensures |z| == n
  {
    seq(n, _ => false)
  }

  lemma {:induction false} ValueBound(bits: seq<bool>)
    ensures Value(bits) < Pow2(|bits|)
  {
    if bits == [] {
    } else {
      ValueBound(bits[..|bits| - 1]);
    }
  }

  lemma {:induction false} ValueZeros(bits: seq<bool>, n: nat)
    ensures Value(bits + Zeros(n)) == Value(bits) * Pow2(n)
  {
    if n == 0 {
      assert bits + Zeros(0) == bits;
    } else {
      ValueZeros(bits, n - 1);
      assert (bits + Zeros(n))[..|bits| + n - 1] == bits + Zeros(n - 1);
    }
  }

  lemma SmallPowers()
    ensures Pow2(0) == 1 && Pow2(1) == 2 && Pow2(2) == 4 && Pow2(3) == 8 && Pow2(4) == 16
    ensures Pow2(5) == 32 && Pow2(6) == 64 && Pow2(7) == 128 && Pow2(8) == 256
  {}

  /** Bit `i` of a byte, counting from the most significant one. */
  predicate BitAt(x: int, i: int)
    requires 0 <= i < 8
  {
    x / Pow2(7 - i) % 2 == 1
  }

  lemma {:induction false} ValueBit(bits: seq<bool>, i: nat)
    requires i < |bits|
    ensures (Value(bits) / Pow2(|bits| - 1 - i)) % 2 == if bits[i] then 1 else 0
  {
    var k := |bits| - 1;
    if i < k {
      ValueBit(bits[..k], i);
      HalfFirst(Value(bits), Pow2(k - 1 - i));
      assert Value(bits) / 2 == Value(bits[..k]);
    } else {
      assert Pow2(0) == 1;
    }
  }

  lemma HalfFirst(x: nat, p: nat)
    requires p > 0
    ensures x / (2 * p) == x / 2 / p
  {
    var q, r := x / 2 / p, x / 2 % p;
    assert x / 2 == q * p + r;
    assert x == 2 * (x / 2) + x % 2;
    assert x == (2 * p) * q + (2 * r + x % 2);
    DivModUnique(q, 2 * r + x % 2, 2 * p, x);
  }

  /** The bits padded on the right to whole octets. */
  function Padded(bits: seq<bool>): (p: seq<bool>)
    ensures |p| == 8 * Octets(|bits|)
  {
    bits + Zeros(8 * Octets(|bits|) - |bits|)
  }

  /** The body of a frame: each octet is the value of eight padded bits. */
  ghost predicate IsBody(stream: seq<int>, bits: seq<bool>) {
    && |stream| >= 1 + Octets(|bits|)
    && forall q :: 0 <= q < Octets(|bits|) ==> stream[1 + q] == Value(Padded(bits)[8 * q..8 * q + 8])
  }

  /** What IsBody means bit by bit: bit k of the class order is bit k of the body, counted from
      the most significant bit of the first octet, and everything after it is zero. */
  lemma BodyBits(stream: seq<int>, bits: seq<bool>, k: nat)
    requires IsBody(stream, bits) && k < 8 * Octets(|bits|)
    ensures 1 + k / 8 < |stream|
    ensures BitAt(stream[1 + k / 8], k % 8) == (k < |bits| && bits[k])
  {
    var q := k / 8;
    var octet := Padded(bits)[8 * q..8 * q + 8];
    hide Value;
    ValueBit(octet, k % 8);
    assert 8 * q + k % 8 == k;
    assert octet[k % 8] == Padded(bits)[8 * q + k % 8];
  }

  // ---------- The packer ----------

  /** A stream into which the first `i` bits have been shifted: whole octets are done, and the
      octet in progress is shifted once past its last bit. */
  ghost predicate Written(s: seq<int>, bits: seq<bool>, i: nat)
    requires i <= |bits|
  {
    && |s| > 1 + i / 8
    && (forall q :: 0 <= q < i / 8 ==> s[1 + q] == Value(bits[8 * q..8 * q + 8]))
    && s[1 + i / 8] == 2 * Value(bits[8 * (i / 8)..i])
    && (forall q :: 1 + i / 8 < q < |s| ==> s[q] == 0)
  }

  lemma NextBit(bits: seq<bool>, i: nat)
    requires i < |bits|
    ensures var start := 8 * (i / 8);
            && Value(bits[start..i + 1]) == 2 * Value(bits[start..i]) + (if bits[i] then 1 else 0)
            && Value(bits[start..i + 1]) < 256
            && ((i + 1) % 8 != 0 ==> 2 * Value(bits[start..i + 1]) < 256)
  {
    var start := 8 * (i / 8);
    assert bits[start..i + 1][..i - start] == bits[start..i];
    ValueBound(bits[start..i + 1]);
    SmallPowers();
  }

  /** One iteration of the bit loop. */
  lemma WriteBit(s: seq<int>, bits: seq<bool>, i: nat)
    requires i < |bits| && Written(s, bits, i) && ((i + 1) % 8 == 0 ==> |s| > 2 + i / 8)
    ensures var p := 1 + i / 8;
            var v := s[p] + if bits[i] then 1 else 0;
            && 0 <= v < 256
            && ((i + 1) % 8 != 0 ==> 2 * v < 256 && Written(s[p := 2 * v], bits, i + 1))
            && ((i + 1) % 8 == 0 ==> Written(s[p := v], bits, i + 1))
  {
    hide Value;
    NextBit(bits, i);
    if (i + 1) % 8 == 0 {
      assert (i + 1) / 8 == i / 8 + 1;
      assert bits[8 * ((i + 1) / 8)..i + 1] == [];
      ValueOfNothing();
    } else {
      assert (i + 1) / 8 == i / 8;
    }
  }

  lemma ValueOfNothing()
    ensures Value([]) == 0
  {}

  lemma NothingWritten(s: seq<int>, bits: seq<bool>)
    requires |s| > 1 && forall q :: 1 <= q < |s| ==> s[q] == 0
    ensures Written(s, bits, 0)
  {}

  /** Bit j lies in the body, and the pointer moves on after every eighth. */
  lemma InBlock(n: nat, j: nat)
    requires 1 <= j <= n && n % 8 != 0
    ensures 1 + (j - 1) / 8 < 1 + Octets(n) && (j % 8 == 0 ==> 2 + (j - 1) / 8 < 1 + Octets(n))
    ensures j / 8 == if j % 8 == 0 then (j - 1) / 8 + 1 else (j - 1) / 8
  {}

  /** The bit loop, starting at octet 1 of a block of `size` octets whose body is zero. Returns
      the octet the pointer is left at. */
  method PackBits(order: seq<(nat, bv16)>, param: seq<bv16>, stream: array<int>, ghost size: nat) returns (p: nat)
    requires forall k :: 0 <= k < |order| ==> order[k].0 < |param|
    requires stream.Length >= size == 1 + Octets(|order|) && |order| % 8 != 0
    requires forall q :: 1 <= q < size ==> stream[q] == 0
    modifies stream
    ensures p == 1 + |order| / 8 && stream[0] == old(stream[0]) && stream[size..] == old(stream[size..])
    ensures Written(stream[..size], FrameBits(order, param), |order|)
  {
    hide MaskBit, Written, Value, Octets;
    ghost var bits := FrameBits(order, param);
    InBlock(|order|, 1);
    NothingWritten(stream[..size], bits);
    p := 1;
    var j := 1;
    while j < |order| + 1
      invariant 1 <= j <= |order| + 1 && p == 1 + (j - 1) / 8
      invariant stream[0] == old(stream[0]) && stream[size..] == old(stream[size..])
      invariant Written(stream[..size], bits, j - 1)
    {
      ghost var s := stream[..size];
      InBlock(|order|, j);
      WriteBit(s, bits, j - 1);
      if MaskBit(param, order[j - 1]) {
        stream[p] := (stream[p] + 1) % 256;
      }
      ghost var v := stream[p];
      if j % 8 != 0 {
        stream[p] := stream[p] * 2 % 256;
        assert stream[..size] == s[p := 2 * v];
      } else {
        assert stream[..size] == s[p := v];
        p := p + 1;
      }
      j := j + 1;
    }
  }

  lemma DoublePower(n: nat, x: nat)
    ensures 2 * x * Pow2(n) == x * Pow2(n + 1)
  {}

  /** Shifting the last octet to the left appends zeros to its bits. */
  lemma ShiftedRest(rest: seq<bool>)
    requires 0 < |rest| < 8
    ensures 2 * Value(rest) * Pow2(7 - |rest|) == Value(rest + Zeros(8 - |rest|)) < 256
  {
    hide Value, Pow2;
    ValueZeros(rest, 8 - |rest|);
    DoublePower(7 - |rest|, Value(rest));
    ValueBound(rest + Zeros(8 - |rest|));
    SmallPowers();
  }

  lemma PaddedOctets(bits: seq<bool>)
    requires |bits| % 8 != 0
    ensures var k := |bits| / 8;
            && Octets(|bits|) == k + 1
            && (forall q :: 0 <= q < k ==> Padded(bits)[8 * q..8 * q + 8] == bits[8 * q..8 * q + 8])
            && Padded(bits)[8 * k..8 * k + 8] == bits[8 * k..] + Zeros(8 - |bits| % 8)
  {
    var k := |bits| / 8;
    forall q | 0 <= q < k
      ensures Padded(bits)[8 * q..8 * q + 8] == bits[8 * q..8 * q + 8]
    {
    }
  }

  /** The last octet, completed by a shift that brings its bits to the left. */
  lemma LastOctet(s: seq<int>, bits: seq<bool>)
    requires |bits| % 8 != 0 && |s| == 1 + Octets(|bits|) && Written(s, bits, |bits|)
    ensures var r := |bits| % 8;
            var v := s[1 + |bits| / 8] * Pow2(7 - r);
            0 <= v < 256 && IsBody(s[1 + |bits| / 8 := v], bits)
  {
    hide Value, Pow2, Padded;
    var k := |bits| / 8;
    ShiftedRest(bits[8 * k..]);
    assert bits[8 * k..|bits|] == bits[8 * k..];
    PaddedOctets(bits);
  }

  /** The three mode bits of a SID frame, least significant first. */
  function ModeBits(mode: int): seq<bool> {
    [mode % 2 == 1, mode / 2 % 2 == 1, mode / 4 % 2 == 1]
  }

  function ReversedMode(mode: int): int {
    mode % 2 * 4 + mode / 2 % 2 * 2 + mode / 4 % 2
  }

  /** The octet that ends a SID frame: three parameter bits, the SID type, the mode reversed. */
  lemma SidOctet(s: seq<int>, bits: seq<bool>, update: bool, mode: int)
    requires |bits| == 35 && |s| == 6 && Written(s, bits, 35)
    ensures var v := ((s[5] + (if update then 1 else 0)) * 8 + ReversedMode(mode)) * 2;
            && 0 <= s[5] <= 14 && 0 <= ReversedMode(mode) < 8 && 0 <= v < 256
            && IsBody(s[5 := v], bits + [update] + ModeBits(mode))
  {
    hide Value;
    var all := bits + [update] + ModeBits(mode);
    var rest := bits[32..35];
    var v := ((s[5] + (if update then 1 else 0)) * 8 + ReversedMode(mode)) * 2;
    ThreeBits(rest);
    EightBits(rest, update, mode);
    assert Padded(all)[32..40] == rest + [update] + ModeBits(mode) + [false];
    forall q | 0 <= q < Octets(|all|)
      ensures s[5 := v][1 + q] == Value(Padded(all)[8 * q..8 * q + 8])
    {
      if q < 4 {
        assert Padded(all)[8 * q..8 * q + 8] == bits[8 * q..8 * q + 8];
      } else {
        assert q == 4;
      }
    }
  }

  lemma ThreeBits(b: seq<bool>)
    requires |b| == 3
    ensures Value(b) < 8
  {
    ValueBound(b);
    SmallPowers();
  }

  lemma ValueSnoc(b: seq<bool>, x: bool)
    ensures Value(b + [x]) == 2 * Value(b) + if x then 1 else 0
  {
    assert (b + [x])[..|b|] == b;
  }

  lemma EightBits(b: seq<bool>, update: bool, mode: int)
    requires |b| == 3
    ensures Value(b + [update] + ModeBits(mode) + [false]) ==
            ((2 * Value(b) + (if update then 1 else 0)) * 8 + ReversedMode(mode)) * 2
  {
    hide Value;
    var c := b + [update];
    var m := ModeBits(mode);
    ValueSnoc(b, update);
    ValueSnoc(c, m[0]);
    ValueSnoc(c + [m[0]], m[1]);
    ValueSnoc(c + [m[0]] + [m[1]], m[2]);
    ValueSnoc(c + [m[0]] + [m[1]] + [m[2]], false);
    assert c + m + [false] == c + [m[0]] + [m[1]] + [m[2]] + [false];
  }

  method ClearBlock(stream: array<int>, size: nat)
    requires size <= stream.Length
    modifies stream
    ensures forall q :: 0 <= q < size ==> stream[q] == 0
    ensures stream[size..] == old(stream[size..])
  {
    var q := 0;
    while q < size
      invariant 0 <= q <= size
      invariant forall k :: 0 <= k < q ==> stream[k] == 0
      invariant stream[size..] == old(stream[size..])
    {
      stream[q] := 0;
      q := q + 1;
    }
  }

  // ---------- The frame bit by bit ----------

  /** Behind the first octet comes, for each entry of the order table, whether its parameter has a
      bit of its mask set, most significant bit first. */
  ghost predicate CarriesBits(frame: seq<int>, order: seq<(nat, bv16)>, param: seq<bv16>)
    requires forall k :: 0 <= k < |order| ==> order[k].0 < |param|
  {
    forall k :: 0 <= k < |order| ==>
      1 + k / 8 < |frame| && (BitAt(frame[1 + k / 8], k % 8) <==> param[order[k].0] & order[k].1 != 0)
  }

  /** There is nothing behind the first n bits of the body. */
  ghost predicate EndsAfter(frame: seq<int>, n: nat) {
    forall q, i :: 1 <= q < |frame| && 0 <= i < 8 && 8 * (q - 1) + i >= n ==> !BitAt(frame[q], i)
  }

  /** The type bit of a SID frame and its mode, least significant bit first. */
  ghost predicate EndsAsSid(frame: seq<int>, update: bool, mode: int)
    requires |frame| == 6
  {
    && (BitAt(frame[5], 3) <==> update) && (BitAt(frame[5], 4) <==> mode % 2 == 1)
    && (BitAt(frame[5], 5) <==> mode / 2 % 2 == 1) && (BitAt(frame[5], 6) <==> mode / 4 % 2 == 1)
    && !BitAt(frame[5], 7)
  }

  lemma FewerThanOctets(n: nat)
    ensures n <= 8 * Octets(n)
  {}

  lemma FrameBitAt(order: seq<(nat, bv16)>, param: seq<bv16>, k: nat)
    requires forall k :: 0 <= k < |order| ==> order[k].0 < |param|
    requires k < |order|
    ensures FrameBits(order, param)[k] == (param[order[k].0] & order[k].1 != 0)
  {}

  lemma BodyCarriesBits(frame: seq<int>, order: seq<(nat, bv16)>, param: seq<bv16>, more: seq<bool>)
    requires forall k :: 0 <= k < |order| ==> order[k].0 < |param|
    requires IsBody(frame, FrameBits(order, param) + more)
    ensures CarriesBits(frame, order, param)
  {
    hide IsBody, BitAt, Octets, FrameBits;
    forall k | 0 <= k < |order|
      ensures 1 + k / 8 < |frame|
      ensures BitAt(frame[1 + k / 8], k % 8) <==> param[order[k].0] & order[k].1 != 0
    {
      FewerThanOctets(|order| + |more|);
      BodyBits(frame, FrameBits(order, param) + more, k);
      FrameBitAt(order, param, k);
    }
  }

  lemma BodyEnds(frame: seq<int>, bits: seq<bool>)
    requires |frame| == 1 + Octets(|bits|) && IsBody(frame, bits)
    ensures EndsAfter(frame, |bits|)
  {
    hide BitAt, IsBody;
    forall q, i | 1 <= q < |frame| && 0 <= i < 8 && 8 * (q - 1) + i >= |bits|
      ensures !BitAt(frame[q], i)
    {
      BodyBits(frame, bits, 8 * (q - 1) + i);
    }
  }

  lemma BodyEndsAsSid(frame: seq<int>, bits: seq<bool>, update: bool, mode: int)
    requires |bits| == 35 && |frame| == 6 && IsBody(frame, bits + [update] + ModeBits(mode))
    ensures EndsAsSid(frame, update, mode)
  {
    hide IsBody, BitAt;
    var all := bits + [update] + ModeBits(mode);
    BodyBits(frame, all, 35);
    BodyBits(frame, all, 36);
    BodyBits(frame, all, 37);
    BodyBits(frame, all, 38);
    BodyBits(frame, all, 39);
  }

  /** A speech frame: the bit loop and the final shift. */
  method PackSpeech(order: seq<(nat, bv16)>, param: seq<bv16>, stream: array<int>, ghost size: nat)
    requires forall k :: 0 <= k < |order| ==> order[k].0 < |param|
    requires stream.Length >= size == 1 + Octets(|order|) && |order| % 8 != 0
    requires forall q :: 1 <= q < size ==> stream[q] == 0
    modifies stream
    ensures stream[0] == old(stream[0]) && stream[size..] == old(stream[size..])
    ensures IsBody(stream[..size], FrameBits(order, param))
    ensures CarriesBits(stream[..size], order, param) && EndsAfter(stream[..size], |order|)
  {
    hide Value, Pow2, FrameBits, Written, IsBody, CarriesBits, EndsAfter;
    var p := PackBits(order, param, stream, size);
    ghost var s := stream[..size];
    LastOctet(s, FrameBits(order, param));
    SmallPowers();
    var k := (|order| + 1) % 8;
    if k != 0 {
      stream[p] := stream[p] * Pow2(8 - k) % 256;
    }
    assert stream[..size] == s[p := stream[p]];
    assert FrameBits(order, param) + [] == FrameBits(order, param);
    BodyCarriesBits(stream[..size], order, param, []);
    BodyEnds(stream[..size], FrameBits(order, param));
  }

  /** The steps on the last octet of a SID frame: add the type bit, shift by three, add the
      reversed mode, shift by one. */
  function FinishSid(x: int, update: bool, mode: int): int {
    var x1 := if update then (x + 1) % 256 else x;
    var x2 := x1 * 8 % 256;
    var x3 := (x2 + ReversedMode(mode)) % 256;
    x3 * 2 % 256
  }

  lemma FinishSidExact(x: int, update: bool, mode: int)
    requires 0 <= x <= 14 && 0 <= ReversedMode(mode) < 8
    ensures FinishSid(x, update, mode) == ((x + (if update then 1 else 0)) * 8 + ReversedMode(mode)) * 2
  {
    hide ReversedMode;
    var x1 := if update then x + 1 else x;
    FitsOctet(x1);
    FitsOctet(x1 * 8);
    FitsOctet(x1 * 8 + ReversedMode(mode));
    FitsOctet((x1 * 8 + ReversedMode(mode)) * 2);
  }

  lemma FitsOctet(n: int)
    requires 0 <= n < 256
    ensures n % 256 == n
  {}

  /** A SID frame: 35 bits, the type bit and the mode. */
  method PackSid(order: seq<(nat, bv16)>, param: seq<bv16>, stream: array<int>, update: bool, speechMode: int)
    requires |order| == 35 && forall k :: 0 <= k < |order| ==> order[k].0 < |param|
    requires stream.Length >= 6 && 0 <= speechMode < 8
    requires forall q :: 1 <= q < 6 ==> stream[q] == 0
    modifies stream
    ensures stream[0] == old(stream[0]) && stream[6..] == old(stream[6..])
    ensures IsBody(stream[..6], FrameBits(order, param) + [update] + ModeBits(speechMode))
    ensures CarriesBits(stream[..6], order, param) && EndsAsSid(stream[..6], update, speechMode)
  {
    hide Value, FrameBits, Written, IsBody, ReversedMode, ModeBits, FinishSid, CarriesBits, EndsAsSid;
    var p := PackBits(order, param, stream, 6);
    ghost var s := stream[..6];
    SidOctet(s, FrameBits(order, param), update, speechMode);
    FinishSidExact(s[5], update, speechMode);
    stream[p] := FinishSid(stream[p], update, speechMode);
    assert stream[..6] == s[p := stream[p]];
    ghost var bits := FrameBits(order, param);
    assert bits + [update] + ModeBits(speechMode) == bits + ([update] + ModeBits(speechMode));
    BodyCarriesBits(stream[..6], order, param, [update] + ModeBits(speechMode));
    BodyEndsAsSid(stream[..6], bits, update, speechMode);
  }

  /** EncoderMMS. The frame is the table-of-contents byte followed by the body: the parameter
      bits, and in a SID frame the type bit and the reversed mode. Nothing is written beyond
      the number of octets returned, except in the reserved modes 9 to 14: they get their
      table-of-contents byte, but no octets are reported. */
  method EncoderMMS(t: Tables, mode: int, param: seq<bv16>, stream: array<int>, frameType: FrameType, speechMode: int)
    returns (size: nat)
    requires AreTables(t, |param|) && 0 <= mode <= NO_DATA_MODE && 0 <= speechMode < 8
    requires stream.Length >= t.blockSize[mode] && stream.Length >= 1
    modifies stream
    ensures size == t.blockSize[mode] <= stream.Length && stream[0] == t.toc[mode]
    ensures if MRDTX < mode < NO_DATA_MODE then size == 0 && stream[1..] == old(stream[1..])
            else size >= 1 && stream[size..] == old(stream[size..])
    ensures mode < MRDTX ==> IsBody(stream[..size], FrameBits(t.order[mode], param))
    ensures mode == MRDTX ==>
              IsBody(stream[..size], FrameBits(t.order[mode], param) + [frameType == SidUpdate] + ModeBits(speechMode))
    ensures mode <= MRDTX ==> CarriesBits(stream[..size], t.order[mode], param)
    ensures mode < MRDTX ==> EndsAfter(stream[..size], |t.order[mode]|)
    ensures mode == MRDTX ==> size == 6 && EndsAsSid(stream[..size], frameType == SidUpdate, speechMode)
  {
    hide FrameBits, IsBody, CarriesBits, EndsAfter, EndsAsSid;
    size := t.blockSize[mode];
    ClearBlock(stream, size);
    stream[0] := t.toc[mode];
    if mode == NO_DATA_MODE {
      return 1;
    } else if mode == MRDTX {
      PackSid(t.order[mode], param, stream, frameType == SidUpdate, speechMode);
      return 6;
    } else if mode < MRDTX {
      PackSpeech(t.order[mode], param, stream, size);
    }
  }
}
