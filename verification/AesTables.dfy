/**
  The lookup tables of C/AES/aes.cpp (aes_gen_tables), as mutable arrays filled by the
  same loops, and the byte-matrix meaning of every entry.
 */
module AesTables {
  import opened GF256
  import opened Fips197

  // ---------- 32-bit words ----------

  /** The low byte: the C cast to unsigned char, and the mask `& 0xFF`. */
  function Low(x: bv32): bv8 {
    (x & 0xFF) as bv8
  }

  /** A byte promoted to a C integer. */
  function Wide(b: bv8): bv32 {
    b as bv32
  }

  lemma LowWide(b: bv8)
    ensures Low(Wide(b)) == b
  {}

  function Xor(x: bv32, y: bv32): bv32 {
    x ^ y
  }

  /** Four terms shifted to their byte positions and added up, as every table entry is. */
  function Join(x0: bv32, x1: bv32, x2: bv32, x3: bv32): bv32 {
    Xor(Xor(Xor(x0, x1 << 8), x2 << 16), x3 << 24)
  }

  /** The word whose bytes, from the least significant one, are those of `w`. */
  function Pack(w: Word): bv32 {
    Join(Wide(w.b0), Wide(w.b1), Wide(w.b2), Wide(w.b3))
  }

  function Unpack(x: bv32): Word {
    Word(Low(x), Low(x >> 8), Low(x >> 16), Low(x >> 24))
  }

  lemma PackUnpack(x: bv32)
    ensures Pack(Unpack(x)) == x
  {}

  lemma UnpackPack(w: Word)
    ensures Unpack(Pack(w)) == w
  {}

  lemma UnpackXor(x: bv32, y: bv32)
    ensures Unpack(Xor(x, y)) == WAdd(Unpack(x), Unpack(y))
  {}

  lemma PackAdd(v: Word, w: Word)
    ensures Xor(Pack(v), Pack(w)) == Pack(WAdd(v, w))
  {
    hide *;
    UnpackXor(Pack(v), Pack(w));
    UnpackPack(v);
    UnpackPack(w);
    PackUnpack(Xor(Pack(v), Pack(w)));
  }

  lemma WAddAssociates(u: Word, v: Word, w: Word)
    ensures WAdd(WAdd(u, v), w) == WAdd(u, WAdd(v, w))
  {
    hide Add;
    AddAssociates(u.b0, v.b0, w.b0);
    AddAssociates(u.b1, v.b1, w.b1);
    AddAssociates(u.b2, v.b2, w.b2);
    AddAssociates(u.b3, v.b3, w.b3);
  }

  lemma WAddCommutes(v: Word, w: Word)
    ensures WAdd(v, w) == WAdd(w, v)
  {
    hide Add;
    AddCommutes(v.b0, w.b0);
    AddCommutes(v.b1, w.b1);
    AddCommutes(v.b2, w.b2);
    AddCommutes(v.b3, w.b3);
  }

  /** The macro ROTL8. */
  function Rotl8(x: bv32): bv32 {
    (x << 8) | (x >> 24)
  }

  lemma Rotl8Pack(w: Word)
    ensures Rotl8(Pack(w)) == Pack(Word(w.b3, w.b0, w.b1, w.b2))
  {}

  /** The macro XTIME, on a C integer. */
  function XtimeC(x: bv32): bv32 {
    (x << 1) ^ (if x & 0x80 != 0 then 0x1B else 0)
  }

  lemma XtimeCWide(b: bv8)
    ensures XtimeC(Wide(b)) & 0xFF == Wide(Xtime(b))
    ensures (Wide(b) ^ XtimeC(Wide(b))) & 0xFF == Wide(Times3(b))
    ensures (Wide(Xtime(b)) ^ Wide(b)) & 0xFF == Wide(Times3(b))
  {
    if b & 0x80 != 0 {} else {}
  }

  /** One of the eight-bit rotations of the S-box loop. */
  function RotC(y: bv32): bv32 {
    ((y << 1) | (y >> 7)) & 0xFF
  }

  /** A loop counter cast to a byte: the byte reached by counting up from zero. */
  function Byte(i: nat): bv8
    requires i < 256
  {
    if i == 0 then 0 else Byte(i - 1) + 1
  }

  lemma {:induction false} IndexByte(i: nat)
    requires i < 256
    ensures Index(Byte(i)) == i
  {
    hide Index;
    IndexInjective(0, 0);
    if i == 0 {
    } else {
      IndexByte(i - 1);
      IndexSuccessor(Byte(i - 1));
    }
  }

  /** The byte at index `i` is the only one there. */
  lemma OnlyByteAt(i: nat)
    requires i < 256
    ensures Index(Byte(i)) == i
    ensures forall b: bv8 :: Index(b) == i ==> b == Byte(i)
  {
    hide Index, Byte;
    IndexByte(i);
    forall b: bv8 | Index(b) == i
      ensures b == Byte(i)
    {
      IndexInjective(b, Byte(i));
    }
  }

  // ---------- What the tables mean ----------

  /** The contribution of one byte of a column to the mixed column, by the byte's row. */
  function MixPart(r: nat, x: bv8): Word
    requires r < 4
  {
    if r == 0 then Word(GMul(2, x), GMul(1, x), GMul(1, x), GMul(3, x))
    else if r == 1 then Word(GMul(3, x), GMul(2, x), GMul(1, x), GMul(1, x))
    else if r == 2 then Word(GMul(1, x), GMul(3, x), GMul(2, x), GMul(1, x))
    else Word(GMul(1, x), GMul(1, x), GMul(3, x), GMul(2, x))
  }

  function InvMixPart(r: nat, x: bv8): Word
    requires r < 4
  {
    if r == 0 then Word(GMul(14, x), GMul(9, x), GMul(13, x), GMul(11, x))
    else if r == 1 then Word(GMul(11, x), GMul(14, x), GMul(9, x), GMul(13, x))
    else if r == 2 then Word(GMul(13, x), GMul(11, x), GMul(14, x), GMul(9, x))
    else Word(GMul(9, x), GMul(13, x), GMul(11, x), GMul(14, x))
  }

  lemma MixColumnParts(w: Word)
    ensures MixColumn(w) == WAdd(WAdd(MixPart(0, w.b0), MixPart(1, w.b1)), WAdd(MixPart(2, w.b2), MixPart(3, w.b3)))
  {
    hide Add, GMul;
  }

  lemma InvMixColumnParts(w: Word)
    ensures InvMixColumn(w) ==
            WAdd(WAdd(InvMixPart(0, w.b0), InvMixPart(1, w.b1)), WAdd(InvMixPart(2, w.b2), InvMixPart(3, w.b3)))
  {
    hide Add, GMul;
  }

  lemma XorParts4(p0: Word, p1: Word, p2: Word, p3: Word)
    ensures Xor(Xor(Xor(Pack(p0), Pack(p1)), Pack(p2)), Pack(p3)) ==
            Pack(WAdd(WAdd(p0, p1), WAdd(p2, p3)))
  {
    hide *;
    PackAdd(p0, p1);
    PackAdd(WAdd(p0, p1), p2);
    PackAdd(WAdd(WAdd(p0, p1), p2), p3);
    WAddAssociates(WAdd(p0, p1), p2, p3);
  }

  /** A round key and four table words, added up from the left. */
  lemma XorParts(k: bv32, p0: Word, p1: Word, p2: Word, p3: Word)
    ensures Unpack(Xor(Xor(Xor(Xor(k, Pack(p0)), Pack(p1)), Pack(p2)), Pack(p3))) ==
            WAdd(WAdd(WAdd(p0, p1), WAdd(p2, p3)), Unpack(k))
  {
    hide *;
    UnpackPack(p0); UnpackPack(p1); UnpackPack(p2); UnpackPack(p3);
    UnpackXor(k, Pack(p0));
    UnpackXor(Xor(k, Pack(p0)), Pack(p1));
    UnpackXor(Xor(Xor(k, Pack(p0)), Pack(p1)), Pack(p2));
    UnpackXor(Xor(Xor(Xor(k, Pack(p0)), Pack(p1)), Pack(p2)), Pack(p3));
    var u := Unpack(k);
    WAddAssociates(u, p0, p1);
    WAddAssociates(u, WAdd(p0, p1), p2);
    WAddAssociates(u, WAdd(WAdd(p0, p1), p2), p3);
    WAddAssociates(WAdd(p0, p1), p2, p3);
    WAddCommutes(u, WAdd(WAdd(p0, p1), WAdd(p2, p3)));
  }

  ghost predicate SboxTable(t: seq<bv8>) {
    |t| == 256 && forall b: bv8 :: t[Index(b)] == Sbox(b)
  }

  ghost predicate InvSboxTable(t: seq<bv8>) {
    |t| == 256 && forall b: bv8 :: t[Index(b)] == InvSbox(b)
  }

  ghost predicate FwdTable(r: nat, t: seq<bv32>)
    requires r < 4
  {
    |t| == 256 && forall b: bv8 :: t[Index(b)] == Pack(MixPart(r, Sbox(b)))
  }

  ghost predicate RevTable(r: nat, t: seq<bv32>)
    requires r < 4
  {
    |t| == 256 && forall b: bv8 :: t[Index(b)] == Pack(InvMixPart(r, InvSbox(b)))
  }

  ghost predicate RconTable(t: seq<bv32>) {
    |t| == 10 && forall i :: 0 <= i < 10 ==> t[i] == Pack(Rcon(i + 1))
  }

  /** The power and logarithm tables. The logarithm of zero is never defined. */
  ghost predicate PowTable(t: seq<bv32>) {
    |t| == 256 && forall i :: 0 <= i < 256 ==> t[i] == Wide(Pow3(i))
  }

  ghost predicate LogTable(t: seq<int>) {
    |t| == 256 && forall b: bv8 :: b != 0 ==> 0 <= t[Index(b)] < 256 && Pow3(t[Index(b)]) == b
  }

  // ---------- Generation ----------

  /** The logarithm table after `n` steps: right for each of the first `n` powers. */
  ghost predicate LogUpTo(n: nat, t: seq<int>) {
    && |t| == 256
    && forall j: nat :: j < n ==> LogKnown(n, t, Pow3(j))
  }

  ghost predicate LogKnown(n: nat, t: seq<int>, b: bv8)
    requires |t| == 256
  {
    0 <= t[Index(b)] < n && Pow3(t[Index(b)]) == b
  }

  lemma LogExtend(n: nat, t: seq<int>)
    requires LogUpTo(n, t)
    ensures LogUpTo(n + 1, t[Index(Pow3(n)) := n])
  {
    hide Index, Pow3;
    var t' := t[Index(Pow3(n)) := n];
    forall j: nat | j < n + 1
      ensures LogKnown(n + 1, t', Pow3(j))
    {
      IndexInjective(Pow3(j), Pow3(n));
      assert j < n ==> LogKnown(n, t, Pow3(j));
    }
  }

  lemma LogComplete(t: seq<int>)
    requires LogUpTo(256, t)
    ensures LogTable(t)
  {
    hide Index, Pow3;
    forall b: bv8 | b != 0
      ensures 0 <= t[Index(b)] < 256 && Pow3(t[Index(b)]) == b
    {
      LogExists(b);
      var j: nat :| j < 255 && Pow3(j) == b;
      assert LogKnown(256, t, Pow3(j));
    }
  }

  method GenPowLog(pow: array<bv32>, log: array<int>)
    requires pow.Length == 256 && log.Length == 256 && pow as object != log
    modifies pow, log
    ensures PowTable(pow[..])
    ensures LogTable(log[..])
  {
    hide Index, Wide, Low, XtimeC, Times3, Xtime, LogUpTo, LogTable;
    var x := Wide(1);
    var i := 0;
    LogNothing(log[..]);
    while i < 256
      invariant 0 <= i <= 256
      invariant x == Wide(Pow3(i))
      invariant forall j :: 0 <= j < i ==> pow[j] == Wide(Pow3(j))
      invariant LogUpTo(i, log[..])
    {
      XtimeCWide(Pow3(i));
      LowWide(Pow3(i));
      LogExtend(i, log[..]);
      pow[i] := x;
      ghost var was := log[..];
      log[Index(Low(x))] := i;
      assert log[..] == was[Index(Pow3(i)) := i];
      x := (x ^ XtimeC(x)) & 0xFF;
      i := i + 1;
    }
    LogComplete(log[..]);
  }

  lemma LogNothing(t: seq<int>)
    requires |t| == 256
    ensures LogUpTo(0, t)
  {}

  method GenRcon(rcon: array<bv32>)
    requires rcon.Length == 10
    modifies rcon
    ensures RconTable(rcon[..])
  {
    hide Wide, Xtime, XtimeC;
    var x := Wide(1);
    var i := 0;
    while i < 10
      invariant 0 <= i <= 10
      invariant x == Wide(XPower(i))
      invariant forall j :: 0 <= j < i ==> rcon[j] == Pack(Rcon(j + 1))
    {
      PackByte(XPower(i));
      XtimeCWide(XPower(i));
      rcon[i] := x;
      x := XtimeC(x) & 0xFF;
      i := i + 1;
    }
  }

  lemma PackByte(b: bv8)
    ensures Pack(Word(b, 0, 0, 0)) == Wide(b)
  {}

  /** The S-box after `n` entries, and the inverse S-box at the images of those entries. */
  ghost predicate SboxUpTo(n: nat, fsb: seq<bv8>, rsb: seq<bv8>) {
    && |fsb| == 256
    && |rsb| == 256
    && (forall b: bv8 :: Index(b) < n ==> fsb[Index(b)] == Sbox(b))
    && (forall b: bv8 :: Index(b) < n ==> rsb[Index(Sbox(b))] == b)
  }

  lemma SboxInjective(a: bv8, b: bv8)
    ensures Sbox(a) == Sbox(b) ==> a == b
  {
    hide Sbox, InvSbox;
    SboxInverse(a);
    SboxInverse(b);
  }

  lemma SboxExtend(i: nat, fsb: seq<bv8>, rsb: seq<bv8>)
    requires i < 256 && SboxUpTo(i, fsb, rsb)
    ensures var s := Sbox(Byte(i)); SboxUpTo(i + 1, fsb[i := s], rsb[Index(s) := Byte(i)])
  {
    hide Index, Byte, Sbox;
    OnlyByteAt(i);
    var s := Sbox(Byte(i));
    var rsb' := rsb[Index(s) := Byte(i)];
    forall b: bv8 | Index(b) < i + 1
      ensures rsb'[Index(Sbox(b))] == b
    {
      SboxInjective(b, Byte(i));
      IndexInjective(Sbox(b), s);
    }
  }

  lemma SboxComplete(fsb: seq<bv8>, rsb: seq<bv8>)
    requires SboxUpTo(256, fsb, rsb)
    ensures SboxTable(fsb) && InvSboxTable(rsb)
  {
    hide Index, Byte, Sbox, InvSbox;
    forall b: bv8
      ensures rsb[Index(b)] == InvSbox(b)
    {
      SboxInverse(b);
      assert Index(InvSbox(b)) < 256;
    }
  }

  /** The five steps of the S-box loop that add up the rotations of `x`. */
  function AffineC(x: bv32): bv32 {
    var y1 := RotC(x);
    var y2 := RotC(y1);
    var y3 := RotC(y2);
    var y4 := RotC(y3);
    x ^ y1 ^ y2 ^ y3 ^ (y4 ^ 0x63)
  }

  lemma AffineCWide(b: bv8)
    ensures AffineC(Wide(b)) == Wide(Affine(b))
  {}

  /** Reading the power table at 255 minus the logarithm gives the inverse. */
  lemma InverseByTables(b: bv8, k: nat)
    requires b != 0 && k < 256 && Pow3(k) == b
    ensures Pow3(255 - k) == Inv(b)
  {
    hide *;
    Pow3Add(k, 255 - k);
    Pow3Order();
    InverseUnique(b, Pow3(255 - k));
  }

  /** The value the S-box loop computes for entry `i`. */
  lemma SboxEntry(i: nat, pow: seq<bv32>, log: seq<int>)
    requires 1 <= i < 256 && PowTable(pow) && LogTable(log)
    ensures 0 <= log[i] < 256
    ensures Low(AffineC(pow[255 - log[i]])) == Sbox(Byte(i))
  {
    hide Index, Byte, Wide, Low, AffineC, Affine, Inv;
    var b := Byte(i);
    OnlyByteAt(i);
    IndexInjective(b, 0);
    InverseByTables(b, log[Index(b)]);
    AffineCWide(Inv(b));
    LowWide(Sbox(b));
  }

  lemma SboxOfZero()
    ensures Sbox(0) == 0x63
  {
    hide Inv;
    assert Affine(0) == 0x63;
  }

  method GenSboxes(pow: array<bv32>, log: array<int>, fsb: array<bv8>, rsb: array<bv8>)
    requires PowTable(pow[..]) && LogTable(log[..])
    requires pow.Length == 256 && log.Length == 256
    requires fsb.Length == 256 && rsb.Length == 256 && fsb != rsb
    requires {fsb as object, rsb} !! {pow as object, log}
    modifies fsb, rsb
    ensures SboxTable(fsb[..]) && InvSboxTable(rsb[..])
  {
    hide Index, Byte, Low, AffineC, Sbox, SboxUpTo, SboxTable, InvSboxTable, PowTable, LogTable;
    fsb[0x00] := 0x63;
    rsb[0x63] := 0x00;
    SboxFirst(fsb[..], rsb[..]);
    var i := 1;
    while i < 256
      invariant 1 <= i <= 256
      invariant SboxUpTo(i, fsb[..], rsb[..])
      invariant pow[..] == old(pow[..]) && log[..] == old(log[..])
    {
      SboxEntry(i, pow[..], log[..]);
      SboxExtend(i, fsb[..], rsb[..]);
      ghost var fsb0, rsb0 := fsb[..], rsb[..];
      var x := AffineC(pow[255 - log[i]]);
      fsb[i] := Low(x);
      rsb[Index(Low(x))] := Byte(i);
      assert fsb[..] == fsb0[i := Sbox(Byte(i))];
      assert rsb[..] == rsb0[Index(Sbox(Byte(i))) := Byte(i)];
      i := i + 1;
    }
    SboxComplete(fsb[..], rsb[..]);
  }

  lemma SboxFirst(fsb: seq<bv8>, rsb: seq<bv8>)
    requires |fsb| == 256 && |rsb| == 256 && fsb[0] == 0x63 && rsb[0x63] == 0
    ensures SboxUpTo(1, fsb, rsb)
  {
    SboxOfZero();
    assert Index(0x63) == 0x63 && Index(0) == 0;
    hide Index, Sbox;
    forall b: bv8 | Index(b) < 1
      ensures b == 0
    {
      IndexInjective(b, 0);
    }
  }

  /** The macro MUL, which never looks up the logarithm of zero. */
  function MulC(pow: seq<bv32>, log: seq<int>, k: bv8, x: bv8): bv32
    requires PowTable(pow) && LogTable(log)
  {
    if k != 0 && x != 0 then pow[(log[Index(k)] + log[Index(x)]) % 255] else 0
  }

  /** MUL is multiplication in the field. */
  lemma MulCIsGMul(pow: seq<bv32>, log: seq<int>, k: bv8, x: bv8)
    requires PowTable(pow) && LogTable(log)
    ensures MulC(pow, log, k, x) == Wide(GMul(k, x))
  {
    hide Index, Pow3, GMul;
    if k != 0 && x != 0 {
      GMulByLogs(log[Index(k)], log[Index(x)]);
    } else {
      GMulZeroLeft(x);
      GMulZeroRight(k);
      assert Wide(0) == 0;
    }
  }

  /** The word assembled for FT0: its bytes are {02}x, x, x, {03}x. */
  function FwdEntry(x: bv8): bv32 {
    var y := XtimeC(Wide(x)) & 0xFF;
    var z := (y ^ Wide(x)) & 0xFF;
    Join(y, Wide(x), Wide(x), z)
  }

  lemma FwdEntryPack(x: bv8)
    ensures FwdEntry(x) == Pack(MixPart(0, x))
  {
    XtimeCWide(x);
    GMulConstants(x);
    hide XtimeC, GMul;
  }

  /** The word assembled for RT0: its bytes are {0e}x, {09}x, {0d}x, {0b}x. */
  function RevEntry(pow: seq<bv32>, log: seq<int>, x: bv8): bv32
    requires PowTable(pow) && LogTable(log)
  {
    Join(MulC(pow, log, 0x0E, x), MulC(pow, log, 0x09, x), MulC(pow, log, 0x0D, x), MulC(pow, log, 0x0B, x))
  }

  lemma RevEntryPack(pow: seq<bv32>, log: seq<int>, x: bv8)
    requires PowTable(pow) && LogTable(log)
    ensures RevEntry(pow, log, x) == Pack(InvMixPart(0, x))
  {
    hide PowTable, LogTable, MulC, GMul, Wide, Join;
    MulCIsGMul(pow, log, 0x0E, x);
    MulCIsGMul(pow, log, 0x09, x);
    MulCIsGMul(pow, log, 0x0D, x);
    MulCIsGMul(pow, log, 0x0B, x);
  }

  /** The other three tables are byte rotations of the first. */
  lemma RotatedParts(x: bv8)
    ensures Rotl8(Pack(MixPart(0, x))) == Pack(MixPart(1, x))
    ensures Rotl8(Pack(MixPart(1, x))) == Pack(MixPart(2, x))
    ensures Rotl8(Pack(MixPart(2, x))) == Pack(MixPart(3, x))
    ensures Rotl8(Pack(InvMixPart(0, x))) == Pack(InvMixPart(1, x))
    ensures Rotl8(Pack(InvMixPart(1, x))) == Pack(InvMixPart(2, x))
    ensures Rotl8(Pack(InvMixPart(2, x))) == Pack(InvMixPart(3, x))
  {
    hide Rotl8, Pack, GMul;
    Rotl8Pack(MixPart(0, x));
    Rotl8Pack(MixPart(1, x));
    Rotl8Pack(MixPart(2, x));
    Rotl8Pack(InvMixPart(0, x));
    Rotl8Pack(InvMixPart(1, x));
    Rotl8Pack(InvMixPart(2, x));
  }

  /** Four tables, right for the bytes below `n`. */
  ghost predicate FwdUpTo(n: nat, r: nat, t: seq<bv32>)
    requires r < 4
  {
    |t| == 256 && forall b: bv8 :: Index(b) < n ==> t[Index(b)] == Pack(MixPart(r, Sbox(b)))
  }

  ghost predicate RevUpTo(n: nat, r: nat, t: seq<bv32>)
    requires r < 4
  {
    |t| == 256 && forall b: bv8 :: Index(b) < n ==> t[Index(b)] == Pack(InvMixPart(r, InvSbox(b)))
  }

  lemma FwdExtend(i: nat, r: nat, t: seq<bv32>, v: bv32)
    requires i < 256 && r < 4 && FwdUpTo(i, r, t) && v == Pack(MixPart(r, Sbox(Byte(i))))
    ensures FwdUpTo(i + 1, r, t[i := v])
  {
    hide Index, Byte, Sbox, MixPart, Pack;
    OnlyByteAt(i);
  }

  lemma RevExtend(i: nat, r: nat, t: seq<bv32>, v: bv32)
    requires i < 256 && r < 4 && RevUpTo(i, r, t) && v == Pack(InvMixPart(r, InvSbox(Byte(i))))
    ensures RevUpTo(i + 1, r, t[i := v])
  {
    hide Index, Byte, InvSbox, InvMixPart, Pack;
    OnlyByteAt(i);
  }

  /** What one iteration of the table loop looks up and computes. */
  lemma RoundEntries(i: nat, pow: seq<bv32>, log: seq<int>, fsb: seq<bv8>, rsb: seq<bv8>)
    requires i < 256 && PowTable(pow) && LogTable(log) && SboxTable(fsb) && InvSboxTable(rsb)
    ensures FwdEntry(fsb[i]) == Pack(MixPart(0, Sbox(Byte(i))))
    ensures RevEntry(pow, log, rsb[i]) == Pack(InvMixPart(0, InvSbox(Byte(i))))
  {
    hide Index, Byte, Sbox, InvSbox, MixPart, InvMixPart, Pack, FwdEntry, RevEntry;
    OnlyByteAt(i);
    FwdEntryPack(fsb[i]);
    RevEntryPack(pow, log, rsb[i]);
  }
}
