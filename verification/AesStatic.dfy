/**
  The static state of C/AES/aes.cpp: the tables as arrays filled in place, and the flag that
  says whether they have been filled.
 */
module AesStatic {
  import opened GF256
  import opened Fips197
  import opened AesTables

  class Tables {
    const FSb: array<bv8>
    const RSb: array<bv8>
    const FT0: array<bv32>
    const FT1: array<bv32>
    const FT2: array<bv32>
    const FT3: array<bv32>
    const RT0: array<bv32>
    const RT1: array<bv32>
    const RT2: array<bv32>
    const RT3: array<bv32>
    const RCON: array<bv32>
    var initDone: bool

    /** The arrays are distinct objects of the declared sizes. */
    ghost predicate Separate() {
      && FSb.Length == RSb.Length == 256
      && FT0.Length == FT1.Length == FT2.Length == FT3.Length == 256
      && RT0.Length == RT1.Length == RT2.Length == RT3.Length == 256
      && RCON.Length == 10
      && FSb != RSb
      && FSb as object !in {FT0, FT1, FT2, FT3, RT0, RT1, RT2, RT3, RCON}
      && RSb as object !in {FT0, FT1, FT2, FT3, RT0, RT1, RT2, RT3, RCON}
      && FT0 !in {FT1, FT2, FT3, RT0, RT1, RT2, RT3, RCON}
      && FT1 !in {FT2, FT3, RT0, RT1, RT2, RT3, RCON}
      && FT2 !in {FT3, RT0, RT1, RT2, RT3, RCON}
      && FT3 !in {RT0, RT1, RT2, RT3, RCON}
      && RT0 !in {RT1, RT2, RT3, RCON}
      && RT1 !in {RT2, RT3, RCON}
      && RT2 !in {RT3, RCON}
      && RT3 != RCON
    }

    ghost function Arrays(): set<object> {
      {FSb as object, RSb, FT0, FT1, FT2, FT3, RT0, RT1, RT2, RT3, RCON}
    }

    /** The tables hold what the cipher needs. */
    ghost predicate Generated()
      reads Arrays()
    {
      && SboxTable(FSb[..]) && InvSboxTable(RSb[..])
      && FwdTable(0, FT0[..]) && FwdTable(1, FT1[..]) && FwdTable(2, FT2[..]) && FwdTable(3, FT3[..])
      && RevTable(0, RT0[..]) && RevTable(1, RT1[..]) && RevTable(2, RT2[..]) && RevTable(3, RT3[..])
      && RconTable(RCON[..])
    }

    ghost predicate Usable()
      reads Arrays()
    {
      Separate() && Generated()
    }

    /** What holds from program start on: the flag is only set once the tables are filled. */
    ghost predicate Valid()
      reads this, Arrays()
    {
      Separate() && (initDone ==> Generated())
    }

    constructor ()
      ensures Valid() && !initDone && fresh(Arrays())
    {
      FSb, RSb := new bv8[256], new bv8[256];
      FT0, FT1, FT2, FT3 := new bv32[256], new bv32[256], new bv32[256], new bv32[256];
      RT0, RT1, RT2, RT3 := new bv32[256], new bv32[256], new bv32[256], new bv32[256];
      RCON := new bv32[10];
      initDone := false;
    }

    /** The eight round tables after `n` entries. */
    ghost predicate RoundTablesUpTo(n: nat)
      reads FT0, FT1, FT2, FT3, RT0, RT1, RT2, RT3
    {
      && FwdUpTo(n, 0, FT0[..]) && FwdUpTo(n, 1, FT1[..]) && FwdUpTo(n, 2, FT2[..]) && FwdUpTo(n, 3, FT3[..])
      && RevUpTo(n, 0, RT0[..]) && RevUpTo(n, 1, RT1[..]) && RevUpTo(n, 2, RT2[..]) && RevUpTo(n, 3, RT3[..])
    }

    /** The forward half of one iteration of the table loop. */
    method SetFwd(i: nat, x: bv8)
      requires Separate() && i < 256 && x == Sbox(Byte(i))
      requires FwdUpTo(i, 0, FT0[..]) && FwdUpTo(i, 1, FT1[..]) && FwdUpTo(i, 2, FT2[..]) && FwdUpTo(i, 3, FT3[..])
      modifies FT0, FT1, FT2, FT3
      ensures FwdUpTo(i + 1, 0, FT0[..]) && FwdUpTo(i + 1, 1, FT1[..])
      ensures FwdUpTo(i + 1, 2, FT2[..]) && FwdUpTo(i + 1, 3, FT3[..])
    {
      hide FwdUpTo, FwdEntry, Rotl8, Pack, Sbox, Byte, MixPart;
      FwdEntryPack(x);
      RotatedParts(x);
      ghost var t0, t1, t2, t3 := FT0[..], FT1[..], FT2[..], FT3[..];
      assert |t0| == |t1| == |t2| == |t3| == 256;
      FT0[i] := FwdEntry(x);
      FT1[i] := Rotl8(FT0[i]);
      FT2[i] := Rotl8(FT1[i]);
      FT3[i] := Rotl8(FT2[i]);
      FwdExtend(i, 0, t0, FT0[i]);
      FwdExtend(i, 1, t1, FT1[i]);
      FwdExtend(i, 2, t2, FT2[i]);
      FwdExtend(i, 3, t3, FT3[i]);
      assert FT0[..] == t0[i := FT0[i]] && FT1[..] == t1[i := FT1[i]];
      assert FT2[..] == t2[i := FT2[i]] && FT3[..] == t3[i := FT3[i]];
    }

    /** The reverse half; `word` is the entry assembled with the macro MUL. */
    method SetRev(i: nat, word: bv32)
      requires Separate() && i < 256 && word == Pack(InvMixPart(0, InvSbox(Byte(i))))
      requires RevUpTo(i, 0, RT0[..]) && RevUpTo(i, 1, RT1[..]) && RevUpTo(i, 2, RT2[..]) && RevUpTo(i, 3, RT3[..])
      modifies RT0, RT1, RT2, RT3
      ensures RevUpTo(i + 1, 0, RT0[..]) && RevUpTo(i + 1, 1, RT1[..])
      ensures RevUpTo(i + 1, 2, RT2[..]) && RevUpTo(i + 1, 3, RT3[..])
    {
      hide RevUpTo, Rotl8, Pack, InvSbox, Byte, InvMixPart;
      RotatedParts(InvSbox(Byte(i)));
      ghost var t0, t1, t2, t3 := RT0[..], RT1[..], RT2[..], RT3[..];
      assert |t0| == |t1| == |t2| == |t3| == 256;
      RT0[i] := word;
      RT1[i] := Rotl8(RT0[i]);
      RT2[i] := Rotl8(RT1[i]);
      RT3[i] := Rotl8(RT2[i]);
      RevExtend(i, 0, t0, RT0[i]);
      RevExtend(i, 1, t1, RT1[i]);
      RevExtend(i, 2, t2, RT2[i]);
      RevExtend(i, 3, t3, RT3[i]);
      assert RT0[..] == t0[i := RT0[i]] && RT1[..] == t1[i := RT1[i]];
      assert RT2[..] == t2[i := RT2[i]] && RT3[..] == t3[i := RT3[i]];
    }

    method GenRoundTables(pow: array<bv32>, log: array<int>)
      requires Separate() && PowTable(pow[..]) && LogTable(log[..])
      requires SboxTable(FSb[..]) && InvSboxTable(RSb[..])
      requires {pow as object, log} !! Arrays()
      modifies FT0, FT1, FT2, FT3, RT0, RT1, RT2, RT3
      ensures RoundTablesUpTo(256)
    {
      hide PowTable, LogTable, SboxTable, InvSboxTable, FwdUpTo, RevUpTo, Byte, Sbox, InvSbox;
      ghost var p, l, f, r := pow[..], log[..], FSb[..], RSb[..];
      assert |f| == |r| == 256;
      EmptyTables();
      var i := 0;
      while i < 256
        invariant 0 <= i <= 256
        invariant RoundTablesUpTo(i)
        invariant pow[..] == p && log[..] == l && FSb[..] == f && RSb[..] == r
      {
        RoundEntries(i, p, l, f, r);
        SboxAt(i, f);
        SetFwd(i, FSb[i]);
        SetRev(i, RevEntry(pow[..], log[..], RSb[i]));
        i := i + 1;
      }
    }

    lemma EmptyTables()
      requires Separate()
      ensures RoundTablesUpTo(0)
    {}

    lemma SboxAt(i: nat, fsb: seq<bv8>)
      requires i < 256 && SboxTable(fsb)
      ensures fsb[i] == Sbox(Byte(i))
    {
      hide Index, Byte, Sbox;
      OnlyByteAt(i);
    }

    lemma RoundTablesComplete()
      requires RoundTablesUpTo(256)
      ensures FwdTable(0, FT0[..]) && FwdTable(1, FT1[..]) && FwdTable(2, FT2[..]) && FwdTable(3, FT3[..])
      ensures RevTable(0, RT0[..]) && RevTable(1, RT1[..]) && RevTable(2, RT2[..]) && RevTable(3, RT3[..])
    {
      hide MixPart, InvMixPart, Pack, Sbox, InvSbox, Index;
    }

    /** The function aes_gen_tables. */
    method GenTables()
      requires Separate()
      modifies Arrays()
      ensures Generated()
    {
      hide PowTable, LogTable, SboxTable, InvSboxTable, FwdTable, RevTable, RconTable;
      var pow := new bv32[256];
      var log := new int[256];
      GenPowLog(pow, log);
      GenRcon(RCON);
      GenSboxes(pow, log, FSb, RSb);
      GenRoundTables(pow, log);
      RoundTablesComplete();
    }

    // ---------- The round macros ----------

    /** One word of AES_FROUND: four table lookups and a round key. */
    function FWord(k: bv32, y0: bv32, y1: bv32, y2: bv32, y3: bv32): bv32
      requires Separate()
      reads FT0, FT1, FT2, FT3
    {
      Xor(Xor(Xor(Xor(k, FT0[Index(Low(y0))]), FT1[Index(Low(y1 >> 8))]),
              FT2[Index(Low(y2 >> 16))]), FT3[Index(Low(y3 >> 24))])
    }

    /** One word of AES_RROUND. */
    function RWord(k: bv32, y0: bv32, y1: bv32, y2: bv32, y3: bv32): bv32
      requires Separate()
      reads RT0, RT1, RT2, RT3
    {
      Xor(Xor(Xor(Xor(k, RT0[Index(Low(y0))]), RT1[Index(Low(y1 >> 8))]),
              RT2[Index(Low(y2 >> 16))]), RT3[Index(Low(y3 >> 24))])
    }

    /** Four substituted bytes as a word: the last round, and the key schedule. */
    function FSubst(a: bv8, b: bv8, c: bv8, d: bv8): bv32
      requires Separate()
      reads FSb
    {
      Join(Wide(FSb[Index(a)]), Wide(FSb[Index(b)]), Wide(FSb[Index(c)]), Wide(FSb[Index(d)]))
    }

    function RSubst(a: bv8, b: bv8, c: bv8, d: bv8): bv32
      requires Separate()
      reads RSb
    {
      Join(Wide(RSb[Index(a)]), Wide(RSb[Index(b)]), Wide(RSb[Index(c)]), Wide(RSb[Index(d)]))
    }

    /** The bytes that one output column gathers from four words. */
    static function Gather(y0: bv32, y1: bv32, y2: bv32, y3: bv32): Word {
      Word(Low(y0), Low(y1 >> 8), Low(y2 >> 16), Low(y3 >> 24))
    }

    /** The fused forward lookup is substitution, column mixing and key addition. */
    lemma FWordMeaning(k: bv32, y0: bv32, y1: bv32, y2: bv32, y3: bv32)
      requires Separate() && Generated()
      ensures Unpack(FWord(k, y0, y1, y2, y3)) ==
              WAdd(MixColumn(SubWord(Gather(y0, y1, y2, y3))), Unpack(k))
    {
      hide Index, Low, Xor, Pack, Unpack, WAdd, MixPart, MixColumn, Sbox, InvSbox, InvMixPart;
      hide SboxTable, InvSboxTable, RevTable, RconTable;
      var w := SubWord(Gather(y0, y1, y2, y3));
      var p0, p1, p2, p3 := MixPart(0, w.b0), MixPart(1, w.b1), MixPart(2, w.b2), MixPart(3, w.b3);
      assert FT0[..][Index(Low(y0))] == Pack(p0);
      assert FT1[..][Index(Low(y1 >> 8))] == Pack(p1);
      assert FT2[..][Index(Low(y2 >> 16))] == Pack(p2);
      assert FT3[..][Index(Low(y3 >> 24))] == Pack(p3);
      XorParts(k, p0, p1, p2, p3);
      MixColumnParts(w);
    }

    /** The fused reverse lookup, likewise. */
    lemma RWordMeaning(k: bv32, y0: bv32, y1: bv32, y2: bv32, y3: bv32)
      requires Separate() && Generated()
      ensures Unpack(RWord(k, y0, y1, y2, y3)) ==
              WAdd(InvMixColumn(InvSubWord(Gather(y0, y1, y2, y3))), Unpack(k))
    {
      hide Index, Low, Xor, Pack, Unpack, WAdd, MixPart, InvMixColumn, Sbox, InvSbox, InvMixPart;
      hide SboxTable, InvSboxTable, FwdTable, RconTable;
      var w := InvSubWord(Gather(y0, y1, y2, y3));
      var p0, p1, p2, p3 := InvMixPart(0, w.b0), InvMixPart(1, w.b1), InvMixPart(2, w.b2), InvMixPart(3, w.b3);
      assert RT0[..][Index(Low(y0))] == Pack(p0);
      assert RT1[..][Index(Low(y1 >> 8))] == Pack(p1);
      assert RT2[..][Index(Low(y2 >> 16))] == Pack(p2);
      assert RT3[..][Index(Low(y3 >> 24))] == Pack(p3);
      XorParts(k, p0, p1, p2, p3);
      InvMixColumnParts(w);
    }

    lemma FSubstMeaning(a: bv8, b: bv8, c: bv8, d: bv8)
      requires Separate() && Generated()
      ensures FSubst(a, b, c, d) == Pack(SubWord(Word(a, b, c, d)))
    {
      hide Index, Sbox, Wide, Join, FwdTable, RevTable, InvSboxTable, RconTable;
      assert FSb[..][Index(a)] == Sbox(a) && FSb[..][Index(b)] == Sbox(b);
      assert FSb[..][Index(c)] == Sbox(c) && FSb[..][Index(d)] == Sbox(d);
    }

    lemma RconAt(i: nat)
      requires Separate() && Generated() && i < 10
      ensures RCON[i] == Pack(Rcon(i + 1))
    {
      hide SboxTable, InvSboxTable, FwdTable, RevTable, Pack, Rcon;
      assert RCON[..][i] == Pack(Rcon(i + 1));
    }

    lemma RSubstMeaning(a: bv8, b: bv8, c: bv8, d: bv8)
      requires Separate() && Generated()
      ensures RSubst(a, b, c, d) == Pack(InvSubWord(Word(a, b, c, d)))
    {
      hide Index, InvSbox, Wide, Join, FwdTable, RevTable, SboxTable, RconTable;
      assert RSb[..][Index(a)] == InvSbox(a) && RSb[..][Index(b)] == InvSbox(b);
      assert RSb[..][Index(c)] == InvSbox(c) && RSb[..][Index(d)] == InvSbox(d);
    }

    /** One word of the last round. */
    function FLast(k: bv32, y0: bv32, y1: bv32, y2: bv32, y3: bv32): bv32
      requires Separate()
      reads FSb
    {
      Xor(k, FSubst(Low(y0), Low(y1 >> 8), Low(y2 >> 16), Low(y3 >> 24)))
    }

    function RLast(k: bv32, y0: bv32, y1: bv32, y2: bv32, y3: bv32): bv32
      requires Separate()
      reads RSb
    {
      Xor(k, RSubst(Low(y0), Low(y1 >> 8), Low(y2 >> 16), Low(y3 >> 24)))
    }

    lemma LastMeaning(k: bv32, y0: bv32, y1: bv32, y2: bv32, y3: bv32)
      requires Separate() && Generated()
      ensures Unpack(FLast(k, y0, y1, y2, y3)) == WAdd(SubWord(Gather(y0, y1, y2, y3)), Unpack(k))
      ensures Unpack(RLast(k, y0, y1, y2, y3)) == WAdd(InvSubWord(Gather(y0, y1, y2, y3)), Unpack(k))
    {
      hide Generated, Separate, Pack, Unpack, Low, Xor, SubWord, InvSubWord, FSubst, RSubst, WAdd;
      var w := Gather(y0, y1, y2, y3);
      FSubstMeaning(w.b0, w.b1, w.b2, w.b3);
      RSubstMeaning(w.b0, w.b1, w.b2, w.b3);
      UnpackXor(k, Pack(SubWord(w)));
      UnpackXor(k, Pack(InvSubWord(w)));
      UnpackPack(SubWord(w));
      UnpackPack(InvSubWord(w));
      WAddCommutes(Unpack(k), SubWord(w));
      WAddCommutes(Unpack(k), InvSubWord(w));
    }

    /** The substitution terms of the key schedule, with and without the rotation. */
    function SubstRot(y: bv32): bv32
      requires Separate()
      reads FSb
    {
      FSubst(Low(y >> 8), Low(y >> 16), Low(y >> 24), Low(y))
    }

    function Subst(y: bv32): bv32
      requires Separate()
      reads FSb
    {
      FSubst(Low(y), Low(y >> 8), Low(y >> 16), Low(y >> 24))
    }

    lemma SubstMeaning(x: Word)
      requires Separate() && Generated()
      ensures SubstRot(Pack(x)) == Pack(SubWord(RotWord(x)))
      ensures Subst(Pack(x)) == Pack(SubWord(x))
    {
      hide Generated, Separate, Pack, Low, SubWord, FSubst;
      UnpackPack(x);
      FSubstMeaning(x.b1, x.b2, x.b3, x.b0);
      FSubstMeaning(x.b0, x.b1, x.b2, x.b3);
    }

    /** The expression that aes_setkey_dec applies to each inner round key word. */
    function InvKeyMix(x: bv32): bv32
      requires Separate()
      reads FSb, RT0, RT1, RT2, RT3
    {
      Xor(Xor(Xor(RT0[Index(FSb[Index(Low(x))])], RT1[Index(FSb[Index(Low(x >> 8))])]),
              RT2[Index(FSb[Index(Low(x >> 16))])]), RT3[Index(FSb[Index(Low(x >> 24))])])
    }

    /** The S-box lookup cancels the inverse substitution built into the reverse tables. */
    lemma InvKeyMixMeaning(x: Word)
      requires Separate() && Generated()
      ensures InvKeyMix(Pack(x)) == Pack(InvMixColumn(x))
    {
      hide Index, Low, Xor, Pack, WAdd, MixPart, InvMixColumn, Sbox, InvSbox, InvMixPart;
      hide InvSboxTable, FwdTable, RconTable;
      UnpackPack(x);
      SboxInverse(x.b0); SboxInverse(x.b1); SboxInverse(x.b2); SboxInverse(x.b3);
      assert FSb[..][Index(x.b0)] == Sbox(x.b0) && FSb[..][Index(x.b1)] == Sbox(x.b1);
      assert FSb[..][Index(x.b2)] == Sbox(x.b2) && FSb[..][Index(x.b3)] == Sbox(x.b3);
      assert RT0[..][Index(Sbox(x.b0))] == Pack(InvMixPart(0, x.b0));
      assert RT1[..][Index(Sbox(x.b1))] == Pack(InvMixPart(1, x.b1));
      assert RT2[..][Index(Sbox(x.b2))] == Pack(InvMixPart(2, x.b2));
      assert RT3[..][Index(Sbox(x.b3))] == Pack(InvMixPart(3, x.b3));
      XorParts4(InvMixPart(0, x.b0), InvMixPart(1, x.b1), InvMixPart(2, x.b2), InvMixPart(3, x.b3));
      InvMixColumnParts(x);
    }

    /** The lazy initialisation at the head of aes_setkey_enc. */
    method Init()
      requires Valid()
      modifies this, Arrays()
      ensures Valid() && initDone
    {
      hide Generated;
      if !initDone {
        GenTables();
        initDone := true;
      }
    }
  }
}
