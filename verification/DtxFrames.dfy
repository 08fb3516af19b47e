/**
  Discontinuous transmission in the AMR encoder: the hangover state machine tx_dtx_handler of
  C/amr_encode/sp_enc.c, and the SID scheduling of Encoder_Interface_Encode in
  C/amr_encode/interf_enc.c. Counters are 16-bit, as in the source.
 */
module DtxFrames {

  const DTX_HANG_CONST := 7
  const DTX_ELAPSED_FRAMES_THRESH := 30

  predicate IsWord16(x: int) {
    -32768 <= x <= 32767
  }

  /** An integer stored in a Word16. */
  function Word16(x: int): (w: int)
    ensures IsWord16(w)
    ensures IsWord16(x) ==> w == x
  {
    (x + 32768) % 65536 - 32768
  }

  /** The decision for one frame. */
  datatype Decision = Speech | Dtx(newSid: bool)

  // ---------- The machine with unbounded counters ----------

  /** `elapsed` counts the frames since the decoder analysis was last restarted, `hangover` the
      frames of hangover that are left. */
  datatype Counters = Counters(elapsed: int, hangover: int)

  predicate InHangover(c: Counters) {
    0 <= c.hangover <= DTX_HANG_CONST
  }

  function Next(c: Counters, vad: bool): Counters {
    if vad then Counters(c.elapsed + 1, DTX_HANG_CONST)
    else if c.hangover == 0 then Counters(0, 0)
    else Counters(c.elapsed + 1, c.hangover - 1)
  }

  function Decide(c: Counters, vad: bool): Decision {
    if vad then Speech
    else if c.hangover == 0 then Dtx(true)
    else if c.elapsed + 1 + (c.hangover - 1) < DTX_ELAPSED_FRAMES_THRESH then Dtx(false)
    else Speech
  }

  function After(c: Counters, vads: seq<bool>): Counters {
    if vads == [] then c else Next(After(c, vads[..|vads| - 1]), vads[|vads| - 1])
  }

  /** Frames without speech. */
  function Quiet(n: nat): (vads: seq<bool>)
    ensures |vads| == n
  {
    seq(n, _ => false)
  }

  lemma {:induction false} AfterAll(c: Counters, vads: seq<bool>, more: seq<bool>)
    ensures After(c, vads + more) == After(After(c, vads), more)
  {
    if more == [] {
      assert vads + more == vads;
    } else {
      var n := |more| - 1;
      assert (vads + more)[..|vads| + n] == vads + more[..n];
      AfterAll(c, vads, more[..n]);
    }
  }

  lemma {:induction false} AfterQuiet(c: Counters, n: nat)
    requires n <= c.hangover
    ensures After(c, Quiet(n)) == Counters(c.elapsed + n, c.hangover - n)
  {
    if n == 0 {
    } else {
      AfterQuiet(c, n - 1);
      assert Quiet(n)[..n - 1] == Quiet(n - 1);
    }
  }

  /** For every sequence of VAD flags that ends in speech: all seven frames of the hangover decide
      as its first one does. */
  lemma OneChoice(c: Counters, vads: seq<bool>, j: nat)
    requires vads != [] && vads[|vads| - 1] && j < DTX_HANG_CONST
    ensures Decide(After(c, vads + Quiet(j)), false) == Decide(After(c, vads), false)
  {
    AfterAll(c, vads, Quiet(j));
    AfterQuiet(After(c, vads), j);
  }

  /** Frames of speech. */
  function Talk(n: nat): (vads: seq<bool>)
    ensures |vads| == n
  {
    seq(n, _ => true)
  }

  lemma {:induction false} SpeechRun(c: Counters, n: nat)
    ensures After(c, Talk(n)) == if n == 0 then c else Counters(c.elapsed + n, DTX_HANG_CONST)
  {
    if n == 0 {
    } else {
      SpeechRun(c, n - 1);
      assert Talk(n)[..n - 1] == Talk(n - 1);
    }
  }

  /** A quiet frame after the hangover is over restarts the count, however often. */
  lemma {:induction false} SilenceRestarts(c: Counters, n: nat)
    requires 0 <= c.hangover < n
    ensures After(c, Quiet(n)) == Counters(0, 0)
  {
    assert Quiet(n)[..n - 1] == Quiet(n - 1);
    if n == c.hangover + 1 {
      AfterQuiet(c, n - 1);
    } else {
      SilenceRestarts(c, n - 1);
    }
  }

  // ---------- The machine with 16-bit counters ----------

  /** The decision when the elapsed count is stored in 16 bits. */
  function Decide16(c: Counters, vad: bool): Decision {
    if vad then Speech
    else if c.hangover == 0 then Dtx(true)
    else if Word16(c.elapsed + 1) + (c.hangover - 1) < DTX_ELAPSED_FRAMES_THRESH then Dtx(false)
    else Speech
  }

  /** It is the ideal one unless the count has wrapped around to a value below the threshold. */
  lemma DecisionsAgree(c: Counters, vad: bool)
    requires InHangover(c) && c.elapsed >= 0
    ensures Decide16(c, vad) == Decide(c, vad) <==>
              vad || c.hangover == 0 || c.elapsed + 1 <= 32767 ||
              Word16(c.elapsed + 1) + c.hangover - 1 >= DTX_ELAPSED_FRAMES_THRESH
  {}

  /** After eight or more quiet frames and a burst of n speech frames the count is n, whatever it was
      before: the first seven quiet frames are sent as speech when the burst had at least 23 frames,
      and none of them is otherwise; those that follow ask for a new SID. */
  lemma AfterBurst(c: Counters, m: nat, n: nat, j: nat)
    requires InHangover(c) && m >= 8 && n >= 1
    ensures var past, d := After(c, Quiet(m) + Talk(n) + Quiet(j)), if n + 7 < 30 then Dtx(false) else Speech;
            && Decide(past, false) == (if j < 7 then d else Dtx(true))
            && (n + 7 <= 32767 ==> Decide16(past, false) == Decide(past, false))
  {
    hide After;
    AfterAll(c, Quiet(m) + Talk(n), Quiet(j));
    AfterAll(c, Quiet(m), Talk(n));
    SilenceRestarts(c, m);
    SpeechRun(Counters(0, 0), n);
    if j <= 7 {
      AfterQuiet(Counters(n, 7), j);
    } else {
      SilenceRestarts(Counters(n, 7), j);
    }
  }

  /** The decision of frame j + 1 of a hangover after a count of e. */
  lemma HangoverDecides(c: Counters, vads: seq<bool>, j: nat)
    requires vads != [] && vads[|vads| - 1] && j < DTX_HANG_CONST
    ensures Decide16(After(c, vads + Quiet(j)), false) ==
              if Word16(After(c, vads).elapsed + j + 1) + (DTX_HANG_CONST - 1 - j) < DTX_ELAPSED_FRAMES_THRESH
              then Dtx(false) else Speech
  {
    AfterAll(c, vads, Quiet(j));
    AfterQuiet(After(c, vads), j);
  }

  /** The stored count does not wrap around in the middle of a hangover that starts now. */
  predicate Steady(c: Counters) {
    Word16(c.elapsed) <= 32767 - DTX_HANG_CONST || Word16(c.elapsed) == 32767
  }

  /** With 16-bit counters the seven frames decide alike exactly then. */
  lemma HangoverUniform(c: Counters, vads: seq<bool>)
    requires vads != [] && vads[|vads| - 1]
    ensures (forall j :: 0 <= j < DTX_HANG_CONST ==>
               Decide16(After(c, vads + Quiet(j)), false) == Decide16(After(c, vads + Quiet(0)), false)) <==>
            Steady(After(c, vads))
  {
    hide Decide16, After, Word16;
    var e := After(c, vads).elapsed;
    forall j | 0 <= j < DTX_HANG_CONST
      ensures Decide16(After(c, vads + Quiet(j)), false) ==
                if (if Word16(e) + j < 32767 then Word16(e) + 7 else Word16(e) + 7 - 65536) < DTX_ELAPSED_FRAMES_THRESH
                then Dtx(false) else Speech
    {
      HangoverDecides(c, vads, j);
      StoredSum(e, j + 1);
    }
    if !Steady(After(c, vads)) {
      assert Decide16(After(c, vads + Quiet(0)), false) == Speech;
      assert Decide16(After(c, vads + Quiet(6)), false) == Dtx(false);
    }
  }

  lemma StoredSum(e: int, k: int)
    requires 1 <= k <= DTX_HANG_CONST
    ensures Word16(e + k) == if Word16(e) + k <= 32767 then Word16(e) + k else Word16(e) + k - 65536
    ensures IsWord16(Word16(e))
  {}

  /** A speech frame at i with a whole hangover behind it. */
  predicate HangoverAt(vads: seq<bool>, i: nat) {
    i + DTX_HANG_CONST < |vads| && vads[i] && forall j :: i < j <= i + DTX_HANG_CONST ==> !vads[j]
  }

  /** The seven frames behind i are decided alike. */
  predicate DecidedAlike(ds: seq<Decision>, i: nat) {
    i + DTX_HANG_CONST < |ds| && forall j :: i < j <= i + DTX_HANG_CONST ==> ds[j] == ds[i + 1]
  }

  lemma HangoverPrefix(vads: seq<bool>, i: nat, j: nat)
    requires HangoverAt(vads, i) && j < DTX_HANG_CONST
    ensures vads[..i + 1 + j] == vads[..i + 1] + Quiet(j) && !vads[i + 1 + j]
  {}

  /** The same about the decisions of a run. */
  lemma RunUniform(c: Counters, vads: seq<bool>, ds: seq<Decision>, i: nat)
    requires |ds| == |vads| && forall k :: 0 <= k < |vads| ==> ds[k] == Decide16(After(c, vads[..k]), vads[k])
    requires HangoverAt(vads, i)
    ensures DecidedAlike(ds, i) <==> Steady(After(c, vads[..i + 1]))
  {
    hide Decide16, After, Word16;
    var w := vads[..i + 1];
    forall j | 0 <= j < DTX_HANG_CONST
      ensures ds[i + 1 + j] == Decide16(After(c, w + Quiet(j)), false)
    {
      HangoverPrefix(vads, i, j);
    }
    HangoverUniform(c, w);
    if DecidedAlike(ds, i) {
      forall j | 0 <= j < DTX_HANG_CONST
        ensures Decide16(After(c, w + Quiet(j)), false) == Decide16(After(c, w + Quiet(0)), false)
      {
        assert ds[i + 1 + j] == ds[i + 1 + 0];
      }
    } else {
      var j :| i < j <= i + DTX_HANG_CONST && ds[j] != ds[i + 1];
      var k := j - i - 1;
      assert Decide16(After(c, w + Quiet(k)), false) != Decide16(After(c, w + Quiet(0)), false);
    }
  }

  /** The count does get there: after a reset and 32731 frames of speech, almost eleven minutes, six
      frames of the hangover are sent as speech and the seventh is not. */
  lemma LongSpeech()
    ensures var c, vads := Counters(DTX_ELAPSED_FRAMES_THRESH, DTX_HANG_CONST), Talk(32731);
            && After(c, vads).elapsed == 32761
            && (forall j :: 0 <= j < 6 ==> Decide16(After(c, vads + Quiet(j)), false) == Speech)
            && Decide16(After(c, vads + Quiet(6)), false) == Dtx(false)
            && Decide(After(c, vads + Quiet(6)), false) == Speech
  {
    hide Decide16, After;
    var c, vads := Counters(DTX_ELAPSED_FRAMES_THRESH, DTX_HANG_CONST), Talk(32731);
    SpeechRun(c, 32731);
    forall j | 0 <= j < DTX_HANG_CONST
      ensures Decide16(After(c, vads + Quiet(j)), false) == if j < 6 then Speech else Dtx(false)
    {
      HangoverDecides(c, vads, j);
    }
    OneChoice(c, vads, 6);
  }

  // ---------- The machine of the source ----------

  class DtxState {
    var decAnaElapsedCount: int
    var dtxHangoverCount: int

    ghost predicate Valid()
      reads this
    {
      IsWord16(decAnaElapsedCount) && 0 <= dtxHangoverCount <= DTX_HANG_CONST
    }

    constructor ()
      ensures Valid() && decAnaElapsedCount == DTX_ELAPSED_FRAMES_THRESH && dtxHangoverCount == DTX_HANG_CONST
    {
      decAnaElapsedCount, dtxHangoverCount := DTX_ELAPSED_FRAMES_THRESH, DTX_HANG_CONST;
    }

    /** tx_dtx_handler. `ideal` is any unbounded count that the stored one agrees with modulo 2^16. */
    method Handle(vad: bool, ghost ideal: Counters) returns (d: Decision)
      requires Valid() && InHangover(ideal)
      requires decAnaElapsedCount == Word16(ideal.elapsed) && dtxHangoverCount == ideal.hangover
      modifies this
      ensures Valid() && InHangover(Next(ideal, vad))
      ensures decAnaElapsedCount == Word16(Next(ideal, vad).elapsed) && dtxHangoverCount == Next(ideal, vad).hangover
      ensures d == Decide16(ideal, vad)
    {
      decAnaElapsedCount := Word16(decAnaElapsedCount + 1);
      WordStep(ideal.elapsed);
      d := Speech;
      if vad {
        dtxHangoverCount := DTX_HANG_CONST;
      } else {
        if dtxHangoverCount == 0 {
          decAnaElapsedCount := 0;
          d := Dtx(true);
        } else {
          dtxHangoverCount := dtxHangoverCount - 1;
          if decAnaElapsedCount + dtxHangoverCount < DTX_ELAPSED_FRAMES_THRESH {
            d := Dtx(false);
          }
        }
      }
    }

    /** A run over any sequence of VAD flags. The decisions after each speech frame with a whole
        hangover behind it are alike exactly when the count stored then is at most 32760, or 32767;
        and each decision is the ideal one exactly when DecisionsAgree says so. */
    method Run(vads: seq<bool>) returns (ds: seq<Decision>)
      requires Valid()
      modifies this
      ensures |ds| == |vads|
      ensures var c := old(Counters(decAnaElapsedCount, dtxHangoverCount));
              && (forall k :: 0 <= k < |vads| ==> ds[k] == Decide16(After(c, vads[..k]), vads[k]))
              && forall i: nat :: HangoverAt(vads, i) ==> (DecidedAlike(ds, i) <==> Steady(After(c, vads[..i + 1])))
    {
      hide Decide16, Next, DecidedAlike, Steady, Word16;
      ds := [];
      ghost var c0 := Counters(decAnaElapsedCount, dtxHangoverCount);
      var i := 0;
      assert vads[..0] == [];
      while i < |vads|
        invariant 0 <= i <= |vads| && |ds| == i && Valid()
        invariant InHangover(After(c0, vads[..i]))
        invariant decAnaElapsedCount == Word16(After(c0, vads[..i]).elapsed)
        invariant dtxHangoverCount == After(c0, vads[..i]).hangover
        invariant forall k :: 0 <= k < i ==> ds[k] == Decide16(After(c0, vads[..k]), vads[k])
      {
        assert vads[..i + 1][..i] == vads[..i];
        var d := Handle(vads[i], After(c0, vads[..i]));
        ds := ds + [d];
        i := i + 1;
      }
      forall i: nat | HangoverAt(vads, i)
        ensures DecidedAlike(ds, i) <==> Steady(After(c0, vads[..i + 1]))
      {
        RunUniform(c0, vads, ds, i);
      }
    }
  }

  lemma WordStep(e: int)
    ensures Word16(Word16(e) + 1) == Word16(e + 1)
  {}

  // ---------- SID scheduling ----------

  datatype FrameType = SpeechGood | SidFirst | SidUpdate | NoData

  /** What the encoder was given: a speech frame, a frame without speech, or the homing frame,
      which is sent as speech and resets the state. */
  datatype Frame = SpeechFrame | DtxFrame | HomingFrame

  class SidState {
    var sidUpdateCounter: int
    var sidHandoverDebt: int
    var prevFt: FrameType

    /** The state after `k` consecutive frames without speech. */
    ghost predicate AfterSilence(k: nat)
      reads this
    {
      && sidHandoverDebt == 0
      && 1 <= sidUpdateCounter <= 8
      && ((prevFt == SpeechGood) <==> k == 0)
      && (1 <= k <= 3 ==> sidUpdateCounter == 4 - k)
      && (k >= 4 ==> sidUpdateCounter == 8 - (k - 4) % 8)
    }

    constructor ()
      ensures AfterSilence(0)
    {
      sidUpdateCounter, sidHandoverDebt, prevFt := 3, 0, SpeechGood;
    }

    /** Sid_Sync_reset */
    method Reset()
      modifies this
      ensures AfterSilence(0)
    {
      sidUpdateCounter := 3;
      sidHandoverDebt := 0;
      prevFt := SpeechGood;
    }

    /** The frame-type logic of Encoder_Interface_Encode. From a state that follows `k` frames
        without speech it keeps to the schedule; an outstanding handover debt, which no run
        incurs, would be paid with an extra update. */
    method Schedule(f: Frame, ghost k: nat) returns (ft: FrameType)
      modifies this
      ensures old(AfterSilence(k)) ==> AfterSilence(Silence(f, k)) && ft == TypeOf(f, k)
      ensures f == DtxFrame && old(prevFt) != SpeechGood && old(sidHandoverDebt) > 0 && old(sidUpdateCounter) > 3 ==>
                ft == SidUpdate && sidHandoverDebt == old(sidHandoverDebt) - 1
    {
      if f == DtxFrame {
        sidUpdateCounter := sidUpdateCounter - 1;
        if prevFt == SpeechGood {
          ft := SidFirst;
          sidUpdateCounter := 3;
        } else {
          if sidHandoverDebt > 0 && sidUpdateCounter > 2 {
            ft := SidUpdate;
            sidHandoverDebt := sidHandoverDebt - 1;
          } else {
            if sidUpdateCounter == 0 {
              ft := SidUpdate;
              sidUpdateCounter := 8;
            } else {
              ft := NoData;
            }
          }
        }
      } else {
        sidUpdateCounter := 8;
        ft := SpeechGood;
      }
      prevFt := ft;
      if f == HomingFrame {
        Reset();
      }
    }

    /** A run over any sequence of frames. */
    method ScheduleAll(fs: seq<Frame>) returns (fts: seq<FrameType>)
      requires AfterSilence(0)
      modifies this
      ensures |fts| == |fs| && forall i :: 0 <= i < |fs| ==> fts[i] == TypeOf(fs[i], SilenceBefore(fs[..i]))
    {
      hide TypeOf, Silence;
      fts := [];
      var i := 0;
      assert fs[..0] == [];
      while i < |fs|
        invariant 0 <= i <= |fs| && |fts| == i
        invariant AfterSilence(SilenceBefore(fs[..i]))
        invariant forall j :: 0 <= j < i ==> fts[j] == TypeOf(fs[j], SilenceBefore(fs[..j]))
      {
        assert fs[..i + 1][..i] == fs[..i];
        var ft := Schedule(fs[i], SilenceBefore(fs[..i]));
        fts := fts + [ft];
        i := i + 1;
      }
    }
  }

  function Silence(f: Frame, k: nat): nat {
    if f == DtxFrame then k + 1 else 0
  }

  /** How many frames without speech end the sequence. */
  function SilenceBefore(fs: seq<Frame>): nat {
    if fs == [] then 0 else Silence(fs[|fs| - 1], SilenceBefore(fs[..|fs| - 1]))
  }

  /** The schedule of the standard: a first SID, an update three frames later, and then an
      update every eighth frame. */
  function TypeOf(f: Frame, k: nat): FrameType {
    if f != DtxFrame then SpeechGood
    else if k == 0 then SidFirst
    else if k >= 3 && (k - 3) % 8 == 0 then SidUpdate
    else NoData
  }
}
