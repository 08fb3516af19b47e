/**
  The closed-loop pitch search of C/amr_encode/sp_enc.c and its fractional lag codes (getRange,
  searchFrac, Enc_lag3, Enc_lag6, Pitch_fr). Correlations are arbitrary functions of the lag.
 */
module PitchLag {

  const PIT_MAX := 143

  /** A row of the mode-dependent parameter table. */
  datatype Parm = Parm(maxFracLag: int, flag3: bool, firstFrac: int, lastFrac: int, deltaIntLow: int,
                       deltaIntRange: int, deltaFrcLow: int, deltaFrcRange: int, pitMin: int, fourBits: bool)

  /** What the rows of the table have in common: third resolution up to lag 84 from lag 20 on,
      or sixth resolution up to lag 94 from lag 18 on. */
  predicate IsParm(m: Parm) {
    && (if m.flag3 then m.maxFracLag == 84 && m.firstFrac == -2 && m.lastFrac == 2 && m.pitMin == 20
        else m.maxFracLag == 94 && m.firstFrac == -3 && m.lastFrac == 3 && m.pitMin == 18 && !m.fourBits)
    && 0 <= m.deltaIntRange <= 20 && (m.deltaFrcRange == 9 || (m.deltaFrcRange == 19 && m.flag3 && !m.fourBits))
  }

  // ---------- The search range ----------

  /** getRange: a window of `range` lags around `t0`, moved inside [pitMin, PIT_MAX]. */
  method GetRange(t0: int, low: int, range: int, pitMin: int) returns (t0Min: int, t0Max: int)
    requires 0 <= range && pitMin + range <= PIT_MAX
    ensures pitMin <= t0Min && t0Max <= PIT_MAX && t0Max - t0Min == range
    ensures t0Min == if t0 - low < pitMin then pitMin else if t0 - low + range > PIT_MAX then PIT_MAX - range
            else t0 - low
  {
    t0Min := t0 - low;
    if t0Min < pitMin {
      t0Min := pitMin;
    }
    t0Max := t0Min + range;
    if t0Max > PIT_MAX {
      t0Max := PIT_MAX;
      t0Min := t0Max - range;
    }
  }

  /** The last of the lags from `lo` to `hi` with the largest correlation. */
  ghost predicate IsLastBest(corr: int -> real, lo: int, hi: int, lag: int) {
    && lo <= lag <= hi
    && (forall i :: lo <= i <= hi ==> corr(i) <= corr(lag))
    && (forall i :: lag < i <= hi ==> corr(i) < corr(lag))
  }

  /** The integer search. */
  method SearchInteger(corr: int -> real, t0Min: int, t0Max: int) returns (lag: int)
    requires t0Min <= t0Max
    ensures IsLastBest(corr, t0Min, t0Max, lag)
  {
    var max := corr(t0Min);
    lag := t0Min;
    var i := t0Min + 1;
    while i <= t0Max
      invariant t0Min <= lag < i <= t0Max + 1 && max == corr(lag)
      invariant forall k :: t0Min <= k < i ==> corr(k) <= corr(lag)
      invariant forall k :: lag < k < i ==> corr(k) < corr(lag)
    {
      if corr(i) >= max {
        max := corr(i);
        lag := i;
      }
      i := i + 1;
    }
  }

  // ---------- Lags in fractions ----------

  /** A lag and fraction as a number of thirds or sixths. */
  function Fine(flag3: bool, lag: int, frac: int): int {
    (if flag3 then 3 else 6) * lag + frac
  }

  /** Fractions are kept in -1..1, or in -2..3. */
  predicate IsNormal(flag3: bool, frac: int) {
    if flag3 then -1 <= frac <= 1 else -2 <= frac <= 3
  }

  /** The first of the fractions from `lo` to `hi` with the largest interpolated correlation. */
  ghost predicate IsFirstBest(interp: (int, int) -> real, lag: int, lo: int, hi: int, frac: int) {
    && lo <= frac <= hi
    && (forall i :: lo <= i <= hi ==> interp(lag, i) <= interp(lag, frac))
    && (forall i :: lo <= i < frac ==> interp(lag, i) < interp(lag, frac))
  }

  /** searchFrac: the first of the best fractions from `first` to `last`, then normalised to the
      allowed interval without changing the lag it stands for. */
  method SearchFrac(interp: (int, int) -> real, lag: int, first: int, last: int, flag3: bool)
    returns (lag': int, frac: int, ghost best: int)
    requires first <= last && (if flag3 then -2 <= first && last <= 2 else -3 <= first && last <= 3)
    ensures IsFirstBest(interp, lag, first, last, best)
    ensures IsNormal(flag3, frac) && Fine(flag3, lag', frac) == Fine(flag3, lag, best)
  {
    var max := interp(lag, first);
    lag', frac := lag, first;
    var i := first + 1;
    while i <= last
      invariant first <= frac < i <= last + 1 && max == interp(lag, frac)
      invariant forall k :: first <= k < i ==> interp(lag, k) <= interp(lag, frac)
      invariant forall k :: first <= k < frac ==> interp(lag, k) < interp(lag, frac)
    {
      var v := interp(lag, i);
      if v > max {
        max := v;
        frac := i;
      }
      i := i + 1;
    }
    best := frac;
    if !flag3 {
      if frac == -3 {
        frac := 3;
        lag' := lag' - 1;
      }
    } else {
      if frac == -2 {
        frac := 1;
        lag' := lag' - 1;
      }
      if frac == 2 {
        frac := -1;
        lag' := lag' + 1;
      }
    }
  }

  // ---------- The codes ----------

  /** The centre of the four-bit code. */
  function Centre(prev: int, t0Min: int, t0Max: int): int {
    var tmp := if prev - t0Min > 5 then t0Min + 5 else prev;
    if t0Max - tmp > 4 then t0Max - 4 else tmp
  }

  /** With a window of ten lags the centre does not depend on the previous lag. */
  lemma CentreOfTen(prev: int, t0Min: int, t0Max: int)
    requires t0Max - t0Min == 9
    ensures Centre(prev, t0Min, t0Max) == t0Min + 5
  {}

  /** Enc_lag3 */
  function EncLag3(t0: int, frac: int, prev: int, t0Min: int, t0Max: int, delta: bool, flag4: bool): int {
    if !delta then
      if t0 <= 85 then t0 * 3 - 58 + frac else t0 + 112
    else if !flag4 then 3 * (t0 - t0Min) + 2 + frac
    else
      var tmp := Centre(prev, t0Min, t0Max);
      var uplag := t0 + t0 + t0 + frac;
      var low := 3 * (tmp - 2);
      if low >= uplag then t0 - tmp + 5
      else if 3 * (tmp + 1) > uplag then uplag - low + 3
      else t0 - tmp + 11
  }

  /** Enc_lag6 */
  function EncLag6(t0: int, frac: int, t0Min: int, delta: bool): int {
    if !delta then
      if t0 <= 94 then t0 * 6 - 105 + frac else t0 + 368
    else 6 * (t0 - t0Min) + 3 + frac
  }

  /** The pairs that occur when a lag is coded on its own: fractions up to the limit, the seam
      reached only from below, integers above. */
  predicate AbsoluteLag(flag3: bool, lag: int, frac: int) {
    && IsNormal(flag3, frac)
    && var fine := Fine(flag3, lag, frac);
       if flag3 then 19 * 3 + 1 <= fine && (fine <= 84 * 3 + 2 || (frac == 0 && lag <= PIT_MAX))
       else 17 * 6 + 3 <= fine && (fine <= 94 * 6 + 3 || (frac == 0 && lag <= PIT_MAX))
  }

  /** The pairs that occur when a lag is coded relative to a window. */
  predicate RelativeLag(flag3: bool, t0Min: int, t0Max: int, lag: int, frac: int) {
    && IsNormal(flag3, frac)
    && if flag3 then 3 * t0Min - 2 <= Fine(true, lag, frac) <= 3 * t0Max + 2
       else 6 * t0Min - 3 <= Fine(false, lag, frac) <= 6 * t0Max + 3
  }

  /** The pairs of the four-bit code: thirds from two below the centre to one above, and the
      integers of the rest of the window. */
  predicate FourBitLag(t0Min: int, lag: int, frac: int) {
    var c := t0Min + 5;
    && IsNormal(true, frac)
    && if 3 * (c - 2) <= Fine(true, lag, frac) <= 3 * (c + 1) then true else frac == 0 && t0Min <= lag <= t0Min + 9
  }

  /** The decoder's view of each code (TS 26.090 section 5.6). */
  function DecAbsolute3(index: int): (int, int) {
    if index < 197 then
      var t := (index + 2) / 3 + 19;
      (t, index - 3 * t + 58)
    else (index - 112, 0)
  }

  function DecRelative3(index: int, t0Min: int): (int, int) {
    var i := (index + 2) / 3 - 1;
    (i + t0Min, index - 2 - 3 * i)
  }

  function DecFourBits(index: int, t0Min: int): (int, int) {
    var c := t0Min + 5;
    if index < 4 then (c + (index - 5), 0)
    else if index < 12 then
      var thirds := index - 9;
      (c + FloorThird(thirds + 1), thirds - 3 * FloorThird(thirds + 1))
    else (c + index - 11, 0)
  }

  /** Division by three, rounding down. */
  function FloorThird(x: int): int {
    x / 3
  }

  function DecAbsolute6(index: int): (int, int) {
    if index < 463 then
      var t := (index + 5) / 6 + 17;
      (t, index - 6 * t + 105)
    else (index - 368, 0)
  }

  function DecRelative6(index: int, t0Min: int): (int, int) {
    var i := (index + 5) / 6 - 1;
    (i + t0Min, index - 6 * i - 3)
  }

  lemma Absolute3(lag: int, frac: int, prev: int, t0Min: int, t0Max: int, flag4: bool)
    requires AbsoluteLag(true, lag, frac)
    ensures var x := EncLag3(lag, frac, prev, t0Min, t0Max, false, flag4);
            0 <= x < 256 && DecAbsolute3(x) == (lag, frac)
  {}

  lemma Relative3(lag: int, frac: int, prev: int, t0Min: int, t0Max: int)
    requires RelativeLag(true, t0Min, t0Max, lag, frac) && t0Min <= t0Max
    ensures var x := EncLag3(lag, frac, prev, t0Min, t0Max, true, false);
            0 <= x <= 3 * (t0Max - t0Min) + 4 && DecRelative3(x, t0Min) == (lag, frac)
  {}

  lemma FourBits3(lag: int, frac: int, prev: int, t0Min: int, t0Max: int)
    requires t0Max - t0Min == 9 && FourBitLag(t0Min, lag, frac)
    ensures var x := EncLag3(lag, frac, prev, t0Min, t0Max, true, true);
            0 <= x < 16 && DecFourBits(x, t0Min) == (lag, frac)
  {
    CentreOfTen(prev, t0Min, t0Max);
  }

  lemma Absolute6(lag: int, frac: int, t0Min: int)
    requires AbsoluteLag(false, lag, frac)
    ensures var x := EncLag6(lag, frac, t0Min, false);
            0 <= x < 512 && DecAbsolute6(x) == (lag, frac)
  {}

  lemma Relative6(lag: int, frac: int, t0Min: int, t0Max: int)
    requires RelativeLag(false, t0Min, t0Max, lag, frac) && t0Max - t0Min == 9
    ensures var x := EncLag6(lag, frac, t0Min, true);
            0 <= x <= 60 && DecRelative6(x, t0Min) == (lag, frac)
  {}

  // ---------- The whole search ----------

  /** The start of the window getRange sets. */
  function WindowMin(t0: int, low: int, range: int, pitMin: int): int {
    if t0 - low < pitMin then pitMin else if t0 - low + range > PIT_MAX then PIT_MAX - range else t0 - low
  }

  /** Whether a subframe is coded relative to the previous one: the second and fourth always,
      the third in the two lowest modes. */
  predicate IsDelta(subframe: int, lowest: bool) {
    subframe != 0 && (subframe == 80 ==> lowest)
  }

  /** The window of a subframe, which a decoder computes alike when the code is relative. */
  function Window(m: Parm, delta: bool, open: int, prev: int): int {
    if delta then WindowMin(prev, m.deltaFrcLow, m.deltaFrcRange, m.pitMin)
    else WindowMin(open, m.deltaIntLow, m.deltaIntRange, m.pitMin)
  }

  /** The number of values of the lag index: 8, 4, 5 or 6 bits in thirds, 9 or 6 in sixths. */
  function IndexLimit(m: Parm, delta: bool): int {
    if m.flag3 then
      if !delta then 256 else if m.fourBits then 16 else if m.deltaFrcRange == 9 then 32 else 64
    else if !delta then 512 else 61
  }

  function Decode(m: Parm, delta: bool, index: int, t0Min: int): (int, int) {
    if m.flag3 then
      if !delta then DecAbsolute3(index) else if m.fourBits then DecFourBits(index, t0Min)
        else DecRelative3(index, t0Min)
    else if !delta then DecAbsolute6(index) else DecRelative6(index, t0Min)
  }

  /** The pairs a mode can produce. */
  predicate Codable(m: Parm, delta: bool, t0Min: int, t0Max: int, lag: int, frac: int) {
    if !delta then AbsoluteLag(m.flag3, lag, frac)
    else if m.fourBits then FourBitLag(t0Min, lag, frac)
    else RelativeLag(m.flag3, t0Min, t0Max, lag, frac)
  }

  lemma CodableDecodes(m: Parm, delta: bool, t0Min: int, t0Max: int, prev: int, lag: int, frac: int)
    requires IsParm(m) && Codable(m, delta, t0Min, t0Max, lag, frac)
    requires delta ==> t0Max - t0Min == m.deltaFrcRange
    ensures var x := if m.flag3 then EncLag3(lag, frac, prev, t0Min, t0Max, delta, m.fourBits)
            else EncLag6(lag, frac, t0Min, delta);
            0 <= x < IndexLimit(m, delta) && Decode(m, delta, x, t0Min) == (lag, frac)
  {
    hide EncLag3, EncLag6, DecAbsolute3, DecRelative3, DecFourBits, DecAbsolute6, DecRelative6;
    hide AbsoluteLag, RelativeLag, FourBitLag;
    if m.flag3 {
      if !delta {
        Absolute3(lag, frac, prev, t0Min, t0Max, m.fourBits);
      } else if m.fourBits {
        FourBits3(lag, frac, prev, t0Min, t0Max);
      } else {
        Relative3(lag, frac, prev, t0Min, t0Max);
      }
    } else if !delta {
      Absolute6(lag, frac, t0Min);
    } else {
      Relative6(lag, frac, t0Min, t0Max);
    }
  }

  /** The range of lags that can be chosen. */
  predicate IsLag(prev: int) {
    17 <= prev <= PIT_MAX + 1
  }

  /** The fractions that may be tried around an integer lag: two thirds or three sixths on either
      side. None is tried for a lag coded on its own beyond 84 or 94; with the four-bit code both
      sides are tried in the middle of the window, at t0Min + 4 and t0Min + 5, one side at the lags
      next to these, and none elsewhere. */
  ghost predicate AllowedFractions(m: Parm, delta: bool, t0Min: int, lag: int, lo: int, hi: int) {
    var reach := if m.flag3 then 2 else 3;
    var onBothSides := if !delta then lag <= (if m.flag3 then 84 else 94)
                       else m.fourBits ==> t0Min + 4 <= lag <= t0Min + 5;
    && lo == (if onBothSides || (delta && lag == t0Min + 6) then -reach else 0)
    && hi == (if onBothSides || (delta && lag == t0Min + 3) then reach else 0)
  }

  /** The lag and fraction are those of the first best fraction among the allowed ones. */
  ghost predicate IsBestAround(m: Parm, delta: bool, t0Min: int, interp: (int, int) -> real, lag0: int,
                               lag: int, frac: int) {
    && IsNormal(m.flag3, frac)
    && exists lo, hi, best :: AllowedFractions(m, delta, t0Min, lag0, lo, hi) &&
         IsFirstBest(interp, lag0, lo, hi, best) && Fine(m.flag3, lag, frac) == Fine(m.flag3, lag0, best)
  }

  /** What the search must find in a window: the best fraction around its last best lag. */
  ghost predicate IsFound(m: Parm, delta: bool, t0Min: int, corr: int -> real, interp: (int, int) -> real,
                          lag: int, frac: int) {
    exists lag0 :: IsLastBest(corr, t0Min, t0Min + (if delta then m.deltaFrcRange else m.deltaIntRange), lag0) &&
      IsBestAround(m, delta, t0Min, interp, lag0, lag, frac)
  }

  /** There is one result only. */
  lemma FoundUnique(m: Parm, delta: bool, t0Min: int, corr: int -> real, interp: (int, int) -> real,
                    lag: int, frac: int, lag': int, frac': int)
    requires IsFound(m, delta, t0Min, corr, interp, lag, frac) && IsFound(m, delta, t0Min, corr, interp, lag', frac')
    ensures lag == lag' && frac == frac'
  {
    hide IsLastBest, IsBestAround;
    var hi := t0Min + if delta then m.deltaFrcRange else m.deltaIntRange;
    var l :| IsLastBest(corr, t0Min, hi, l) && IsBestAround(m, delta, t0Min, interp, l, lag, frac);
    var l' :| IsLastBest(corr, t0Min, hi, l') && IsBestAround(m, delta, t0Min, interp, l', lag', frac');
    LastBestUnique(corr, t0Min, hi, l, l');
    BestAroundUnique(m, delta, t0Min, interp, l, lag, frac, lag', frac');
  }

  lemma LastBestUnique(corr: int -> real, lo: int, hi: int, a: int, b: int)
    requires IsLastBest(corr, lo, hi, a) && IsLastBest(corr, lo, hi, b)
    ensures a == b
  {
    assert corr(a) <= corr(b) && corr(b) <= corr(a);
  }

  lemma BestAroundUnique(m: Parm, delta: bool, t0Min: int, interp: (int, int) -> real, lag0: int,
                         lag: int, frac: int, lag': int, frac': int)
    requires IsBestAround(m, delta, t0Min, interp, lag0, lag, frac)
    requires IsBestAround(m, delta, t0Min, interp, lag0, lag', frac')
    ensures lag == lag' && frac == frac'
  {
    var lo, hi, a :| AllowedFractions(m, delta, t0Min, lag0, lo, hi) && IsFirstBest(interp, lag0, lo, hi, a) &&
      Fine(m.flag3, lag, frac) == Fine(m.flag3, lag0, a);
    var lo', hi', b :| AllowedFractions(m, delta, t0Min, lag0, lo', hi') && IsFirstBest(interp, lag0, lo', hi', b) &&
      Fine(m.flag3, lag', frac') == Fine(m.flag3, lag0, b);
    assert lo == lo' && hi == hi';
    assert interp(lag0, a) <= interp(lag0, b) && interp(lag0, b) <= interp(lag0, a);
  }

  /** The choice of the fractions to search around an integer lag. */
  method SearchFraction(m: Parm, delta: bool, interp: (int, int) -> real, lag0: int, t0Min: int, t0Max: int, prev: int)
    returns (lag: int, frac: int)
    requires IsParm(m) && m.pitMin <= t0Min <= lag0 <= t0Max <= PIT_MAX && (delta ==> t0Max - t0Min == m.deltaFrcRange)
    ensures Codable(m, delta, t0Min, t0Max, lag, frac)
    ensures IsBestAround(m, delta, t0Min, interp, lag0, lag, frac)
  {
    lag, frac := lag0, m.firstFrac;
    ghost var lo, hi, best := 0, 0, 0;
    if !delta && lag > m.maxFracLag {
      frac := 0;
    } else if delta && m.fourBits {
      CentreOfTen(prev, t0Min, t0Max);
      var tmp := Centre(prev, t0Min, t0Max);
      if lag == tmp || lag == tmp - 1 {
        lo, hi := frac, m.lastFrac;
        lag, frac, best := SearchFrac(interp, lag, frac, m.lastFrac, m.flag3);
      } else if lag == tmp - 2 {
        hi := m.lastFrac;
        lag, frac, best := SearchFrac(interp, lag, 0, m.lastFrac, m.flag3);
      } else if lag == tmp + 1 {
        lo := frac;
        lag, frac, best := SearchFrac(interp, lag, frac, 0, m.flag3);
      } else {
        frac := 0;
      }
    } else {
      lo, hi := frac, m.lastFrac;
      lag, frac, best := SearchFrac(interp, lag, frac, m.lastFrac, m.flag3);
    }
    assert AllowedFractions(m, delta, t0Min, lag0, lo, hi) && IsFirstBest(interp, lag0, lo, hi, best);
  }

  lemma LastBestInside(corr: int -> real, lo: int, hi: int, lag: int)
    requires IsLastBest(corr, lo, hi, lag)
    ensures lo <= lag <= hi
  {}

  lemma CodableLag(m: Parm, delta: bool, t0Min: int, t0Max: int, lag: int, frac: int)
    requires IsParm(m) && m.pitMin <= t0Min && t0Max <= PIT_MAX && Codable(m, delta, t0Min, t0Max, lag, frac)
    requires delta ==> t0Max - t0Min == m.deltaFrcRange
    ensures IsLag(lag) && IsNormal(m.flag3, frac)
  {}

  class PitchState {
    var t0Prev: int

    /** Pitch_fr: for every correlation, every interpolation and every previous lag, the lag and
        fraction are those that the search must find, and the index fits its bits and determines them. */
    method PitchFr(m: Parm, lowest: bool, open: int, subframe: int, corr: int -> real, interp: (int, int) -> real)
      returns (lag: int, frac: int, index: int)
      requires IsParm(m)
      modifies this
      ensures var delta := IsDelta(subframe, lowest);
              var t0Min := Window(m, delta, open, old(t0Prev));
              0 <= index < IndexLimit(m, delta) && Decode(m, delta, index, t0Min) == (lag, frac)
      ensures var delta := IsDelta(subframe, lowest);
              IsFound(m, delta, Window(m, delta, open, old(t0Prev)), corr, interp, lag, frac)
      ensures t0Prev == lag && IsLag(lag) && IsNormal(m.flag3, frac)
    {
      hide EncLag3, EncLag6, Decode, IndexLimit, Codable, IsBestAround, IsLastBest;
      var t0Min, t0Max;
      var delta := true;
      if subframe == 0 || subframe == 80 {
        if !lowest || subframe != 80 {
          delta := false;
          t0Min, t0Max := GetRange(open, m.deltaIntLow, m.deltaIntRange, m.pitMin);
        } else {
          t0Min, t0Max := GetRange(t0Prev, m.deltaFrcLow, m.deltaFrcRange, m.pitMin);
        }
      } else {
        t0Min, t0Max := GetRange(t0Prev, m.deltaFrcLow, m.deltaFrcRange, m.pitMin);
      }
      lag := SearchInteger(corr, t0Min, t0Max);
      LastBestInside(corr, t0Min, t0Max, lag);
      lag, frac := SearchFraction(m, delta, interp, lag, t0Min, t0Max, t0Prev);
      CodableLag(m, delta, t0Min, t0Max, lag, frac);
      CodableDecodes(m, delta, t0Min, t0Max, t0Prev, lag, frac);
      index := if m.flag3 then EncLag3(lag, frac, t0Prev, t0Min, t0Max, delta, m.fourBits)
               else EncLag6(lag, frac, t0Min, delta);
      t0Prev := lag;
    }

    /** A run over any number of frames, each in its own mode: a decoder that starts from the
        same previous lag recovers every lag and fraction from the indices alone. */
    method Run(frames: seq<Mode>, open: int -> int, corr: int -> int -> real, interp: int -> (int, int) -> real)
      returns (lags: seq<(int, int)>, indices: seq<int>)
      requires AreModes(frames)
      modifies this
      ensures |lags| == |indices| == 4 * |frames|
      ensures forall k :: 0 <= k < |lags| ==> IsLag(lags[k].0)
      ensures IndicesFit(frames, indices)
      ensures DecodeRun(frames, indices, old(t0Prev)) == lags
      ensures forall k :: 0 <= k < |lags| ==> IsFoundAt(frames, open, corr, interp, old(t0Prev), lags, k)
    {
      hide Decode, IndexLimit, IsDelta, IndicesFit, DecodeRun, Window, IsFound;
      lags, indices := [], [];
      RunStart(frames, t0Prev);
      var k := 0;
      while k < 4 * |frames|
        invariant 0 <= k <= 4 * |frames| && |lags| == |indices| == k
        invariant forall j :: 0 <= j < k ==> IsLag(lags[j].0)
        invariant t0Prev == if k == 0 then old(t0Prev) else lags[k - 1].0
        invariant IndicesFit(frames, indices)
        invariant DecodeRun(frames, indices, old(t0Prev)) == lags
        invariant forall j :: 0 <= j < k ==> IsFoundAt(frames, open, corr, interp, old(t0Prev), lags, j)
      {
        ghost var prev := t0Prev;
        var f := frames[k / 4];
        var lag, frac, index := PitchFr(f.parm, f.lowest, open(k / 2), 40 * (k % 4), corr(k), interp(k));
        DecodeIgnoresOpen(f.parm, IsDelta(40 * (k % 4), f.lowest), index, open(k / 2), prev);
        RunNext(frames, indices, old(t0Prev), index);
        ghost var found := lags;
        lags, indices := lags + [(lag, frac)], indices + [index];
        forall j | 0 <= j < k
          ensures IsFoundAt(frames, open, corr, interp, old(t0Prev), lags, j)
        {
          assert IsFoundAt(frames, open, corr, interp, old(t0Prev), found, j);
        }
        k := k + 1;
      }
    }
  }

  /** In subframe k the search found what it must, in the window around the open lag of the half
      frame or around the lag of the subframe before. */
  ghost predicate IsFoundAt(frames: seq<Mode>, open: int -> int, corr: int -> int -> real,
                            interp: int -> (int, int) -> real, prev: int, lags: seq<(int, int)>, k: int)
    requires 0 <= k < |lags| <= 4 * |frames|
  {
    var f, delta := frames[k / 4], IsDelta(40 * (k % 4), frames[k / 4].lowest);
    var t0Min := Window(f.parm, delta, open(k / 2), if k == 0 then prev else lags[k - 1].0);
    IsFound(f.parm, delta, t0Min, corr(k), interp(k), lags[k].0, lags[k].1)
  }

  ghost predicate IndicesFit(frames: seq<Mode>, indices: seq<int>)
    requires |indices| <= 4 * |frames|
  {
    forall k :: 0 <= k < |indices| ==>
      0 <= indices[k] < IndexLimit(frames[k / 4].parm, IsDelta(40 * (k % 4), frames[k / 4].lowest))
  }

  lemma RunStart(frames: seq<Mode>, prev: int)
    ensures IndicesFit(frames, []) && DecodeRun(frames, [], prev) == []
  {}

  lemma RunNext(frames: seq<Mode>, indices: seq<int>, prev: int, index: int)
    requires |indices| < 4 * |frames|
    ensures var k := |indices|;
            var f := frames[k / 4];
            var delta := IsDelta(40 * (k % 4), f.lowest);
            var front := DecodeRun(frames, indices, prev);
            && DecodeRun(frames, indices + [index], prev) ==
               front + [Decode(f.parm, delta, index, Window(f.parm, delta, 0, if k == 0 then prev else front[k - 1].0))]
            && (IndicesFit(frames, indices) && 0 <= index < IndexLimit(f.parm, delta) ==>
                  IndicesFit(frames, indices + [index]))
  {
    hide Decode, IndexLimit, IsDelta, Window;
    assert (indices + [index])[..|indices|] == indices;
  }

  /** The mode of a frame; `lowest` marks the two modes that code the third subframe relatively. */
  datatype Mode = Mode(parm: Parm, lowest: bool)

  predicate AreModes(frames: seq<Mode>) {
    forall f :: 0 <= f < |frames| ==> IsParm(frames[f].parm)
  }

  lemma DecodeIgnoresOpen(m: Parm, delta: bool, index: int, open: int, prev: int)
    ensures Decode(m, delta, index, Window(m, delta, open, prev)) == Decode(m, delta, index, Window(m, delta, 0, prev))
  {}

  /** The decoder of a run of subframes: each window comes from the lag decoded before. */
  ghost function DecodeRun(frames: seq<Mode>, indices: seq<int>, prev: int): (lags: seq<(int, int)>)
    requires |indices| <= 4 * |frames|
    ensures |lags| == |indices|
  {
    if indices == [] then []
    else
      var k := |indices| - 1;
      var front := DecodeRun(frames, indices[..k], prev);
      var f := frames[k / 4];
      var delta := IsDelta(40 * (k % 4), f.lowest);
      var p := if k == 0 then prev else front[k - 1].0;
      front + [Decode(f.parm, delta, indices[k], Window(f.parm, delta, 0, p))]
  }
}
