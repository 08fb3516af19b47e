/**
  Pitch sharpening in code_8i40_31bits and code_10i40_35bits of C/amr_encode/sp_enc.c: the same
  recursive filter is applied to the impulse response before the codebook search and to the code
  vector after it.
 */
module PitchSharpening {
  import opened CodebookSearch
  import opened FilteredCode

  // ---------- The filter ----------

  /** Element n when f[n - lag] * gain has been added to every f[n] from the front on. */
  function SharpAt(f: seq<real>, lag: nat, gain: real, n: nat): real
    requires lag > 0 && n < |f|
  {
    f[n] + if n < lag then 0.0 else SharpAt(f, lag, gain, n - lag) * gain
  }

  function Sharp(f: seq<real>, lag: nat, gain: real): (s: seq<real>)
    requires lag > 0
    ensures |s| == |f| && forall n :: 0 <= n < |f| ==> s[n] == SharpAt(f, lag, gain, n)
  {
    seq(|f|, n requires 0 <= n < |f| => SharpAt(f, lag, gain, n))
  }

  lemma SharpNext(f: seq<real>, lag: nat, gain: real, n: nat)
    requires lag > 0 && n < |f|
    ensures Sharp(f, lag, gain)[n] == f[n] + if n < lag then 0.0 else Sharp(f, lag, gain)[n - lag] * gain
  {}

  lemma {:induction false} SharpByZero(f: seq<real>, lag: nat, n: nat)
    requires lag > 0 && n < |f|
    ensures SharpAt(f, lag, 0.0, n) == f[n]
  {
    if n < lag {
    } else {
      SharpByZero(f, lag, n - lag);
    }
  }

  /** The loop, in place; it is left out when the gain is zero. */
  method Sharpen(f: array<real>, lag: nat, gain: real)
    requires lag > 0
    modifies f
    ensures f[..] == Sharp(old(f[..]), lag, gain)
  {
    hide Sharp, SharpAt;
    ghost var was := f[..];
    if gain == 0.0 {
      forall n | 0 <= n < f.Length
        ensures f[n] == Sharp(was, lag, gain)[n]
      {
        SharpByZero(was, lag, n);
      }
      return;
    }
    var i := lag;
    Unsharpened(was, lag, gain);
    while i < f.Length
      invariant lag <= i
      invariant forall n :: 0 <= n < i && n < f.Length ==> f[n] == Sharp(was, lag, gain)[n]
      invariant forall n :: i <= n < f.Length ==> f[n] == was[n]
    {
      SharpNext(was, lag, gain, i);
      f[i] := f[i] + f[i - lag] * gain;
      i := i + 1;
    }
  }

  lemma Unsharpened(f: seq<real>, lag: nat, gain: real)
    requires lag > 0
    ensures forall n :: 0 <= n < lag && n < |f| ==> Sharp(f, lag, gain)[n] == f[n]
  {}

  // ---------- Convolution ----------

  /** The first k terms of sample n of the vector c behind the response h. */
  function ConvUpTo(c: seq<real>, h: seq<real>, n: nat, k: nat): real
    requires k <= n + 1 && n < |c| && n < |h|
  {
    if k == 0 then 0.0 else ConvUpTo(c, h, n, k - 1) + c[k - 1] * h[n - (k - 1)]
  }

  function Conv(c: seq<real>, h: seq<real>, n: nat): real
    requires n < |c| && n < |h|
  {
    ConvUpTo(c, h, n, n + 1)
  }

  lemma LastTerm(c: seq<real>, h: seq<real>, n: nat, k: nat)
    requires 0 < k <= n + 1 && n < |c| && n < |h|
    ensures ConvUpTo(c, h, n, k) == ConvUpTo(c, h, n, k - 1) + c[k - 1] * h[n - (k - 1)] && ConvUpTo(c, h, n, 0) == 0.0
  {}

  /** A term in which one factor is sharpened. */
  lemma SharpVectorTerm(sharp: real, v: real, w: real, gain: real, u: real)
    requires sharp == v + w * gain
    ensures sharp * u == v * u + (w * u) * gain
  {
    assert (w * gain) * u == (w * u) * gain;
  }

  lemma SharpResponseTerm(sharp: real, v: real, w: real, gain: real, u: real)
    requires sharp == v + w * gain
    ensures u * sharp == u * v + (u * w) * gain
  {
    assert u * (w * gain) == (u * w) * gain;
  }

  /** With one more such term, the sums before and after are related alike. */
  lemma SumsMore(sum0: real, plain0: real, late0: real, p: real, q: real, r: real, gain: real)
    requires sum0 == plain0 + late0 * gain && p == q + r * gain
    ensures sum0 + p == plain0 + q + (late0 + r) * gain
  {}

  /** Sharpening the vector: the same, and the sharpened result a lag earlier. */
  lemma {:induction false} ShiftVector(c: seq<real>, h: seq<real>, lag: nat, gain: real, n: nat, k: nat)
    requires lag > 0 && k <= n + 1 && n < |c| && n < |h|
    ensures ConvUpTo(Sharp(c, lag, gain), h, n, k) ==
            ConvUpTo(c, h, n, k) + (if k <= lag then 0.0 else ConvUpTo(Sharp(c, lag, gain), h, n - lag, k - lag)) * gain
  {
    hide Sharp, ConvUpTo;
    var s := Sharp(c, lag, gain);
    if k == 0 {
      NoTerms(s, c, h, n, gain);
    } else {
      ShiftVector(c, h, lag, gain, n, k - 1);
      SharpNext(c, lag, gain, k - 1);
      LastTerm(s, h, n, k);
      LastTerm(c, h, n, k);
      var late0 := if k - 1 <= lag then 0.0 else ConvUpTo(s, h, n - lag, k - 1 - lag);
      var u := h[n - (k - 1)];
      if k > lag {
        LastTerm(s, h, n - lag, k - lag);
        assert n - lag - (k - lag - 1) == n - (k - 1);
        SharpVectorTerm(s[k - 1], c[k - 1], s[k - 1 - lag], gain, u);
        SumsMore(ConvUpTo(s, h, n, k - 1), ConvUpTo(c, h, n, k - 1), late0,
                 s[k - 1] * u, c[k - 1] * u, s[k - 1 - lag] * u, gain);
      }
    }
  }

  lemma NoTerms(s: seq<real>, c: seq<real>, h: seq<real>, n: nat, gain: real)
    requires n < |c| && n < |h| && n < |s|
    ensures ConvUpTo(s, h, n, 0) == ConvUpTo(c, h, n, 0) == 0.0 && 0.0 * gain == 0.0
  {}

  /** Sharpening the response does the same. */
  lemma {:induction false} ShiftResponse(c: seq<real>, h: seq<real>, lag: nat, gain: real, n: nat, k: nat)
    requires lag > 0 && k <= n + 1 && n < |c| && n < |h|
    ensures ConvUpTo(c, Sharp(h, lag, gain), n, k) ==
            ConvUpTo(c, h, n, k) + Late(c, Sharp(h, lag, gain), lag, n, k) * gain
  {
    hide Sharp, ConvUpTo, Late;
    var s := Sharp(h, lag, gain);
    if k == 0 {
      NoTerms(c, c, h, n, gain);
      NoTerms(c, c, s, n, gain);
      NothingLate(c, s, lag, n);
    } else {
      ShiftResponse(c, h, lag, gain, n, k - 1);
      var j := n - (k - 1);
      SharpNext(h, lag, gain, j);
      LastTerm(c, s, n, k);
      LastTerm(c, h, n, k);
      LateNext(c, s, lag, n, k);
      if lag <= j {
        SharpResponseTerm(s[j], h[j], s[j - lag], gain, c[k - 1]);
        SumsMore(ConvUpTo(c, s, n, k - 1), ConvUpTo(c, h, n, k - 1), Late(c, s, lag, n, k - 1),
                 c[k - 1] * s[j], c[k - 1] * h[j], c[k - 1] * s[j - lag], gain);
      }
    }
  }

  /** The part of a sum that reaches back a lag. */
  function Late(c: seq<real>, s: seq<real>, lag: nat, n: nat, k: nat): real
    requires k <= n + 1 && n < |c| && n < |s|
  {
    if n < lag then 0.0 else ConvUpTo(c, s, n - lag, if k <= n - lag + 1 then k else n - lag + 1)
  }

  lemma NothingLate(c: seq<real>, s: seq<real>, lag: nat, n: nat)
    requires n < |c| && n < |s|
    ensures Late(c, s, lag, n, 0) == 0.0
  {}

  lemma LateNext(c: seq<real>, s: seq<real>, lag: nat, n: nat, k: nat)
    requires 0 < k <= n + 1 && n < |c| && n < |s|
    ensures var j := n - (k - 1);
            Late(c, s, lag, n, k) == if lag <= j then Late(c, s, lag, n, k - 1) + c[k - 1] * s[j - lag]
              else Late(c, s, lag, n, k - 1)
  {
    hide ConvUpTo;
    if lag <= n - (k - 1) {
      LastTerm(c, s, n - lag, k);
      assert n - lag - (k - 1) == n - (k - 1) - lag;
    }
  }

  /** The sharpened vector behind the response is the vector behind the sharpened response. */
  lemma {:induction false} SharpeningCommutes(c: seq<real>, h: seq<real>, lag: nat, gain: real, n: nat)
    requires lag > 0 && n < |c| && n < |h|
    ensures Conv(Sharp(c, lag, gain), h, n) == Conv(c, Sharp(h, lag, gain), n)
  {
    hide Sharp, ConvUpTo;
    ShiftVector(c, h, lag, gain, n, n + 1);
    ShiftResponse(c, h, lag, gain, n, n + 1);
    if n < lag {
    } else {
      SharpeningCommutes(c, h, lag, gain, n - lag);
      assert Late(c, Sharp(h, lag, gain), lag, n, n + 1) == Conv(c, Sharp(h, lag, gain), n - lag);
      assert n + 1 - lag == n - lag + 1;
    }
  }

  // ---------- Pulses ----------

  /** One more pulse in the vector adds its echo. */
  lemma {:induction false} PulseAdds(c: seq<real>, h: seq<real>, x: int, d: real, n: nat, k: nat)
    requires |c| == |h| == L_CODE && IsPosition(x) && n < L_CODE && k <= n + 1
    ensures ConvUpTo(c[x := c[x] + d], h, n, k) ==
            ConvUpTo(c, h, n, k) + if x < k then d * Echo(h, x)[n] else 0.0
  {
    hide Echo;
    if k == 0 {
    } else {
      PulseAdds(c, h, x, d, n, k - 1);
      EchoAt(h, x, n);
    }
  }

  lemma PulseHeard(c: seq<real>, h: seq<real>, x: int, d: real, n: nat)
    requires |c| == |h| == L_CODE && IsPosition(x) && n < L_CODE
    ensures Conv(c[x := c[x] + d], h, n) == Conv(c, h, n) + d * Echo(h, x)[n]
  {
    hide Echo, ConvUpTo;
    PulseAdds(c, h, x, d, n, n + 1);
    EchoAt(h, x, n);
  }

  lemma {:induction false} SilentVector(c: seq<real>, h: seq<real>, n: nat, k: nat)
    requires |c| == |h| == L_CODE && n < L_CODE && k <= n + 1 && forall x :: 0 <= x < L_CODE ==> c[x] == 0.0
    ensures ConvUpTo(c, h, n, k) == 0.0
  {
    if k == 0 {
    } else {
      SilentVector(c, h, n, k - 1);
    }
  }
}
