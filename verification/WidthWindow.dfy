/**
  The width decoder's window of qrcode/src/decoder.h and decoder.c: the last sixteen element widths
  in a ring with an 8-bit index, the running six-element sum, and the two sorting helpers.
 */
module WidthWindow {
  import opened Division

  const WINDOW := 16
  const WORD := 0x1_0000_0000

  // ---------- The stream of widths ----------

  /** The width k elements before the newest one; a new scan is preceded by zeros. */
  function Ago(history: seq<nat>, k: nat): nat {
    if k < |history| then history[|history| - 1 - k] else 0
  }

  /** The sum of n consecutive widths, the newest of them `offset` elements back. */
  function SumAgo(history: seq<nat>, offset: nat, n: nat): nat {
    if n == 0 then 0 else SumAgo(history, offset, n - 1) + Ago(history, offset + n - 1)
  }

  lemma AgoShifts(history: seq<nat>, w: nat, k: nat)
    ensures Ago(history + [w], k + 1) == Ago(history, k) && Ago(history + [w], 0) == w
  {}

  lemma {:induction false} SumShifts(history: seq<nat>, w: nat, offset: nat, n: nat)
    ensures SumAgo(history + [w], offset + 1, n) == SumAgo(history, offset, n)
  {
    if n == 0 {
    } else {
      SumShifts(history, w, offset, n - 1);
    }
  }

  lemma {:induction false} SumFromFront(history: seq<nat>, offset: nat, n: nat)
    ensures SumAgo(history, offset, n + 1) == Ago(history, offset) + SumAgo(history, offset + 1, n)
  {
    if n == 0 {
    } else {
      SumFromFront(history, offset, n - 1);
    }
  }

  lemma SumNone(history: seq<nat>, offset: nat)
    ensures SumAgo(history, offset, 0) == 0
  {}

  lemma SumStep(history: seq<nat>, offset: nat, n: nat)
    requires offset + n < WINDOW
    ensures SumAgo(history, offset, n + 1) == SumAgo(history, offset, n) + Ago(history, (offset + n) % WINDOW)
  {}

  /** One step of the sliding sum. */
  lemma SumSlides(history: seq<nat>, w: nat)
    ensures SumAgo(history + [w], 1, 6) == SumAgo(history, 1, 6) - Ago(history + [w], 7) + Ago(history + [w], 1)
  {
    SumShifts(history, w, 0, 6);
    SumFromFront(history, 0, 5);
    AgoShifts(history, w, 6);
    AgoShifts(history, w, 0);
    assert SumAgo(history, 1, 6) == SumAgo(history, 1, 5) + Ago(history, 6);
  }

  lemma WrapAdds(a: int, b: int, c: int)
    requires a % WORD == b % WORD
    ensures (a + c) % WORD == (b + c) % WORD
  {}

  // ---------- The ring ----------

  /** How far back the width in slot j of the ring is, after n widths. */
  function Back(n: nat, j: nat): nat {
    (n - 1 - j) % WINDOW
  }

  ghost predicate Ring(w: seq<nat>, history: seq<nat>) {
    && |w| == WINDOW
    && forall j :: 0 <= j < WINDOW ==> w[j] == Ago(history, Back(|history|, j))
  }

  lemma BackSteps(n: nat, j: nat)
    requires j < WINDOW
    ensures j == n % WINDOW ==> Back(n + 1, j) == 0
    ensures j != n % WINDOW ==> Back(n + 1, j) == Back(n, j) + 1
  {}

  /** Any two numbers of widths that agree modulo the ring size, such as a count and its low byte,
      find the same slot. */
  lemma BackAt(n: nat, idx: nat, offset: nat)
    requires n > 0 && idx == (n - 1) % 256
    ensures 0 <= (idx - offset) % WINDOW < WINDOW && Back(n, (idx - offset) % WINDOW) == offset % WINDOW
  {}

  lemma RingPush(w: seq<nat>, history: seq<nat>, v: nat)
    requires Ring(w, history)
    ensures Ring(w[|history| % WINDOW := v], history + [v])
  {
    hide Back, Ago;
    var n := |history|;
    var next := w[n % WINDOW := v];
    forall j | 0 <= j < WINDOW
      ensures next[j] == Ago(history + [v], Back(n + 1, j))
    {
      BackSteps(n, j);
      AgoShifts(history, v, Back(n, j));
    }
  }

  lemma SlotOf(n: nat)
    ensures (n % 256) % WINDOW == n % WINDOW
  {
    var low := n % 256;
    DivModUnique(n / 256 * 16 + low / WINDOW, low % WINDOW, WINDOW, n);
  }

  // ---------- Orders of like-coloured elements ----------

  /** Narrower first; of equal widths the newer, that is the lower offset, first. */
  predicate Before(history: seq<nat>, a: nat, b: nat) {
    Ago(history, a) < Ago(history, b) || (Ago(history, a) == Ago(history, b) && a < b)
  }

  ghost predicate Sorted(history: seq<nat>, order: seq<nat>) {
    forall k :: 0 < k < |order| ==> Before(history, order[k - 1], order[k])
  }

  predicate Candidate(o: nat, i0: nat, n: nat) {
    i0 <= o < i0 + 2 * n && (o - i0) % 2 == 0
  }

  /** An arrangement of the n offsets i0, i0 + 2, ... with each of them in its place. */
  ghost predicate IsOrder(history: seq<nat>, order: seq<nat>, i0: nat, n: nat) {
    && |order| == n && Sorted(history, order)
    && (forall k :: 0 <= k < n ==> Candidate(order[k], i0, n))
    && (forall o :: Candidate(o, i0, n) ==> o in order)
  }

  lemma {:induction false} SortedBefore(history: seq<nat>, order: seq<nat>, i: nat, j: nat)
    requires Sorted(history, order) && i < j < |order|
    ensures Before(history, order[i], order[j])
  {
    if i + 1 == j {
    } else {
      SortedBefore(history, order, i, j - 1);
    }
    assert Before(history, order[j - 1], order[j]);
  }

  /** There is only one such arrangement. */
  lemma {:induction false} OrderUnique(history: seq<nat>, a: seq<nat>, b: seq<nat>, i0: nat, n: nat)
    requires IsOrder(history, a, i0, n) && IsOrder(history, b, i0, n)
    ensures a == b
  {
    forall k | 0 <= k < n
      ensures a[k] == b[k]
    {
      OrderUniqueUpTo(history, a, b, i0, n, k + 1);
    }
  }

  lemma {:induction false} OrderUniqueUpTo(history: seq<nat>, a: seq<nat>, b: seq<nat>, i0: nat, n: nat, k: nat)
    requires IsOrder(history, a, i0, n) && IsOrder(history, b, i0, n) && k <= n
    ensures forall i :: 0 <= i < k ==> a[i] == b[i]
  {
    if k == 0 {
    } else {
      OrderUniqueUpTo(history, a, b, i0, n, k - 1);
      NextIsLeast(history, a, b, i0, n, k - 1);
      NextIsLeast(history, b, a, i0, n, k - 1);
    }
  }

  lemma NextIsLeast(history: seq<nat>, a: seq<nat>, b: seq<nat>, i0: nat, n: nat, k: nat)
    requires IsOrder(history, a, i0, n) && IsOrder(history, b, i0, n) && k < n
    requires forall i :: 0 <= i < k ==> a[i] == b[i]
    ensures a[k] == b[k] || Before(history, a[k], b[k])
  {
    assert Candidate(b[k], i0, n);
    var i :| 0 <= i < n && a[i] == b[k];
    if i < k {
      SortedBefore(history, b, i, k);
    } else if i > k {
      SortedBefore(history, a, k, i);
    }
  }

  /** The order as one number, four bits an offset, the first in the highest. */
  function Pack(order: seq<nat>): nat {
    if order == [] then 0 else Pack(order[..|order| - 1]) * 16 + order[|order| - 1]
  }

  function Unpack(r: nat, n: nat): seq<nat> {
    if n == 0 then [] else Unpack(r / 16, n - 1) + [r % 16]
  }

  function Pow16(n: nat): nat {
    if n == 0 then 1 else 16 * Pow16(n - 1)
  }

  /** Packing loses nothing and, for at most eight offsets, fits 32 bits. */
  lemma {:induction false} UnpackPack(order: seq<nat>)
    requires forall k :: 0 <= k < |order| ==> order[k] < 16
    ensures Unpack(Pack(order), |order|) == order && Pack(order) < Pow16(|order|)
  {
    if order == [] {
    } else {
      UnpackPack(order[..|order| - 1]);
    }
  }

  lemma {:induction false} Pow16Monotone(m: nat, n: nat)
    requires m <= n
    ensures Pow16(m) <= Pow16(n)
  {
    if m == n {
    } else {
      Pow16Monotone(m, n - 1);
    }
  }

  lemma PackFits(order: seq<nat>)
    requires |order| <= 8 && forall k :: 0 <= k < |order| ==> order[k] < 16
    ensures Pack(order) < WORD
  {
    UnpackPack(order);
    Pow16Monotone(|order|, 8);
    assert Pow16(8) == WORD by {
      assert Pow16(2) == 256 && Pow16(4) == 65536 && Pow16(6) == 0x100_0000;
    }
  }

  lemma PackEmpty()
    ensures Pack([]) == 0
  {}

  lemma PackAppend(order: seq<nat>, o: nat)
    ensures Pack(order + [o]) == Pack(order) * 16 + o
  {
    assert (order + [o])[..|order|] == order;
  }

  /** decode_sort3, on the widths at offsets i0, i0 + 2 and i0 + 4. */
  function Sort3(w0: nat, w2: nat, w4: nat, i0: nat): nat {
    if w0 < w2 then
      if w2 < w4 then i0 * 256 + (i0 + 2) * 16 + (i0 + 4)
      else if w0 < w4 then i0 * 256 + (i0 + 4) * 16 + (i0 + 2)
      else (i0 + 4) * 256 + i0 * 16 + (i0 + 2)
    else if w4 < w2 then (i0 + 4) * 256 + (i0 + 2) * 16 + i0
    else if w0 < w4 then (i0 + 2) * 256 + i0 * 16 + (i0 + 4)
    else (i0 + 2) * 256 + (i0 + 4) * 16 + i0
  }

  /** The ties on which decode_sort3 keeps to the order of decode_sortn. */
  predicate Untied(w0: nat, w2: nat, w4: nat) {
    w0 != w2 && w0 != w4 && (w2 != w4 || w0 > w2)
  }

  lemma Pack3(a: nat, b: nat, c: nat)
    ensures Pack([a, b, c]) == a * 256 + b * 16 + c
  {
    hide Pack;
    assert [] + [a] == [a] && [a] + [b] == [a, b] && [a, b] + [c] == [a, b, c];
    PackAppend([a, b], c);
    PackAppend([a], b);
    PackAppend([], a);
    PackEmpty();
  }

  /** The arrangement that decode_sort3 returns, as a list. */
  function Order3(w0: nat, w2: nat, w4: nat, i0: nat): seq<nat> {
    if w0 < w2 then
      if w2 < w4 then [i0, i0 + 2, i0 + 4] else if w0 < w4 then [i0, i0 + 4, i0 + 2] else [i0 + 4, i0, i0 + 2]
    else if w4 < w2 then [i0 + 4, i0 + 2, i0]
    else if w0 < w4 then [i0 + 2, i0, i0 + 4] else [i0 + 2, i0 + 4, i0]
  }

  lemma Sort3Packs(w0: nat, w2: nat, w4: nat, i0: nat)
    ensures Sort3(w0, w2, w4, i0) == Pack(Order3(w0, w2, w4, i0))
  {
    hide Pack;
    var order := Order3(w0, w2, w4, i0);
    Pack3(order[0], order[1], order[2]);
    assert order == [order[0], order[1], order[2]];
  }

  /** The three offsets in some order. */
  predicate AnyOrder(o: seq<nat>, i0: nat) {
    && |o| == 3 && o[0] != o[1] && o[0] != o[2] && o[1] != o[2]
    && forall k :: 0 <= k < 3 ==> o[k] == i0 || o[k] == i0 + 2 || o[k] == i0 + 4
  }

  lemma Order3Permutes(w0: nat, w2: nat, w4: nat, i0: nat)
    ensures AnyOrder(Order3(w0, w2, w4, i0), i0)
  {}

  /** decode_sort3 always puts the widths in non-decreasing order; it keeps ties in the order of
      their offsets exactly when Untied says so. */
  lemma Sort3Sorts(history: seq<nat>, i0: nat)
    ensures var o := Order3(Ago(history, i0), Ago(history, i0 + 2), Ago(history, i0 + 4), i0);
            && Ago(history, o[0]) <= Ago(history, o[1]) <= Ago(history, o[2])
            && (Sorted(history, o) <==> Untied(Ago(history, i0), Ago(history, i0 + 2), Ago(history, i0 + 4)))
  {
    hide Ago, Sorted;
    SortedOfThree(history, Order3(Ago(history, i0), Ago(history, i0 + 2), Ago(history, i0 + 4), i0));
  }

  lemma SortedOfThree(history: seq<nat>, order: seq<nat>)
    requires |order| == 3
    ensures Sorted(history, order) <==> Before(history, order[0], order[1]) && Before(history, order[1], order[2])
  {}

  lemma Candidates3(i0: nat, o: nat)
    ensures Candidate(o, i0, 3) <==> o == i0 || o == i0 + 2 || o == i0 + 4
  {}

  /** It agrees with the packed order that decode_sortn computes exactly when no two of the widths
      that it compares are tied the wrong way. */
  lemma Sort3Agrees(history: seq<nat>, i0: nat, order: seq<nat>)
    requires i0 + 4 < WINDOW && IsOrder(history, order, i0, 3)
    ensures Sort3(Ago(history, i0), Ago(history, i0 + 2), Ago(history, i0 + 4), i0) == Pack(order) <==>
              Untied(Ago(history, i0), Ago(history, i0 + 2), Ago(history, i0 + 4))
  {
    hide Sort3, Untied, Pack, Ago, Before, Unpack, Order3, Sorted;
    var w0, w2, w4 := Ago(history, i0), Ago(history, i0 + 2), Ago(history, i0 + 4);
    var o := Order3(w0, w2, w4, i0);
    Sort3Packs(w0, w2, w4, i0);
    Order3Permutes(w0, w2, w4, i0);
    Sort3Sorts(history, i0);
    ThreeCover(o, i0);
    UnpackPack(o);
    UnpackPack(order);
    if Sorted(history, o) {
      OrderUnique(history, o, order, i0, 3);
    }
  }

  /** What decode_sort3 returns: the widths at its three offsets do not decrease, and they are the
      order that decode_sortn computes exactly when Untied says so. */
  ghost predicate Sort3Result(history: seq<nat>, i0: nat, r: nat) {
    var o := Unpack(r, 3);
    && r == Pack(o) && AnyOrder(o, i0)
    && Ago(history, o[0]) <= Ago(history, o[1]) <= Ago(history, o[2])
    && forall order :: IsOrder(history, order, i0, 3) ==>
         (r == Pack(order) <==> Untied(Ago(history, i0), Ago(history, i0 + 2), Ago(history, i0 + 4)))
  }

  lemma Sort3Meets(history: seq<nat>, i0: nat)
    requires i0 + 4 < WINDOW
    ensures Sort3Result(history, i0, Sort3(Ago(history, i0), Ago(history, i0 + 2), Ago(history, i0 + 4), i0))
  {
    hide Sort3, Untied, Pack, Ago, Before, Unpack, Order3, Sorted, IsOrder;
    var w0, w2, w4 := Ago(history, i0), Ago(history, i0 + 2), Ago(history, i0 + 4);
    var o := Order3(w0, w2, w4, i0);
    Sort3Packs(w0, w2, w4, i0);
    Order3Permutes(w0, w2, w4, i0);
    Sort3Sorts(history, i0);
    UnpackPack(o);
    forall order | IsOrder(history, order, i0, 3)
      ensures Sort3(w0, w2, w4, i0) == Pack(order) <==> Untied(w0, w2, w4)
    {
      Sort3Agrees(history, i0, order);
    }
  }

  lemma ThreeCover(o: seq<nat>, i0: nat)
    requires AnyOrder(o, i0)
    ensures forall k :: 0 <= k < 3 ==> Candidate(o[k], i0, 3)
    ensures forall c :: Candidate(c, i0, 3) ==> c in o
  {
    hide Candidate;
    forall k | 0 <= k < 3
      ensures Candidate(o[k], i0, 3)
    {
      Candidates3(i0, o[k]);
    }
    forall c: nat | Candidate(c, i0, 3)
      ensures c in o
    {
      Candidates3(i0, c);
      assert o[0] == c || o[1] == c || o[2] == c;
    }
  }

  // ---------- Choosing the least of what is left ----------

  lemma {:induction false} FullCount(mask: set<nat>, n: nat)
    requires forall j :: 0 <= j < n ==> j in mask
    ensures |mask| >= n
  {
    if n == 0 {
    } else {
      FullCount(mask - {n - 1}, n - 1);
    }
  }

  lemma {:induction false} BoundedCount(mask: set<nat>, n: nat)
    requires forall j :: j in mask ==> j < n
    ensures |mask| <= n
    ensures |mask| == n ==> forall j :: 0 <= j < n ==> j in mask
  {
    if n == 0 {
    } else {
      BoundedCount(mask - {n - 1}, n - 1);
    }
  }

  /** The offset of the j-th element. */
  function Nth(i0: nat, j: nat): nat {
    i0 + 2 * j
  }

  function IndexOf(i0: nat, o: nat): int {
    (o - i0) / 2
  }

  lemma NthCandidate(i0: nat, n: nat, j: nat)
    ensures IndexOf(i0, Nth(i0, j)) == j
    ensures j < n ==> Candidate(Nth(i0, j), i0, n)
  {}

  lemma CandidateNth(i0: nat, n: nat, o: nat)
    requires Candidate(o, i0, n)
    ensures 0 <= IndexOf(i0, o) < n && Nth(i0, IndexOf(i0, o)) == o
  {}

  /** The order lists the offsets of the chosen indices. */
  ghost predicate Lists(order: seq<nat>, mask: set<nat>, i0: nat, n: nat) {
    && |mask| == |order|
    && (forall j :: j in mask ==> j < n && Nth(i0, j) in order)
    && (forall k :: 0 <= k < |order| ==> Candidate(order[k], i0, n))
  }

  /** Everything that is left comes after the last one chosen. */
  ghost predicate LeftAfter(history: seq<nat>, order: seq<nat>, mask: set<nat>, i0: nat, n: nat) {
    order != [] ==> forall j :: 0 <= j < n && j !in mask ==> Before(history, order[|order| - 1], Nth(i0, j))
  }

  ghost predicate Least(history: seq<nat>, mask: set<nat>, i0: nat, from: nat, n: nat, jmin: nat) {
    && from <= jmin < n && jmin !in mask
    && forall j :: from <= j < n && j !in mask && j != jmin ==> Before(history, Nth(i0, jmin), Nth(i0, j))
  }

  lemma SelectNext(history: seq<nat>, order: seq<nat>, mask: set<nat>, i0: nat, n: nat, jmin: nat)
    requires LeftAfter(history, order, mask, i0, n) && Sorted(history, order)
    requires Least(history, mask, i0, 0, n, jmin)
    ensures LeftAfter(history, order + [Nth(i0, jmin)], mask + {jmin}, i0, n)
    ensures Sorted(history, order + [Nth(i0, jmin)])
  {
    hide Before, Nth;
  }

  lemma ListNext(order: seq<nat>, mask: set<nat>, i0: nat, n: nat, jmin: nat)
    requires Lists(order, mask, i0, n) && jmin < n && jmin !in mask
    ensures Lists(order + [Nth(i0, jmin)], mask + {jmin}, i0, n)
  {
    hide Candidate, Nth;
    var o := Nth(i0, jmin);
    var next := order + [o];
    NthCandidate(i0, n, jmin);
    forall j | j in mask + {jmin}
      ensures j < n && Nth(i0, j) in next
    {
      if j == jmin {
        assert next[|order|] == o;
      } else {
        assert Nth(i0, j) in order;
      }
    }
  }

  lemma SelectedAll(history: seq<nat>, order: seq<nat>, mask: set<nat>, i0: nat, n: nat)
    requires Sorted(history, order) && Lists(order, mask, i0, n) && |order| == n
    ensures IsOrder(history, order, i0, n)
  {
    hide Candidate, Nth, IndexOf, Sorted;
    BoundedCount(mask, n);
    forall o: nat | Candidate(o, i0, n)
      ensures o in order
    {
      CandidateNth(i0, n, o);
      assert IndexOf(i0, o) in mask;
    }
  }

  // ---------- The decoder object ----------

  class Decoder {
    var idx: nat
    var w: array<nat>
    var s6: nat
    ghost var history: seq<nat>

    /** `current` says that the newest width is being decoded and the index not yet advanced. */
    ghost predicate Valid(current: bool)
      reads this, w
    {
      && Ring(w[..], history)
      && s6 == SumAgo(history, 1, 6) % WORD
      && (forall k :: 0 <= k < |history| ==> history[k] < WORD)
      && (current ==> history != [])
      && idx == (if current then |history| - 1 else |history|) % 256
    }

    constructor ()
      ensures Valid(false) && fresh(w) && history == []
    {
      idx, s6, history := 0, 0, [];
      w := new nat[WINDOW](_ => 0);
      new;
      assert forall j :: 0 <= j < WINDOW ==> w[..][j] == 0;
    }

    /** zbar_decoder_new_scan. */
    method NewScan()
      requires Valid(false)
      modifies this, w
      ensures w == old(w) && history == []
      ensures Valid(false)
    {
      forall j | 0 <= j < w.Length {
        w[j] := 0;
      }
      idx, s6, history := 0, 0, [];
      assert forall j :: 0 <= j < WINDOW ==> w[..][j] == 0;
    }

    /** get_width: for the sixteen offsets that the ring can hold, the width that many elements
        back; a larger offset wraps around. */
    function GetWidth(offset: nat): (r: nat)
      requires Valid(true)
      reads this, w
      ensures r == Ago(history, offset % WINDOW)
    {
      BackAt(|history|, idx, offset);
      assert w[(idx - offset) % WINDOW] == w[..][(idx - offset) % WINDOW];
      w[(idx - offset) % WINDOW]
    }

    /** get_color: a bar or a space by the parity of the widths before this one. */
    function GetColor(): (r: nat)
      requires Valid(true)
      reads this, w
      ensures r == (|history| - 1) % 2
    {
      idx % 2
    }

    /** zbar_decode_width up to the symbology decoders, which see the state this leaves. */
    method Store(width: nat)
      requires Valid(false) && width < WORD
      modifies this, w
      ensures w == old(w) && history == old(history) + [width]
      ensures Valid(true)
    {
      hide Ring, Back, SumAgo, Ago;
      ghost var was, ring := history, w[..];
      RingSize(ring, was);
      SlotOf(|was|);
      RingPush(ring, was, width);
      w[idx % WINDOW] := width;
      history := was + [width];
      assert w[..] == ring[|was| % WINDOW := width];
      SumSlides(was, width);
      var leaving: int := Width(7);
      s6 := (s6 - leaving) % WORD;
      var entering := Width(1);
      s6 := (s6 + entering) % WORD;
      WrapAdds(SumAgo(was, 1, 6) % WORD, SumAgo(was, 1, 6), -leaving);
      WrapAdds((SumAgo(was, 1, 6) - leaving) % WORD, SumAgo(was, 1, 6) - leaving, entering);
    }

    /** get_width while the sum is being updated. */
    method Width(offset: nat) returns (r: nat)
      requires Ring(w[..], history) && history != [] && idx == (|history| - 1) % 256
      ensures r == Ago(history, offset % WINDOW)
    {
      BackAt(|history|, idx, offset);
      r := w[(idx - offset) % WINDOW];
      assert r == w[..][(idx - offset) % WINDOW];
    }

    /** zbar_decode_width after the symbology decoders. */
    method Advance()
      requires Valid(true)
      modifies this`idx
      ensures Valid(false)
    {
      hide Ring, SumAgo;
      NextIndex(|history| - 1);
      idx := (idx + 1) % 256;
    }

    /** calc_s. */
    method CalcS(offset: nat, n: nat) returns (s: nat)
      requires Valid(true) && offset + n <= WINDOW
      ensures s == SumAgo(history, offset, n) % WORD
    {
      hide Ring, SumAgo, Ago;
      s := 0;
      var k := 0;
      SumNone(history, offset);
      while k < n
        invariant k <= n && s == SumAgo(history, offset, k) % WORD
      {
        var width := GetWidth(offset + k);
        SumStep(history, offset, k);
        WrapAdds(SumAgo(history, offset, k) % WORD, SumAgo(history, offset, k), width);
        s := (s + width) % WORD;
        k := k + 1;
      }
    }

    /** decode_sort3. */
    function DecodeSort3(i0: nat): (r: nat)
      requires Valid(true) && i0 + 4 < WINDOW
      reads this, w
      ensures Sort3Result(history, i0, r)
    {
      hide *;
      Sort3Meets(history, i0);
      SmallOffsets3(i0);
      Sort3(GetWidth(i0), GetWidth(i0 + 2), GetWidth(i0 + 4), i0)
    }

    /** decode_sortn: the one order of the n offsets by width, ties by the lower offset. The bit
        mask is the set of its bits. */
    method DecodeSortN(n: nat, i0: nat) returns (sort: nat)
      requires Valid(true) && n <= 8 && i0 + 2 * n <= WINDOW + 1
      ensures IsOrder(history, Unpack(sort, n), i0, n) && sort == Pack(Unpack(sort, n)) < WORD
    {
      hide Ring, Pack, Unpack, Sorted, Before, Lists, LeftAfter;
      sort := 0;
      var mask: set<nat> := {};
      ghost var order: seq<nat> := [];
      NothingSelected(history, i0, n);
      var i := n;
      while i > 0
        invariant 0 <= i <= n && |order| == n - i && |mask| == |order| && sort == Pack(order)
        invariant Sorted(history, order) && Lists(order, mask, i0, n) && LeftAfter(history, order, mask, i0, n)
      {
        i := i - 1;
        var jmin := LeastLeft(n, i0, mask);
        PackAppend(order, Nth(i0, jmin));
        SelectNext(history, order, mask, i0, n, jmin);
        ListNext(order, mask, i0, n, jmin);
        sort := sort * 16 + (i0 + jmin * 2);
        mask := mask + {jmin};
        order := order + [Nth(i0, jmin)];
      }
      SelectedAll(history, order, mask, i0, n);
      UnpackPack(order);
      PackFits(order);
    }

    /** The inner loop of decode_sortn; jmin is always found. */
    method LeastLeft(n: nat, i0: nat, mask: set<nat>) returns (jmin: int)
      requires Valid(true) && i0 + 2 * n <= WINDOW + 1 && |mask| < n
      ensures jmin >= 0 && Least(history, mask, i0, 0, n, jmin)
    {
      hide Ring, Ago, Before, Least, SumAgo;
      var wmin := WORD - 1;
      jmin := -1;
      var j := n;
      while j > 0
        invariant 0 <= j <= n
        invariant jmin < 0 ==> wmin == WORD - 1 && forall k :: j <= k < n ==> k in mask
        invariant jmin >= 0 ==> Least(history, mask, i0, j, n, jmin) && wmin == Ago(history, Nth(i0, jmin))
      {
        j := j - 1;
        if j in mask {
          if jmin >= 0 {
            LeastSkips(history, mask, i0, j, n, jmin);
          }
        } else {
          var width := GetWidth(i0 + j * 2);
          SmallOffset(i0, n, j);
          WidthFits(history, i0 + j * 2);
          if jmin >= 0 {
            LeastChanges(history, mask, i0, j, n, jmin);
          } else {
            LeastStarts(history, mask, i0, j, n);
          }
          if wmin >= width {
            wmin := width;
            jmin := j;
          }
        }
      }
      if jmin < 0 {
        FullCount(mask, n);
        assert false;
      }
    }
  }

  lemma SmallOffsets3(i0: nat)
    requires i0 + 4 < WINDOW
    ensures i0 % WINDOW == i0 && (i0 + 2) % WINDOW == i0 + 2 && (i0 + 4) % WINDOW == i0 + 4
  {}

  lemma SmallOffset(i0: nat, n: nat, j: nat)
    requires i0 + 2 * n <= WINDOW + 1 && j < n
    ensures (i0 + j * 2) % WINDOW == Nth(i0, j) == i0 + j * 2
  {}

  lemma LeastSkips(history: seq<nat>, mask: set<nat>, i0: nat, j: nat, n: nat, jmin: nat)
    requires Least(history, mask, i0, j + 1, n, jmin) && j in mask
    ensures Least(history, mask, i0, j, n, jmin)
  {}

  lemma LeastStarts(history: seq<nat>, mask: set<nat>, i0: nat, j: nat, n: nat)
    requires j < n && j !in mask && forall k :: j + 1 <= k < n ==> k in mask
    ensures Least(history, mask, i0, j, n, j)
  {}

  lemma BeforeChains(history: seq<nat>, a: nat, b: nat, c: nat)
    requires Before(history, a, b) && Before(history, b, c)
    ensures Before(history, a, c)
  {}

  lemma BeforeEither(history: seq<nat>, i0: nat, j: nat, k: nat)
    requires j < k
    ensures Before(history, Nth(i0, j), Nth(i0, k)) <==> Ago(history, Nth(i0, k)) >= Ago(history, Nth(i0, j))
    ensures Before(history, Nth(i0, k), Nth(i0, j)) <==> Ago(history, Nth(i0, k)) < Ago(history, Nth(i0, j))
  {}

  /** A newer element takes over unless it is strictly wider. */
  lemma LeastChanges(history: seq<nat>, mask: set<nat>, i0: nat, j: nat, n: nat, jmin: nat)
    requires Least(history, mask, i0, j + 1, n, jmin) && j !in mask
    ensures Ago(history, Nth(i0, jmin)) >= Ago(history, Nth(i0, j)) ==> Least(history, mask, i0, j, n, j)
    ensures Ago(history, Nth(i0, jmin)) < Ago(history, Nth(i0, j)) ==> Least(history, mask, i0, j, n, jmin)
  {
    hide Before, Nth, Ago;
    BeforeEither(history, i0, j, jmin);
    if Ago(history, Nth(i0, jmin)) >= Ago(history, Nth(i0, j)) {
      forall k | j <= k < n && k !in mask && k != j
        ensures Before(history, Nth(i0, j), Nth(i0, k))
      {
        if k != jmin {
          BeforeChains(history, Nth(i0, j), Nth(i0, jmin), Nth(i0, k));
        }
      }
    }
  }

  lemma RingSize(w: seq<nat>, history: seq<nat>)
    requires Ring(w, history)
    ensures |w| == WINDOW
  {}

  lemma NextIndex(n: nat)
    ensures (n % 256 + 1) % 256 == (n + 1) % 256
  {}

  lemma WidthFits(history: seq<nat>, k: nat)
    requires forall i :: 0 <= i < |history| ==> history[i] < WORD
    ensures Ago(history, k) < WORD
  {}

  lemma NothingSelected(history: seq<nat>, i0: nat, n: nat)
    ensures Sorted(history, []) && Lists([], {}, i0, n) && LeftAfter(history, [], {}, i0, n) && Pack([]) == 0
  {}
}
