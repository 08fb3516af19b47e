/**
  The symbol allocator of qrcode/src/img_scanner.c: symbols that are no longer needed wait in five
  buckets by the size of their buffers.
 */
module SymbolPool {
  import opened Sequences
  import opened Symbols

  const RECYCLE_BUCKETS := 5

  datatype Bucket = Bucket(nsyms: nat, head: Symbol?)

  // ---------- Sizes ----------

  /** 1 << (i * 2). */
  function Size(i: nat): nat {
    if i == 0 then 1 else 4 * Size(i - 1)
  }

  lemma Sizes()
    ensures Size(0) == 1 && Size(1) == 4 && Size(2) == 16 && Size(3) == 64 && Size(4) == 256
  {}

  /** The buffers that belong in bucket i: those of at least 4^(i - 1) and less than 4^i bytes, and
      in bucket 0 none at all. */
  predicate InBand(alloc: nat, i: nat) {
    i < RECYCLE_BUCKETS && alloc < Size(i) && (i > 0 ==> alloc >= Size(i - 1))
  }

  lemma BandUnique(alloc: nat, i: nat, j: nat)
    requires InBand(alloc, i) && InBand(alloc, j)
    ensures i == j
  {
    Sizes();
  }

  lemma NoBuffer()
    ensures InBand(0, 0)
  {}

  lemma {:induction false} SizeGrows(i: nat, j: nat)
    requires i <= j
    ensures Size(i) <= Size(j)
  {
    if i == j {
    } else {
      SizeGrows(i, j - 1);
    }
  }

  // ---------- What a recycled list gives up ----------

  /** The symbols that nothing but these lists refers to: a symbol that is still referenced keeps
      its components. */
  ghost function Freed(f: Forest): set<Symbol>
    reads Nodes(f)`refcnt
    decreases f, 1
  {
    if f.Nil? then {} else FreedWith(f) + Freed(f.rest)
  }

  /** What goes when the first symbol goes. */
  ghost function FreedWith(f: Forest): set<Symbol>
    requires f.Cons?
    reads Nodes(f)`refcnt
    decreases f, 0
  {
    if f.sym.refcnt > 1 then {} else {f.sym} + Freed(f.parts)
  }

  /** The symbols that are unlinked, because something else refers to them. */
  ghost function Kept(f: Forest): set<Symbol>
    reads Nodes(f)`refcnt
    decreases f, 1
  {
    if f.Nil? then {} else KeptWith(f) + Kept(f.rest)
  }

  ghost function KeptWith(f: Forest): set<Symbol>
    requires f.Cons?
    reads Nodes(f)`refcnt
    decreases f, 0
  {
    if f.sym.refcnt > 1 then {f.sym} else Kept(f.parts)
  }

  lemma {:induction false} FreedNodes(f: Forest)
    ensures Freed(f) <= Nodes(f) && Kept(f) <= Nodes(f)
  {
    if f.Nil? {
    } else {
      FreedNodes(f.parts);
      FreedNodes(f.rest);
    }
  }

  /** What is unlinked is referenced from elsewhere. */
  lemma {:induction false} KeptReferenced(f: Forest)
    ensures forall s :: s in Kept(f) ==> s.refcnt > 1
  {
    if f.Nil? {
    } else {
      KeptReferenced(f.parts);
      KeptReferenced(f.rest);
    }
  }

  /** A list taken apart: its first symbol, the components of that, and the rest. */
  lemma Apart(f: Forest)
    requires f.Cons? && WellLinked(f)
    ensures Nodes(f) == {f.sym} + Nodes(f.parts) + Nodes(f.rest)
    ensures f.sym !in Nodes(f.parts) && f.sym !in Nodes(f.rest) && Nodes(f.parts) !! Nodes(f.rest)
    ensures WellLinked(f.parts) && WellLinked(f.rest) && Separate(f)
    ensures f.sym.next == At(Roots(f.rest), 0) && f.sym.parts == At(Roots(f.parts), 0)
    ensures if f.sym.composite then f.sym.partsRefs == 1 else f.parts.Nil?
    ensures (f.sym.refcnt > 1 ==> f.sym.dataAlloc > 0) && (f.sym.dataAlloc > 0 ==> f.sym.hasData)
    ensures FreedWith(f) == if f.sym.refcnt > 1 then {} else {f.sym} + Freed(f.parts)
    ensures KeptWith(f) == if f.sym.refcnt > 1 then {f.sym} else Kept(f.parts)
    ensures Freed(f) == FreedWith(f) + Freed(f.rest) && Kept(f) == KeptWith(f) + Kept(f.rest)
    ensures FreedWith(f) <= {f.sym} + Nodes(f.parts) && Freed(f.parts) <= Nodes(f.parts)
    ensures KeptWith(f) <= {f.sym} + Nodes(f.parts) && Kept(f.parts) <= Nodes(f.parts)
  {
    hide *;
    ApartNodes(f);
    ApartLinks(f);
    ApartFreed(f);
  }

  lemma ApartNodes(f: Forest)
    requires f.Cons? && WellLinked(f)
    ensures Nodes(f) == {f.sym} + Nodes(f.parts) + Nodes(f.rest)
    ensures f.sym !in Nodes(f.parts) && f.sym !in Nodes(f.rest) && Nodes(f.parts) !! Nodes(f.rest) && Separate(f)
    ensures (f.sym.refcnt > 1 ==> f.sym.dataAlloc > 0) && (f.sym.dataAlloc > 0 ==> f.sym.hasData)
  {
    hide Shape, Linked;
  }

  lemma ApartLinks(f: Forest)
    requires f.Cons? && WellLinked(f)
    ensures WellLinked(f.parts) && WellLinked(f.rest)
    ensures f.sym.next == At(Roots(f.rest), 0) && f.sym.parts == At(Roots(f.parts), 0)
    ensures if f.sym.composite then f.sym.partsRefs == 1 else f.parts.Nil?
  {
    hide Linked, At;
    assert Owned(Nodes(f.parts)) && Owned(Nodes(f.rest));
    LinkedTail(Roots(f));
    assert Roots(f)[1..] == Roots(f.rest) && Roots(f)[0] == f.sym;
  }

  lemma ApartFreed(f: Forest)
    requires f.Cons?
    ensures FreedWith(f) == if f.sym.refcnt > 1 then {} else {f.sym} + Freed(f.parts)
    ensures KeptWith(f) == if f.sym.refcnt > 1 then {f.sym} else Kept(f.parts)
    ensures Freed(f) == FreedWith(f) + Freed(f.rest) && Kept(f) == KeptWith(f) + Kept(f.rest)
    ensures FreedWith(f) <= {f.sym} + Nodes(f.parts) && Freed(f.parts) <= Nodes(f.parts)
    ensures KeptWith(f) <= {f.sym} + Nodes(f.parts) && Kept(f.parts) <= Nodes(f.parts)
  {
    hide Nodes;
    FreedNodes(f.parts);
  }

  lemma HeadOf(f: Forest)
    ensures At(Roots(f), 0) == if f.Nil? then null else f.sym
    ensures f.Nil? ==> Freed(f) == {} && Kept(f) == {} && Nodes(f) == {} && Roots(f) == []
  {}

  lemma UnionAssociates(a: set<Symbol>, b: set<Symbol>, c: set<Symbol>)
    ensures a + (b + c) == (a + b) + c && a + {} == a
  {}

  // ---------- Buckets ----------

  /** `home` tells for each pooled symbol the one bucket that it is in. */
  ghost predicate Shelved(lists: seq<seq<Symbol>>, home: map<Symbol, nat>) {
    && |lists| == RECYCLE_BUCKETS
    && (forall b :: 0 <= b < RECYCLE_BUCKETS ==> Listed(lists[b], b, home))
    && (forall s :: s in home ==> home[s] < RECYCLE_BUCKETS)
  }

  /** Bucket b lists its symbols, each once. */
  ghost predicate Listed(list: seq<Symbol>, b: nat, home: map<Symbol, nat>) {
    && Distinct(list)
    && (forall s :: s in list ==> s in home && home[s] == b)
    && (forall s :: s in home && home[s] == b ==> s in list)
  }

  /** Each bucket counts its symbols and points to the first of their chain. */
  ghost predicate Chained(buckets: seq<Bucket>, lists: seq<seq<Symbol>>, pooled: set<Symbol>)
    reads pooled`next
  {
    && |buckets| == |lists| == RECYCLE_BUCKETS
    && forall b :: 0 <= b < RECYCLE_BUCKETS ==>
         && buckets[b] == Bucket(|lists[b]|, At(lists[b], 0))
         && (forall s :: s in lists[b] ==> s in pooled) && Linked(lists[b])
  }

  /** A pooled symbol lies in the band of its bucket, has a buffer unless that is bucket 0, and is
      referenced by nothing and refers to nothing. */
  ghost predicate AtRest(home: map<Symbol, nat>)
    reads home.Keys
  {
    forall s :: s in home ==> InBand(s.dataAlloc, home[s]) && Idle(s)
  }

  ghost predicate Idle(s: Symbol)
    reads s
  {
    s.hasData == (s.dataAlloc > 0) && !s.composite && s.parts == null && s.refcnt == 0
  }

  lemma Shelve(buckets: seq<Bucket>, lists: seq<seq<Symbol>>, home: map<Symbol, nat>, sym: Symbol, b: nat)
    requires Shelved(lists, home) && Chained(buckets, lists, home.Keys) && sym !in home && b < RECYCLE_BUCKETS
    requires sym.next == buckets[b].head
    ensures var lists' := lists[b := [sym] + lists[b]];
            && Shelved(lists', home[sym := b])
            && Chained(buckets[b := Bucket(buckets[b].nsyms + 1, sym)], lists', home[sym := b].Keys)
  {
    assert Listed(lists[b], b, home);
    LinkedFront(sym, lists[b]);
    var list, home' := [sym] + lists[b], home[sym := b];
    assert Listed(list, b, home') by {
      forall s | s in home' && home'[s] == b
        ensures s in list
      {
        assert s == sym || s in lists[b];
      }
      DistinctInsert(lists[b], 0, sym);
      assert Inserted(lists[b], 0, sym) == list;
    }
    forall c | 0 <= c < RECYCLE_BUCKETS && c != b
      ensures Listed(lists[c], c, home')
    {
      assert Listed(lists[c], c, home);
    }
  }

  lemma Unshelve(buckets: seq<Bucket>, lists: seq<seq<Symbol>>, home: map<Symbol, nat>, b: nat)
    requires Shelved(lists, home) && Chained(buckets, lists, home.Keys) && b < RECYCLE_BUCKETS
    requires buckets[b].head != null
    ensures var sym, lists' := buckets[b].head, lists[b := lists[b][1..]];
            && sym in home && home[sym] == b && buckets[b].nsyms > 0 && lists[b] != []
            && Shelved(lists', home - {sym})
            && Chained(buckets[b := Bucket(buckets[b].nsyms - 1, sym.next)], lists', home.Keys - {sym})
            && (home - {sym}).Keys == home.Keys - {sym}
  {
    var sym, list := buckets[b].head, lists[b][1..];
    assert Listed(lists[b], b, home);
    LinkedTail(lists[b]);
    assert lists[b] == [sym] + list;
    var home' := home - {sym};
    assert Listed(list, b, home') by {
      forall s | s in home' && home'[s] == b
        ensures s in list
      {
        assert s in lists[b];
      }
    }
    forall c | 0 <= c < RECYCLE_BUCKETS && c != b
      ensures Listed(lists[c], c, home') && sym !in lists[c]
    {
      assert Listed(lists[c], c, home);
    }
  }

  // ---------- Coming back ----------

  /** Between two states of the pool, exactly the symbols `got` have come back from outside; what
      was pooled stays where it is. */
  ghost predicate GotBack(home: map<Symbol, nat>, outside: set<Symbol>,
                          wasHome: map<Symbol, nat>, wasOutside: set<Symbol>, got: set<Symbol>)
  {
    && home.Keys == wasHome.Keys + got && outside == wasOutside - got
    && forall s :: s in wasHome ==> s in home && home[s] == wasHome[s]
  }

  lemma GotNothing(home: map<Symbol, nat>, outside: set<Symbol>)
    ensures GotBack(home, outside, home, outside, {})
  {}

  lemma GotMore(h0: map<Symbol, nat>, o0: set<Symbol>, h1: map<Symbol, nat>, o1: set<Symbol>,
                h2: map<Symbol, nat>, o2: set<Symbol>, a: set<Symbol>, b: set<Symbol>)
    requires GotBack(h1, o1, h0, o0, a) && GotBack(h2, o2, h1, o1, b)
    ensures GotBack(h2, o2, h0, o0, a + b)
  {}

  lemma GotOne(home: map<Symbol, nat>, outside: set<Symbol>, sym: Symbol, i: nat)
    requires home.Keys !! outside && sym in outside
    ensures GotBack(home[sym := i], outside - {sym}, home, outside, {sym})
    ensures home[sym := i].Keys !! (outside - {sym})
  {}

  lemma NowIdle(s: Symbol)
    requires s.hasData == (s.dataAlloc > 0) && !s.composite && s.parts == null && s.refcnt == 0
    ensures Idle(s)
  {}

  lemma RestOne(home: map<Symbol, nat>, sym: Symbol, i: nat)
    requires AtRest(home) && InBand(sym.dataAlloc, i) && Idle(sym)
    ensures AtRest(home[sym := i])
  {}

  lemma RestLess(home: map<Symbol, nat>, sym: Symbol)
    requires AtRest(home) && sym in home
    ensures AtRest(home - {sym}) && Idle(sym)
  {}

  lemma StillOutside(h0: map<Symbol, nat>, o0: set<Symbol>, h1: map<Symbol, nat>, o1: set<Symbol>,
                     got: set<Symbol>, nodes: set<Symbol>)
    requires GotBack(h1, o1, h0, o0, got) && nodes <= o0 && nodes !! got
    ensures nodes <= o1
  {}

  /** The reference counts of these symbols are as noted. */
  ghost predicate Counts(nodes: set<Symbol>, refs: map<Symbol, nat>)
    reads nodes`refcnt
  {
    nodes <= refs.Keys && forall s :: s in nodes ==> s.refcnt == refs[s]
  }

  /** Symbols that were unlinked have one reference less than noted, and no next symbol. */
  ghost predicate Unlinked(kept: set<Symbol>, refs: map<Symbol, nat>)
    reads kept`refcnt, kept`next
  {
    kept <= refs.Keys && forall s :: s in kept ==> s.refcnt + 1 == refs[s] && s.next == null
  }

  lemma CountsOf(nodes: set<Symbol>, some: set<Symbol>, refs: map<Symbol, nat>)
    requires Counts(nodes, refs) && some <= nodes
    ensures Counts(some, refs)
  {}

  lemma CountsJoin(a: set<Symbol>, b: set<Symbol>, c: set<Symbol>, refs: map<Symbol, nat>)
    requires Counts(a, refs) && Counts(b, refs) && c <= a + b
    ensures Counts(c, refs)
  {}

  lemma UnlinkedJoin(a: set<Symbol>, b: set<Symbol>, refs: map<Symbol, nat>)
    ensures Unlinked({}, refs)
    ensures Unlinked(a, refs) && Unlinked(b, refs) ==> Unlinked(a + b, refs)
  {}

  /** How far a list has been recycled: its symbols are still ahead, freed, kept, or left alone as
      components of a kept one. */
  ghost predicate Progress(all: set<Symbol>, ahead: set<Symbol>, done: set<Symbol>, kept: set<Symbol>,
                           rest: set<Symbol>) {
    && ahead <= all && kept <= all && rest <= all && kept !! ahead && rest !! ahead
    && all <= ahead + done + kept + rest
  }

  lemma ProgressStep(all: set<Symbol>, f: Forest, done: set<Symbol>, kept: set<Symbol>, rest: set<Symbol>,
                     gone: set<Symbol>, stays: set<Symbol>)
    requires f.Cons? && Progress(all, Nodes(f), done, kept, rest) && Separate(f)
    requires gone <= {f.sym} + Nodes(f.parts) && stays <= {f.sym} + Nodes(f.parts)
    ensures Progress(all, Nodes(f.rest), done + gone, kept + stays, rest + ({f.sym} + Nodes(f.parts) - gone - stays))
    ensures f.sym in all && Nodes(f.parts) <= all && f.sym !in kept && f.sym !in rest
    ensures Nodes(f.parts) !! kept && Nodes(f.parts) !! rest
  {}

  lemma ProgressEnd(all: set<Symbol>, ahead: set<Symbol>, done: set<Symbol>, kept: set<Symbol>, rest: set<Symbol>)
    requires Progress(all, ahead, done, kept, rest) && ahead == {}
    ensures all - done - kept <= rest
  {}

  lemma NoneLeft(a: set<Symbol>, b: set<Symbol>)
    ensures {} - a - b == {}
  {}

  lemma RecycleStart(f: Forest, refs: map<Symbol, nat>, home: map<Symbol, nat>, outside: set<Symbol>)
    requires Counts(Nodes(f), refs)
    ensures GotBack(home, outside, home, outside, {}) && Progress(Nodes(f), Nodes(f), {}, {}, {})
    ensures Unlinked({}, refs) && Counts({}, refs)
    ensures Freed(f) == {} + Freed(f) && Kept(f) == {} + Kept(f)
  {}

  lemma BandSmall(alloc: nat, i: nat)
    requires InBand(alloc, i)
    ensures i < RECYCLE_BUCKETS
  {}

  // ---------- The pool object ----------

  class Pool {
    const recycle: array<Bucket>
    /** The chains of the buckets, the bucket that each pooled symbol is in, and the symbols that the
        pool has handed out and not got back. */
    ghost var lists: seq<seq<Symbol>>
    ghost var home: map<Symbol, nat>
    ghost var outside: set<Symbol>

    ghost predicate Valid()
      reads this, recycle, home.Keys
    {
      && Shelved(lists, home) && Chained(recycle[..], lists, home.Keys) && AtRest(home)
      && home.Keys !! outside
    }

    constructor ()
      ensures Valid() && fresh(recycle) && home == map[] && outside == {}
    {
      recycle := new Bucket[RECYCLE_BUCKETS](_ => Bucket(0, null));
      lists, home, outside := [[], [], [], [], []], map[], {};
      new;
      assert forall b :: 0 <= b < RECYCLE_BUCKETS ==> recycle[..][b] == Bucket(0, null) && lists[b] == [];
    }

    /** The bucket for a buffer of this size; RECYCLE_BUCKETS when it is too large for any. */
    method BucketFor(alloc: nat) returns (i: nat)
      ensures i <= RECYCLE_BUCKETS
      ensures i < RECYCLE_BUCKETS ==> InBand(alloc, i)
      ensures i == RECYCLE_BUCKETS ==> alloc >= Size(RECYCLE_BUCKETS - 1)
    {
      i := 0;
      while i < RECYCLE_BUCKETS && alloc >= Size(i)
        invariant i <= RECYCLE_BUCKETS && (i > 0 ==> alloc >= Size(i - 1))
      {
        i := i + 1;
      }
    }

    /** The end of the loop body of _zbar_image_scanner_recycle_syms: a symbol with a buffer of 256
        bytes or more loses it and goes to bucket 0. */
    method Put(sym: Symbol)
      requires Valid() && sym in outside && Idle(sym)
      modifies this, recycle, sym`hasData, sym`dataAlloc, sym`next
      ensures GotBack(home, outside, old(home), old(outside), {sym})
      ensures sym.dataAlloc == if old(sym.dataAlloc) >= Size(RECYCLE_BUCKETS - 1) then 0 else old(sym.dataAlloc)
      ensures Valid()
    {
      hide Shelved, Chained, InBand, AtRest, GotBack;
      ghost var was, without, shelf := home, outside, recycle[..];
      ShelfSize(shelf, lists, was);
      var i := BucketFor(sym.dataAlloc);
      if i == RECYCLE_BUCKETS {
        assert sym.hasData;
        sym.hasData := false;
        sym.dataAlloc := 0;
        i := 0;
        NoBuffer();
      }
      Push(sym, i);
    }

    method Push(sym: Symbol, i: nat)
      requires Valid() && sym in outside && Idle(sym) && InBand(sym.dataAlloc, i)
      modifies this, recycle, sym`next
      ensures GotBack(home, outside, old(home), old(outside), {sym})
      ensures Valid()
    {
      hide Shelved, Chained, InBand, AtRest, GotBack;
      ghost var was, without, shelf := home, outside, recycle[..];
      ShelfSize(shelf, lists, was);
      BandSmall(sym.dataAlloc, i);
      sym.next := recycle[i].head;
      Shelve(shelf, lists, was, sym, i);
      RestOne(was, sym, i);
      GotOne(was, without, sym, i);
      recycle[i] := Bucket(recycle[i].nsyms + 1, sym);
      lists := lists[i := [sym] + lists[i]];
      home := was[sym := i];
      outside := outside - {sym};
      assert recycle[..] == shelf[i := Bucket(shelf[i].nsyms + 1, sym)];
    }

    /** _zbar_image_scanner_recycle_syms: exactly the symbols that nothing else refers to enter the
        pool, each into one bucket. The others stay outside: each symbol that is still referenced
        is unlinked and has one reference less, and its components keep theirs. `refs` notes the
        reference counts on entry. */
    method RecycleSyms(head: Symbol?, ghost f: Forest, ghost refs: map<Symbol, nat>)
      requires Valid() && head == At(Roots(f), 0) && WellLinked(f) && Nodes(f) <= outside && Counts(Nodes(f), refs)
      modifies this, recycle, Nodes(f)
      ensures GotBack(home, outside, old(home), old(outside), old(Freed(f)))
      ensures Unlinked(old(Kept(f)), refs) && Counts(Nodes(f) - old(Freed(f)) - old(Kept(f)), refs)
      ensures Valid()
      decreases f, 1
    {
      hide *;
      ghost var g := f;
      ghost var done: set<Symbol>, kept: set<Symbol>, rest: set<Symbol> := {}, {}, {};
      var sym := head;
      RecycleStart(f, refs, home, outside);
      while sym != null
        invariant sym == At(Roots(g), 0) && WellLinked(g) && (g == f || g < f)
        invariant Nodes(g) <= Nodes(f) && Nodes(g) <= outside && Counts(Nodes(g), refs)
        invariant Progress(Nodes(f), Nodes(g), done, kept, rest)
        invariant old(Freed(f)) == done + Freed(g) && old(Kept(f)) == kept + Kept(g)
        invariant GotBack(home, outside, old(home), old(outside), done)
        invariant Unlinked(kept, refs) && Counts(rest, refs)
        invariant Valid()
        decreases g
      {
        HeadOf(g);
        ghost var gone, stays := FreedWith(g), KeptWith(g);
        UnionAssociates(done, gone, Freed(g.rest));
        UnionAssociates(kept, stays, Kept(g.rest));
        Apart(g);
        sym := Advance(sym, g, refs, Nodes(f), done, kept, rest, old(home), old(outside));
        done, kept, rest := done + gone, kept + stays, rest + ({g.sym} + Nodes(g.parts) - gone - stays);
        g := g.rest;
      }
      HeadOf(g);
      UnionAssociates(done, {}, {});
      UnionAssociates(kept, {}, {});
      ProgressEnd(Nodes(f), Nodes(g), done, kept, rest);
      CountsOf(rest, Nodes(f) - done - kept, refs);
    }

    /** One turn of the loop, on the first symbol of what is ahead. */
    method Advance(sym: Symbol, ghost g: Forest, ghost refs: map<Symbol, nat>, ghost all: set<Symbol>,
                   ghost done: set<Symbol>, ghost kept: set<Symbol>, ghost rest: set<Symbol>,
                   ghost home0: map<Symbol, nat>, ghost outside0: set<Symbol>) returns (next: Symbol?)
      requires Valid() && g.Cons? && sym == g.sym && WellLinked(g) && Nodes(g) <= outside && Counts(Nodes(g), refs)
      requires Progress(all, Nodes(g), done, kept, rest) && GotBack(home, outside, home0, outside0, done)
      requires Unlinked(kept, refs) && Counts(rest, refs)
      modifies this, recycle, sym, Nodes(g.parts)
      ensures next == At(Roots(g.rest), 0) && WellLinked(g.rest) && Nodes(g.rest) <= outside
      ensures Counts(Nodes(g.rest), refs)
      ensures Freed(g.rest) == old(Freed(g.rest)) && Kept(g.rest) == old(Kept(g.rest))
      ensures Progress(all, Nodes(g.rest), done + old(FreedWith(g)), kept + old(KeptWith(g)),
                       rest + ({g.sym} + Nodes(g.parts) - old(FreedWith(g)) - old(KeptWith(g))))
      ensures GotBack(home, outside, home0, outside0, done + old(FreedWith(g)))
      ensures Unlinked(kept + old(KeptWith(g)), refs)
      ensures Counts(rest + ({g.sym} + Nodes(g.parts) - old(FreedWith(g)) - old(KeptWith(g))), refs)
      ensures Valid()
      decreases g, 0, 2
    {
      hide *;
      Apart(g);
      next := sym.next;
      ghost var before, without := home, outside;
      ghost var gone, stays := FreedWith(g), KeptWith(g);
      ghost var others := {sym} + Nodes(g.parts) - gone - stays;
      CountsOf(Nodes(g), {sym} + Nodes(g.parts), refs);
      CountsOf(Nodes(g), Nodes(g.rest), refs);
      ProgressStep(all, g, done, kept, rest, gone, stays);
      RecycleOne(sym, g, refs);
      GotMore(home0, outside0, before, without, home, outside, done, gone);
      StillOutside(before, without, home, outside, gone, Nodes(g.rest));
      UnlinkedJoin(kept, stays, refs);
      CountsJoin(rest, others, rest + others, refs);
    }

    /** The loop body of _zbar_image_scanner_recycle_syms. */
    method RecycleOne(sym: Symbol, ghost f: Forest, ghost refs: map<Symbol, nat>)
      requires Valid() && f.Cons? && sym == f.sym && WellLinked(f) && Nodes(f) <= outside
      requires Counts({sym} + Nodes(f.parts), refs)
      modifies this, recycle, sym, Nodes(f.parts)
      ensures GotBack(home, outside, old(home), old(outside), old(FreedWith(f)))
      ensures Unlinked(old(KeptWith(f)), refs)
      ensures Counts({sym} + Nodes(f.parts) - old(FreedWith(f)) - old(KeptWith(f)), refs)
      ensures Valid()
      decreases f, 0, 1
    {
      hide Valid, Nodes, Freed, FreedWith, Kept, KeptWith, WellLinked, Roots, GotBack, At;
      Apart(f);
      Outside(f);
      GotNothing(home, outside);
      if sym.refcnt > 0 {
        sym.refcnt := sym.refcnt - 1;
        if sym.refcnt > 0 {
          assert sym.dataAlloc > 0;
          sym.next := null;
          return;
        }
      }
      Release(sym, f, refs);
    }

    /** The else branch: the components first, then the symbol itself. */
    method Release(sym: Symbol, ghost f: Forest, ghost refs: map<Symbol, nat>)
      requires Valid() && f.Cons? && sym == f.sym && sym.refcnt == 0 && sym in outside && Nodes(f.parts) <= outside
      requires WellLinked(f.parts) && sym !in Nodes(f.parts) && sym.parts == At(Roots(f.parts), 0)
      requires (if sym.composite then sym.partsRefs == 1 else f.parts.Nil?) && (sym.dataAlloc > 0 ==> sym.hasData)
      requires Counts(Nodes(f.parts), refs)
      modifies this, recycle, sym, Nodes(f.parts)
      ensures GotBack(home, outside, old(home), old(outside), {sym} + old(Freed(f.parts)))
      ensures Unlinked(old(Kept(f.parts)), refs)
      ensures Counts(Nodes(f.parts) - old(Freed(f.parts)) - old(Kept(f.parts)), refs)
      ensures Valid()
      decreases f, 0, 0
    {
      hide *;
      NotPooled(sym);
      FreedNodes(f.parts);
      GotNothing(home, outside);
      if sym.dataAlloc == 0 {
        sym.hasData := false;
        sym.datalen := 0;
      }
      HeadOf(f.parts);
      CountsOf(Nodes(f.parts), {}, refs);
      UnlinkedJoin({}, {}, refs);
      ghost var gone := Freed(f.parts);
      NoneLeft(Freed(f.parts), Kept(f.parts));
      if sym.composite {
        sym.partsRefs := sym.partsRefs - 1;
        assert sym.partsRefs == 0;
        RecycleSyms(sym.parts, f.parts, refs);
        StillOutside(old(home), old(outside), home, outside, gone, {sym});
        NotPooled(sym);
        sym.parts := null;
        sym.composite := false;
      }
      ghost var before, without := home, outside;
      NowIdle(sym);
      Put(sym);
      GotMore(old(home), old(outside), before, without, home, outside, gone, {sym});
      assert gone + {sym} == {sym} + gone;
    }

    /** Nothing outside is pooled. */
    lemma NotPooled(sym: Symbol)
      requires Valid() && sym in outside
      ensures sym !in home
    {}

    lemma Outside(f: Forest)
      requires Valid() && f.Cons? && Nodes(f) <= outside
      ensures f.sym !in home && f.sym in outside && Nodes(f.parts) <= outside
    {}

    /** _zbar_image_scanner_alloc_sym: the largest bucket that is not empty, from the one for the
        wanted size down to bucket 1, gives up its first symbol; otherwise a new one is made. */
    method AllocSym(symType: int, datalen: int, time: int) returns (sym: Symbol)
      requires Valid()
      modifies this, recycle, home.Keys
      ensures Valid() && outside == old(outside) + {sym} && sym !in old(outside)
      ensures home == old(home) - {sym} && (sym !in old(home) ==> fresh(sym))
      ensures if sym in old(home) then
                1 <= old(home)[sym] && datalen > Size(old(home)[sym] - 1) &&
                forall s :: s in home ==> home[s] <= old(home)[sym] || datalen <= Size(home[s] - 1)
              else
                forall s :: s in home ==> home[s] == 0 || datalen <= Size(home[s] - 1)
      ensures datalen > 0 ==> sym.hasData && sym.dataAlloc >= datalen && sym.datalen == datalen - 1
      ensures datalen <= 0 ==> !sym.hasData && sym.dataAlloc == 0 && sym.datalen == 0
      ensures sym.symType == symType && sym.time == time && sym.cacheCount == 0
      ensures sym.next == null && sym.refcnt == 0 && !sym.composite && sym.parts == null
      ensures forall s :: s in home ==> unchanged(s)
    {
      hide Shelved, Chained, AtRest, Size;
      var i := Search(datalen);
      if i > 0 {
        sym := Take(i);
      } else {
        sym := new Symbol();
        outside := outside + {sym};
      }
      Init(sym, symType, datalen, time);
    }

    /** The first symbol of bucket i. */
    method Take(i: nat) returns (sym: Symbol)
      requires Valid() && 0 < i < RECYCLE_BUCKETS && recycle[i].head != null
      modifies this, recycle, home.Keys`next
      ensures Valid() && sym in old(home) && old(home)[sym] == i
      ensures home == old(home) - {sym} && outside == old(outside) + {sym} && sym !in old(outside)
      ensures Idle(sym) && sym.next == null
      ensures forall s :: s in home ==> s.next == old(s.next)
    {
      hide Shelved, Chained, InBand, AtRest;
      ghost var was, shelf := home, recycle[..];
      ShelfSize(shelf, lists, was);
      sym := recycle[i].head;
      Unshelve(shelf, lists, was, i);
      RestLess(was, sym);
      recycle[i] := Bucket(recycle[i].nsyms - 1, sym.next);
      lists := lists[i := lists[i][1..]];
      assert recycle[..] == shelf[i := Bucket(shelf[i].nsyms - 1, sym.next)];
      home := was - {sym};
      outside := outside + {sym};
      sym.next := null;
    }

    /** Which bucket gives up a symbol; 0 when none does. */
    method Search(datalen: int) returns (i: nat)
      requires Valid()
      ensures i < RECYCLE_BUCKETS
      ensures (i > 0 ==> recycle.Length == RECYCLE_BUCKETS && recycle[i].head != null && datalen > Size(i - 1))
      ensures forall s :: s in home ==> home[s] <= i || datalen <= Size(home[s] - 1)
    {
      hide Shelved, Chained, InBand, Size, AtRest;
      ghost var shelf := recycle[..];
      ShelfSize(shelf, lists, home);
      i := ClassFor(datalen);
      ghost var top := i;
      while i > 0 && recycle[i].head == null
        invariant 0 <= i <= top
        invariant forall b :: i < b <= top ==> lists[b] == []
      {
        i := i - 1;
      }
      Highest(lists, home, i, top, datalen);
    }

    /** The end of _zbar_image_scanner_alloc_sym: a buffer that is too small is replaced. */
    method Init(sym: Symbol, symType: int, datalen: int, time: int)
      modifies sym`symType, sym`time, sym`hasData, sym`dataAlloc, sym`datalen, sym`cacheCount
      ensures sym.symType == symType && sym.time == time && sym.cacheCount == 0
      ensures datalen > 0 ==> sym.dataAlloc >= datalen && sym.datalen == datalen - 1
      ensures datalen > 0 && old(sym.dataAlloc) >= datalen ==>
                sym.dataAlloc == old(sym.dataAlloc) && sym.hasData == old(sym.hasData)
      ensures datalen > 0 && old(sym.dataAlloc) < datalen ==> sym.dataAlloc == datalen && sym.hasData
      ensures datalen <= 0 ==> !sym.hasData && sym.dataAlloc == 0 && sym.datalen == 0
    {
      sym.symType, sym.time, sym.cacheCount := symType, time, 0;
      if datalen > 0 {
        sym.datalen := datalen - 1;
        if sym.dataAlloc < datalen {
          sym.dataAlloc := datalen;
          sym.hasData := true;
        }
      } else {
        sym.hasData := false;
        sym.datalen, sym.dataAlloc := 0, 0;
      }
    }

    /** The bucket at which the search for a buffer of this size starts. */
    method ClassFor(datalen: int) returns (i: nat)
      ensures i < RECYCLE_BUCKETS && (i > 0 ==> datalen > Size(i - 1))
      ensures (i < RECYCLE_BUCKETS - 1 ==> datalen <= Size(i))
    {
      i := 0;
      while i < RECYCLE_BUCKETS - 1 && datalen > Size(i)
        invariant i < RECYCLE_BUCKETS && (i > 0 ==> datalen > Size(i - 1))
      {
        i := i + 1;
      }
    }
  }

  /** The bucket i is the highest of those up to `top` that is not empty. */
  lemma Highest(lists: seq<seq<Symbol>>, home: map<Symbol, nat>, i: nat, top: nat, datalen: int)
    requires Shelved(lists, home) && i <= top < RECYCLE_BUCKETS
    requires (top > 0 ==> datalen > Size(top - 1)) && (top < RECYCLE_BUCKETS - 1 ==> datalen <= Size(top))
    requires forall b :: i < b <= top ==> lists[b] == []
    ensures i > 0 ==> datalen > Size(i - 1)
    ensures forall s :: s in home ==> home[s] <= i || datalen <= Size(home[s] - 1)
  {
    hide Size;
    if i > 0 {
      SizeGrows(i - 1, top - 1);
    }
    forall s | s in home && home[s] > i
      ensures datalen <= Size(home[s] - 1)
    {
      var b := home[s];
      assert Listed(lists[b], b, home);
      SizeGrows(top, b - 1);
    }
  }

  lemma ShelfSize(buckets: seq<Bucket>, lists: seq<seq<Symbol>>, home: map<Symbol, nat>)
    requires Shelved(lists, home) && Chained(buckets, lists, home.Keys)
    ensures |buckets| == |lists| == RECYCLE_BUCKETS
    ensures forall b :: 0 <= b < RECYCLE_BUCKETS ==> (buckets[b].head == null <==> lists[b] == [])
  {}
}
