/**
  Who owns a symbol in qrcode/src/img_scanner.c: the recycling buckets, a result set, the result
  cache, a decoder that has just got it, or the application. Every operation of the scanner moves
  symbols between these places, and none ever loses one or leaves it in two.
 */
module ImageScanner {
  import opened Sequences
  import opened Symbols
  import opened SymbolPool
  import opened ResultList
  import opened ResultCache

  const ZBAR_PARTIAL := 1
  const ZBAR_QRCODE := 64

  /** How cache_lookup and symbol_handler recognise a symbol. */
  predicate Matches(s: Symbol, symType: int, data: seq<int>)
    reads s`symType, s`datalen, s`data
  {
    s.symType == symType && s.datalen == |data| && s.data == data
  }

  ghost predicate InList(list: seq<Symbol>, symType: int, data: seq<int>)
    reads list`symType, list`datalen, list`data
  {
    exists s :: s in list && Matches(s, symType, data)
  }

  // ---------- The cache as entries ----------

  function KeyOf(s: Symbol): Key
    reads s`symType, s`data
  {
    Key(s.symType, s.data)
  }

  function EntryOf(s: Symbol): Entry
    reads s`symType, s`data, s`time, s`cacheCount
  {
    Entry(KeyOf(s), s.time, s.cacheCount)
  }

  /** What the cached symbols stand for. */
  ghost function EntriesOf(list: seq<Symbol>): (es: seq<Entry>)
    reads list`symType, list`data, list`time, list`cacheCount
    ensures |es| == |list|
  {
    if list == [] then [] else [EntryOf(list[0])] + EntriesOf(list[1..])
  }

  lemma {:induction false} EntriesAt(list: seq<Symbol>, i: nat)
    ensures i < |list| ==> EntriesOf(list)[i] == EntryOf(list[i])
  {
    if i == 0 || list == [] {
    } else {
      EntriesAt(list[1..], i - 1);
    }
  }

  lemma EntriesEach(list: seq<Symbol>)
    ensures forall j :: 0 <= j < |list| ==> EntriesOf(list)[j] == EntryOf(list[j])
  {
    hide EntriesOf, EntryOf;
    forall j | 0 <= j < |list|
      ensures EntriesOf(list)[j] == EntryOf(list[j])
    {
      EntriesAt(list, j);
    }
  }

  lemma EntriesChanged(list: seq<Symbol>, es: seq<Entry>, i: nat, e: Entry)
    requires |es| == |list| && i < |list|
    requires forall j :: 0 <= j < |list| ==> EntryOf(list[j]) == if j == i then e else es[j]
    ensures EntriesOf(list) == es[i := e]
  {
    hide EntriesOf, EntryOf;
    EntriesEach(list);
  }

  /** A cached symbol owns its data and is referenced by nothing but the cache. */
  ghost predicate Cacheable(s: Symbol)
    reads s`refcnt, s`composite, s`parts, s`dataAlloc, s`hasData, s`datalen, s`data
  {
    && s.refcnt == 0 && !s.composite && s.parts == null
    && s.dataAlloc > 0 && s.hasData && s.datalen == |s.data|
  }

  /** A symbol without components that nothing refers to. */
  ghost predicate Lone(s: Symbol)
    reads s`refcnt, s`composite, s`parts, s`dataAlloc, s`hasData
  {
    s.refcnt == 0 && !s.composite && s.parts == null && (s.dataAlloc > 0 ==> s.hasData)
  }

  ghost predicate AllLone(list: seq<Symbol>)
    reads list`refcnt, list`composite, list`parts, list`dataAlloc, list`hasData
  {
    forall s :: s in list ==> Lone(s)
  }

  ghost predicate AllCacheable(list: seq<Symbol>)
    reads list`refcnt, list`composite, list`parts, list`dataAlloc, list`hasData, list`datalen, list`data
  {
    forall s :: s in list ==> Cacheable(s)
  }

  ghost predicate CacheOk(cache: Symbol?, entries: seq<Symbol>)
    reads entries
  {
    && cache == At(entries, 0) && Linked(entries) && Distinct(entries)
    && AllCacheable(entries)
    && KeysDistinct(EntriesOf(entries))
  }

  // ---------- Result sets ----------

  /** Every live set is in order, and `listed` tells for each listed symbol the one set it is in. */
  ghost predicate SetsOk(sets: set<SymbolSet>, listed: map<Symbol, SymbolSet>)
    reads sets`head, sets`tail, sets`nsyms, sets`forest, sets`filtered, sets`reported, sets`added, listed.Keys
  {
    && (forall ss :: ss in sets ==>
         (forall s :: s in Nodes(ss.forest) ==> s in listed && listed[s] == ss) && ss.Valid())
    && (forall s :: s in listed ==> listed[s] in sets && s in Nodes(listed[s].forest))
  }

  /** One set apart from the others, which list the other symbols. */
  lemma SetApart(sets: set<SymbolSet>, listed: map<Symbol, SymbolSet>, ss: SymbolSet)
    requires SetsOk(sets, listed) && ss in sets
    ensures ss.Valid() && Nodes(ss.forest) <= listed.Keys
    ensures SetsOk(sets - {ss}, listed - Nodes(ss.forest))
    ensures forall s :: s in listed ==> (listed[s] == ss <==> s in Nodes(ss.forest))
  {
    hide Nodes;
  }

  /** One set and the others together. */
  ghost function WithSet(theirs: map<Symbol, SymbolSet>, ss: SymbolSet): map<Symbol, SymbolSet>
    reads ss`forest
  {
    theirs + map s | s in Nodes(ss.forest) :: ss
  }

  lemma SetBack(sets: set<SymbolSet>, theirs: map<Symbol, SymbolSet>, ss: SymbolSet)
    requires SetsOk(sets - {ss}, theirs) && ss.Valid() && theirs.Keys !! Nodes(ss.forest)
    ensures SetsOk(sets + {ss}, WithSet(theirs, ss))
    ensures WithSet(theirs, ss).Keys == theirs.Keys + Nodes(ss.forest)
  {
    hide Nodes;
    var all, listed := sets + {ss}, WithSet(theirs, ss);
    forall o | o in all
      ensures (forall s :: s in Nodes(o.forest) ==> s in listed && listed[s] == o) && o.Valid()
    {
      if o != ss {
        assert o in sets - {ss};
      }
    }
  }

  /** What happens to a scanner: the scan of an image begins; a decoder reports data, or reads a group
      of codes that belong together, some of which may be missing; the cache is switched; the
      application refers to result n of the current set, or to the set. */
  datatype Op =
    | Begin(img: Image, now: int)
    | Report(symType: int, data: seq<int>)
    | Group(read: seq<bool>, text: seq<int>, failed: bool)
    | Enable(enable: bool)
    | Refer(n: nat)
    | ReferSet

  class Image {
    var syms: SymbolSet?

    constructor ()
      ensures syms == null
    {
      syms := null;
    }
  }

  // ---------- The scanner ----------

  class ImageScanner {
    const pool: Pool
    /** The uncertainty configured for each symbol type. */
    const uncertainty: int -> nat
    var cache: Symbol?
    var enableCache: bool
    var syms: SymbolSet?
    var time: int
    /** The chain of the cache, and the sightings since it was last emptied. */
    ghost var entries: seq<Symbol>
    ghost var history: seq<Sighting>
    /** The live result sets and the symbols that they list, with components; the symbols handed to
        a decoder and not yet added; and those left to the application. */
    ghost var sets: set<SymbolSet>
    ghost var listed: map<Symbol, SymbolSet>
    ghost var hand: set<Symbol>
    ghost var held: set<Symbol>

    /** Every symbol that the pool has handed out is in one of the other places, and in only one. */
    ghost predicate Placed()
      reads `listed, `entries, `hand, `held, pool`outside
    {
      && pool.outside == listed.Keys + Elements(entries) + hand + held
      && listed.Keys !! Elements(entries) !! hand !! held
    }

    ghost predicate Base()
      reads `cache, `syms, `entries, `sets, `listed, `hand, `held
      reads sets`head, sets`tail, sets`nsyms, sets`forest, sets`filtered, sets`reported, sets`added
      reads pool, pool.recycle, pool.home.Keys, listed.Keys, entries
    {
      && pool.Valid() && Placed() && SetsOk(sets, listed) && CacheOk(cache, entries)
      && (syms != null ==> syms in sets)
    }

    ghost predicate Valid()
      reads this, pool, pool.recycle, pool.home.Keys, listed.Keys, entries
      reads sets`head, sets`tail, sets`nsyms, sets`forest, sets`filtered, sets`reported, sets`added
    {
      Base() && EntriesOf(entries) == RunCache(history, uncertainty)
    }

    constructor (uncertainty: int -> nat)
      ensures Valid() && fresh(pool) && fresh(pool.recycle)
      ensures pool.home == map[] && sets == {} && listed == map[] && hand == {} && held == {} && entries == []
      ensures history == []
      ensures syms == null && !enableCache && this.uncertainty == uncertainty
    {
      pool := new Pool();
      this.uncertainty := uncertainty;
      cache, enableCache, syms, time := null, false, null, 0;
      entries, history, sets, listed, hand, held := [], [], {}, map[], {}, {};
    }

    // ---------- Places ----------

    ghost function Allocated(): set<Symbol>
      reads pool`home, pool`outside
    {
      pool.home.Keys + pool.outside
    }

    /** The symbols of the scanner's own result set. */
    ghost function InResults(): set<Symbol>
      reads this
    {
      set s | s in listed && listed[s] == syms
    }

    /** The symbols that the application has got hold of: alone, or with a result set that the
        scanner has given up. */
    ghost function WithApplication(): set<Symbol>
      reads this
    {
      held + set s | s in listed && listed[s] != syms
    }

    /** Every symbol ever allocated is in exactly one place: a bucket, the result list, the cache, a
        decoder's hand or the application. */
    lemma OnePlace()
      requires Valid()
      ensures Allocated() == pool.home.Keys + InResults() + Elements(entries) + hand + WithApplication()
      ensures pool.home.Keys !! InResults() !! Elements(entries) !! hand !! WithApplication()
    {
      hide SetsOk, CacheOk, RunCache, EntriesOf;
      var own, others := InResults(), set s | s in listed && listed[s] != syms;
      assert listed.Keys == own + others;
    }

    // ---------- Symbols for a decoder ----------

    /** _zbar_image_scanner_alloc_sym: a pooled symbol, or a new one, goes to the decoder. */
    method AllocSym(symType: int, datalen: int) returns (sym: Symbol)
      requires Base()
      modifies this`hand, pool, pool.recycle, pool.home.Keys
      ensures Base() && EntriesOf(entries) == old(EntriesOf(entries)) && (old(Valid()) ==> Valid())
      ensures hand == old(hand) + {sym} && sym !in old(hand)
      ensures old(Allocated()) <= Allocated() && fresh(Allocated() - old(Allocated()))
      ensures pool.home == old(pool.home) - {sym} && (sym !in old(pool.home) || datalen <= 0 ==> fresh(sym))
      ensures datalen > 0 ==> sym.hasData && sym.dataAlloc >= datalen && sym.datalen == datalen - 1
      ensures datalen <= 0 ==> !sym.hasData && sym.dataAlloc == 0 && sym.datalen == 0
      ensures sym.symType == symType && sym.time == time && sym.cacheCount == 0
      ensures sym.next == null && sym.refcnt == 0 && !sym.composite && sym.parts == null
    {
      hide SetsOk, CacheOk, RunCache, EntriesOf, Shelved, Chained, AtRest;
      sym := pool.AllocSym(symType, datalen, time);
      hand := hand + {sym};
    }

    /** How a decoder makes a composite symbol (qrcode/src/qrcode/qrdectxt.c:401-410): the chain of
        components becomes the set of the container, which refers to each of them and is partial when
        one of them is. */
    method Compose(parent: Symbol, head: Symbol?, ghost f: Forest)
      requires Valid() && parent in hand && Nodes(f) <= hand - {parent} && WellLinked(f) && head == At(Roots(f), 0)
      requires forall s :: s in Roots(f) ==> s.refcnt == 0
      requires parent.refcnt == 0 && parent.next == null && (parent.dataAlloc > 0 ==> parent.hasData)
      modifies parent`composite, parent`parts, parent`partsRefs, parent`symType, Nodes(f)`refcnt
      ensures Valid() && WellLinked(Cons(parent, f, Nil)) && forall s :: s in Roots(f) ==> s.refcnt == 1
      ensures parent.symType == if HasPartial(Roots(f)) then ZBAR_PARTIAL else old(parent.symType)
      ensures parent.composite && parent.parts == head && parent.partsRefs == 1
    {
      hide *;
      ValidIs();
      InHandAll(Nodes(f) + {parent});
      ReferAll(parent, head, f);
      parent.composite, parent.parts, parent.partsRefs := true, head, 1;
      ComposedTree(parent, f);
      ValidIs();
    }

    /** The loop over the components. */
    method ReferAll(parent: Symbol, head: Symbol?, ghost f: Forest)
      requires parent !in Nodes(f) && WellLinked(f) && head == At(Roots(f), 0)
      requires forall s :: s in Roots(f) ==> s.refcnt == 0
      modifies Nodes(f)`refcnt, parent`symType
      ensures WellLinked(f) && forall s :: s in Roots(f) ==> s.refcnt == 1
      ensures parent.symType == if HasPartial(Roots(f)) then ZBAR_PARTIAL else old(parent.symType)
    {
      hide Nodes, Shape, Separate, Linked, Roots, At;
      ghost var list := Roots(f);
      ghost var k := 0;
      RootsDistinct(f);
      HeadNode(f, 0);
      var sym := head;
      while sym != null
        invariant k <= |list| && sym == At(list, k) && Owned(Nodes(f)) && Linked(list) && Shape(f)
        invariant parent !in list
        invariant parent.symType == if HasPartial(list[..k]) then ZBAR_PARTIAL else old(parent.symType)
        invariant forall j :: 0 <= j < |list| ==> list[j].refcnt == if j < k then 1 else 0
        decreases |list| - k
      {
        HeadNode(f, k);
        HeadNode(f, k + 1);
        sym.refcnt := sym.refcnt + 1;
        if sym.symType == ZBAR_PARTIAL {
          parent.symType := ZBAR_PARTIAL;
        }
        sym := sym.next;
        k := k + 1;
      }
      HeadNode(f, k);
    }

    // ---------- The cache ----------

    /** Taking an entry out of the chain. */
    method Unlink(prev: Symbol?, entry: Symbol, ghost i: nat) returns (next: Symbol?)
      requires CacheOk(cache, entries) && i < |entries| && entry == entries[i]
      requires prev == if i == 0 then null else entries[i - 1]
      modifies this`cache, this`entries, entries`next
      ensures CacheOk(cache, entries) && entries == Without(old(entries), i) && next == At(entries, i)
      ensures EntriesOf(entries) == Without(old(EntriesOf(entries)), i)
      ensures Elements(entries) == Elements(old(entries)) - {entry}
      ensures Cacheable(entry) && entry.next == null
    {
      hide EntriesOf, KeysDistinct, Cacheable, Linked, Distinct, At;
      ghost var was := entries;
      ghost var now := Without(was, i);
      EntriesWithout(was, i);
      DistinctWithout(was, i);
      assert AllCacheable(was) && AllCacheable(now) && Cacheable(entry);
      assert EntriesOf(now) == Without(EntriesOf(was), i);
      next := Rechain(prev, entry, i);
      assert AllCacheable(now) && Cacheable(entry);
      entries := now;
    }

    method Rechain(prev: Symbol?, entry: Symbol, ghost i: nat) returns (next: Symbol?)
      requires Linked(entries) && Distinct(entries) && cache == At(entries, 0) && i < |entries| && entry == entries[i]
      requires prev == if i == 0 then null else entries[i - 1]
      modifies this`cache, entries`next
      ensures Linked(Without(entries, i)) && cache == At(Without(entries, i), 0) && next == At(Without(entries, i), i)
      ensures entry.next == null
    {
      ghost var now := Without(entries, i);
      EntryAt(entries, i);
      next := entry.next;
      entry.next := null;
      if prev == null {
        cache := next;
      } else {
        prev.next := next;
      }
      forall j | 0 <= j < |now|
        ensures now[j].next == At(now, j + 1)
      {
        if j < i {
          assert now[j] == entries[j] && entries[j] != entries[i];
        } else {
          assert now[j] == entries[j + 1] && entries[j + 1] != entries[i];
        }
      }
    }

    /** Recycling a symbol that is on no list. */
    method RecycleLone(sym: Symbol)
      requires Base() && sym in hand && Cacheable(sym) && sym.next == null
      modifies this`hand, pool, pool.recycle, sym
      ensures Base() && hand == old(hand) - {sym}
      ensures GotBack(pool.home, pool.outside, old(pool.home), old(pool.outside), {sym})
    {
      hide SetsOk, CacheOk, Shelved, Chained, AtRest, WellLinked, Freed, Kept, Cacheable;
      LoneTree(sym);
      pool.RecycleSyms(sym, Cons(sym, Nil, Nil), map[sym := 0]);
      hand := hand - {sym};
    }

    /** One turn of cache_lookup on a stale entry: it is unlinked and recycled. */
    method DropEntry(prev: Symbol?, entry: Symbol, ghost i: nat) returns (next: Symbol?)
      requires Base() && i < |entries| && entry == entries[i] && prev == if i == 0 then null else entries[i - 1]
      modifies this`cache, this`entries, this`hand, pool, pool.recycle, entries
      ensures Base() && entries == Without(old(entries), i) && next == At(entries, i) && hand == old(hand)
      ensures EntriesOf(entries) == Without(old(EntriesOf(entries)), i)
      ensures GotBack(pool.home, pool.outside, old(pool.home), old(pool.outside), {entry})
    {
      hide SetsOk, CacheOk, RunCache, EntriesOf, Shelved, Chained, AtRest, GotBack, Cacheable;
      next := Unlink(prev, entry, i);
      hand := hand + {entry};
      RecycleLone(entry);
    }

    /** cache_lookup: stale entries in front of the matching one go to the buckets. */
    method CacheLookup(sym: Symbol) returns (entry: Symbol?, ghost i: nat)
      requires Base() && sym !in entries && sym.datalen == |sym.data|
      modifies this`cache, this`entries, this`hand, pool, pool.recycle, entries
      ensures Base() && hand == old(hand)
      ensures EntriesOf(entries) == Purge(old(EntriesOf(entries)), KeyOf(sym), sym.time)
      ensures i == Find(EntriesOf(entries), KeyOf(sym)) && entry == At(entries, i)
      ensures Allocated() == old(Allocated())
      ensures Elements(entries) <= Elements(old(entries)) && forall s :: s in entries ==> s in old(entries)
      ensures GotBack(pool.home, pool.outside, old(pool.home), old(pool.outside),
                Elements(old(entries)) - Elements(entries))
    {
      hide *;
      ghost var was, key, goal := entries, KeyOf(sym), Purge(EntriesOf(entries), KeyOf(sym), sym.time);
      ghost var home0, outside0 := pool.home, pool.outside;
      KeyIs(sym);
      LookupStart(was, key, sym.time, home0, outside0);
      CacheHead();
      AllocatedIs();
      CachedOutside();
      var prev: Symbol? := null;
      entry := cache;
      i := 0;
      while entry != null && !(entry.symType == sym.symType && entry.datalen == sym.datalen && entry.data == sym.data)
        invariant Base() && hand == old(hand) && 0 <= i <= |entries| && entry == At(entries, i)
        invariant prev == (if i == 0 then null else entries[i - 1])
        invariant sym !in entries && Elements(entries) <= Elements(was) && forall s :: s in entries ==> s in was
        invariant LookingUp(goal, EntriesOf(entries), i, key, sym.time)
        invariant GotBack(pool.home, pool.outside, home0, outside0, Elements(was) - Elements(entries))
        decreases |entries| - i
      {
        CachedAt(i);
        KeyIs(entry);
        if sym.time - entry.time > TIMEOUT {
          ghost var before, home1, outside1 := entries, pool.home, pool.outside;
          LookingDrop(goal, EntriesOf(entries), i, key, sym.time);
          Dropped(was, before, i);
          assert forall k :: 0 <= k < |entries| ==> entries[k] in old(entries);
          entry := DropEntry(prev, entry, i);
          GotMore(home0, outside0, home1, outside1, pool.home, pool.outside, Elements(was) - Elements(before),
              {before[i]});
        } else {
          LookingOn(goal, EntriesOf(entries), i, key, sym.time);
          prev := entry;
          entry := entry.next;
          i := i + 1;
        }
      }
      CachedAt(i);
      if entry != null {
        KeyIs(entry);
      }
      LookingDone(goal, EntriesOf(entries), i, key, sym.time);
      SameSymbols(home0, outside0, Elements(was) - Elements(entries));
    }

    lemma CachedOutside()
      requires Base()
      ensures Elements(entries) <= pool.outside
    {}

    lemma CacheHead()
      requires Base()
      ensures cache == At(entries, 0)
    {}

    /** What is known of the entry at i. */
    lemma CachedAt(i: nat)
      requires Base() && i <= |entries|
      ensures Distinct(entries) && KeysDistinct(EntriesOf(entries)) && (At(entries, i) == null <==> i == |entries|)
      ensures i < |entries| ==>
                var e := entries[i];
                && At(entries, i) == e && e in entries && e.next == At(entries, i + 1) && e.datalen == |e.data|
                && EntriesOf(entries)[i] == EntryOf(e) && EntryOf(e).key == KeyOf(e) && EntryOf(e).time == e.time
                && EntryOf(e).count == e.cacheCount && Cacheable(e)
    {
      hide SetsOk, Placed;
      EntriesAt(entries, i);
      if i < |entries| {
        EntryAt(entries, i);
      }
    }

    /** A symbol in hand is nowhere else. */
    lemma InHand(sym: Symbol)
      requires Base() && sym in hand
      ensures sym !in pool.home && sym !in listed && sym !in entries && sym !in held
    {
      assert sym in pool.outside;
    }

    /** A new entry of cache_sym, as if the symbol had been seen just long enough ago. */
    method NewEntry(sym: Symbol) returns (entry: Symbol)
      requires Base() && sym in hand && sym.datalen == |sym.data| && Find(EntriesOf(entries), KeyOf(sym)) == |entries|
      modifies this`cache, this`entries, this`hand, pool, pool.recycle, pool.home.Keys
      ensures Base() && hand == old(hand) && entries == [entry] + old(entries) && cache == entry && entry != sym
      ensures old(Allocated()) <= Allocated() && fresh(Allocated() - old(Allocated()))
      ensures EntriesOf(entries) == [Entry(KeyOf(sym), sym.time - HYSTERESIS, 0)] + old(EntriesOf(entries))
      ensures entry !in old(hand) && (entry !in old(pool.home) ==> fresh(entry))
    {
      hide *;
      InHand(sym);
      ghost var es, key := EntriesOf(entries), KeyOf(sym);
      entry := AllocSym(sym.symType, sym.datalen + 1);
      assert EntriesOf(entries) == es && KeyOf(sym) == key;
      InHand(entry);
      entry.data := sym.data;
      entry.time := sym.time - HYSTERESIS;
      entry.cacheCount := 0;
      NewCacheable(entry);
      assert EntriesOf(entries) == es && KeyOf(sym) == key;
      NewKey(entry, sym);
      Enlist(entry);
    }

    /** A symbol becomes the first cache entry. */
    method Enlist(entry: Symbol)
      requires Base() && entry in hand && Cacheable(entry) && Find(EntriesOf(entries), KeyOf(entry)) == |entries|
      modifies this`cache, this`entries, this`hand, entry`next
      ensures Base() && hand == old(hand) - {entry} && entries == [entry] + old(entries) && cache == entry
      ensures EntriesOf(entries) == [EntryOf(entry)] + old(EntriesOf(entries))
    {
      hide SetsOk, EntriesOf, Shelved, Chained, AtRest, KeysDistinct, Find, AllCacheable, Linked, Distinct, Cacheable;
      hide At;
      ghost var was, es := entries, EntriesOf(entries);
      assert AllCacheable(was) && Linked(was);
      entry.next := cache;
      assert AllCacheable(was) && Linked(was);
      CacheFront(entry, was);
      cache := entry;
      entries := [entry] + was;
      hand := hand - {entry};
    }

    /** Consistency check and hysteresis. */
    method CountEntry(entry: Symbol, sym: Symbol, ghost i: nat)
      requires Base() && sym in hand && i < |entries| && entry == entries[i] && KeyOf(entry) == KeyOf(sym)
      modifies entry`time, entry`cacheCount, sym`cacheCount
      ensures Base()
      ensures sym.cacheCount == Counted(old(entry.cacheCount), sym.time - old(entry.time), uncertainty(sym.symType))
      ensures EntriesOf(entries) == old(EntriesOf(entries))[i := Entry(KeyOf(sym), sym.time, sym.cacheCount)]
    {
      hide SetsOk, EntriesOf, KeysDistinct, Counted, AllCacheable, Linked;
      ghost var es, u := EntriesOf(entries), uncertainty(sym.symType);
      EntriesEach(entries);
      CountedBy(entry.cacheCount, sym.time - entry.time, u);
      KeysUpdate(es, i, sym.time);
      var age := (sym.time - entry.time) % WORD;
      entry.time := sym.time;
      var near, far, dup := age < PROXIMITY, age >= HYSTERESIS, entry.cacheCount >= 0;
      if (!dup && !near) || far {
        entry.cacheCount := Start(uncertainty(sym.symType));
      } else if dup || near {
        entry.cacheCount := entry.cacheCount + 1;
      }
      sym.cacheCount := entry.cacheCount;
      EntriesChanged(entries, es, i, Entry(KeyOf(sym), sym.time, sym.cacheCount));
    }

    /** The count that cache_sym gives a symbol, and the sightings with this one. */
    ghost function CountFor(sym: Symbol): int
      reads `entries, `enableCache, sym`symType, sym`data, sym`time
      reads entries`symType, entries`data, entries`time, entries`cacheCount
    {
      if enableCache then SightCount(EntriesOf(entries), KeyOf(sym), sym.time, uncertainty(sym.symType)) else 0
    }

    ghost function HistoryWith(sym: Symbol): seq<Sighting>
      reads `history, `enableCache, sym`symType, sym`data, sym`time
    {
      if enableCache then history + [Sighting(KeyOf(sym), sym.time)] else history
    }

    lemma CountMeans(sym: Symbol)
      ensures CountFor(sym) ==
                if enableCache then SightCount(EntriesOf(entries), KeyOf(sym), sym.time, uncertainty(sym.symType))
                  else 0
      ensures HistoryWith(sym) == if enableCache then history + [Sighting(KeyOf(sym), sym.time)] else history
    {
      hide SightCount, EntriesOf, KeyOf;
    }

    /** cache_sym: the entry for the symbol is found, or allocated, and counts the sighting. */
    method CacheSym(sym: Symbol)
      requires Valid() && sym in hand && sym.datalen == |sym.data|
      modifies this`cache, this`entries, this`hand, this`history, pool, pool.recycle, pool.home.Keys, entries,
               sym`cacheCount
      ensures Valid() && hand == old(hand)
      ensures old(Allocated()) <= Allocated() && fresh(Allocated() - old(Allocated()))
      ensures sym.cacheCount == old(CountFor(sym)) && history == old(HistoryWith(sym))
      ensures !enableCache ==> entries == old(entries)
    {
      hide *;
      ValidIs();
      InHand(sym);
      CachedAt(0);
      CountMeans(sym);
      if !enableCache {
        sym.cacheCount := 0;
        return;
      }
      ghost var es, key, u := EntriesOf(entries), KeyOf(sym), uncertainty(sym.symType);
      KeyIs(sym);
      var entry, i := FindOrMake(sym);
      InHand(sym);
      CachedAt(i);
      KeyIs(sym);
      ghost var found, all := EntriesOf(entries), Allocated();
      CountEntry(entry, sym, i);
      assert Allocated() == all;
      KeyIs(sym);
      SightOf(es, key, sym.time, u, found, i, sym.cacheCount);
      RunAppend(history, Sighting(key, sym.time), uncertainty);
      history := history + [Sighting(key, sym.time)];
      ValidIs();
    }

    /** The entry for a symbol. */
    method FindOrMake(sym: Symbol) returns (entry: Symbol, ghost i: nat)
      requires Base() && sym in hand && sym.datalen == |sym.data|
      modifies this`cache, this`entries, this`hand, pool, pool.recycle, pool.home.Keys, entries
      ensures Base() && hand == old(hand) && i < |entries| && entry == entries[i] && KeyOf(entry) == KeyOf(sym)
      ensures EntriesOf(entries) == Found(old(EntriesOf(entries)), KeyOf(sym), sym.time)
      ensures i == FoundAt(old(EntriesOf(entries)), KeyOf(sym), sym.time)
      ensures fresh(entry) || entry in old(pool.home.Keys) || entry in old(entries)
      ensures old(Allocated()) <= Allocated() && fresh(Allocated() - old(Allocated()))
    {
      hide *;
      InHand(sym);
      ghost var es, key := EntriesOf(entries), KeyOf(sym);
      KeyIs(sym);
      var hit;
      hit, i := CacheLookup(sym);
      ghost var kept := EntriesOf(entries);
      CachedAt(i);
      InHand(sym);
      PooledBefore(old(entries), entries, old(pool.home), old(pool.outside));
      FoundIs(es, key, sym.time);
      if hit == null {
        label Looked:
        entry := NewEntry(sym);
        i := 0;
        forall s | s in Allocated() && s !in old(Allocated())
          ensures fresh(s)
        {
          assert fresh@Looked(s);
        }
      } else {
        entry := hit;
      }
      KeyIs(sym);
      CachedAt(i);
      KeyIs(entry);
    }

    /** A lookup brings only old entries into the pool. */
    lemma PooledBefore(was: seq<Symbol>, now: seq<Symbol>, home: map<Symbol, nat>, outside: set<Symbol>)
      requires GotBack(pool.home, pool.outside, home, outside, Elements(was) - Elements(now))
      ensures forall s: object :: s in pool.home.Keys ==> s in home.Keys || s in was
    {}

    lemma ValidIs()
      ensures Valid() <==> Base() && EntriesOf(entries) == RunCache(history, uncertainty)
    {
      hide Base, EntriesOf, RunCache;
    }

    /** zbar_image_scanner_enable_cache: either way the cached symbols go to the buckets. */
    method EnableCache(enable: bool)
      requires Valid()
      modifies this`cache, this`enableCache, this`entries, this`history, pool, pool.recycle, entries
      ensures Valid() && enableCache == enable && entries == [] && history == []
      ensures Allocated() == old(Allocated())
      ensures GotBack(pool.home, pool.outside, old(pool.home), old(pool.outside), Elements(old(entries)))
    {
      hide *;
      ghost var was, home0, outside0 := entries, pool.home, pool.outside;
      ValidIs();
      CachedAll();
      BaseParts();
      AllocatedIs();
      GotNothing(pool.home, pool.outside);
      NoEntries();
      if cache != null {
        pool.RecycleSyms(cache, Flat(entries), map s | s in entries :: s.refcnt);
        cache := null;
      }
      entries, history := [], [];
      enableCache := enable;
      Emptied(was, home0, outside0);
      SameSymbols(home0, outside0, Elements(was));
      RunNothing(uncertainty);
      ValidIs();
    }

    lemma CachedAll()
      requires Base()
      ensures cache == At(Roots(Flat(entries)), 0) && WellLinked(Flat(entries))
      ensures Nodes(Flat(entries)) == Elements(entries)
      ensures Freed(Flat(entries)) == Elements(entries) && Elements(entries) <= pool.outside
      ensures Counts(Elements(entries), map s | s in entries :: s.refcnt)
      ensures Elements(entries) !! listed.Keys && (cache == null ==> Elements(entries) == {})
      ensures forall s: object :: s in Elements(entries) ==> s in entries
    {
      hide SetsOk, EntriesOf, KeysDistinct;
      FlatList(entries);
    }

    lemma SameSymbols(home: map<Symbol, nat>, outside: set<Symbol>, got: set<Symbol>)
      requires GotBack(pool.home, pool.outside, home, outside, got) && got <= outside
      ensures Allocated() == home.Keys + outside
    {}

    lemma AllocatedIs()
      ensures Allocated() == pool.home.Keys + pool.outside
    {}

    lemma BaseParts()
      requires Base()
      ensures pool.Valid() && Placed() && SetsOk(sets, listed) && CacheOk(cache, entries)
      ensures syms != null ==> syms in sets
      ensures pool.outside == listed.Keys + Elements(entries) + hand + held
      ensures listed.Keys !! Elements(entries) !! hand !! held && pool.home.Keys !! pool.outside
    {}

    lemma BaseAgain()
      requires pool.Valid() && SetsOk(sets, listed) && CacheOk(cache, entries) && (syms != null ==> syms in sets)
      requires pool.outside == listed.Keys + Elements(entries) + hand + held
      requires listed.Keys !! Elements(entries) !! hand !! held
      ensures Base()
    {}

    lemma Emptied(was: seq<Symbol>, home: map<Symbol, nat>, outside: set<Symbol>)
      requires pool.Valid() && SetsOk(sets, listed) && (syms != null ==> syms in sets) && cache == null && entries == []
      requires GotBack(pool.home, pool.outside, home, outside, Elements(was))
      requires outside == listed.Keys + Elements(was) + hand + held && listed.Keys !! Elements(was) !! hand !! held
      ensures Base()
    {
      hide SetsOk;
      NoEntries();
    }

    // ---------- The result sets ----------

    /** The second half of _zbar_image_scanner_add_sym. */
    method ListSym(ss: SymbolSet, sym: Symbol, ghost parts: Forest)
      requires SetsOk(sets, listed) && ss in sets && sym.refcnt == 0
      requires WellLinked(Cons(sym, parts, Nil)) && ({sym} + Nodes(parts)) !! listed.Keys
      modifies this`listed, sym`next, sym`refcnt, listed.Keys`next
      modifies ss
      ensures ss.refcnt == old(ss.refcnt)
      ensures SetsOk(sets, listed) && listed.Keys == old(listed.Keys) + {sym} + Nodes(parts)
      ensures ss.added == old(ss.added) + [(sym, sym.cacheCount)] && sym.refcnt == 1
    {
      hide *;
      ghost var theirs := listed - Nodes(ss.forest);
      SetApart(sets, listed, ss);
      ss.AddSym(sym, parts);
      SetBack(sets, theirs, ss);
      listed := WithSet(theirs, ss);
      assert sets + {ss} == sets;
    }

    /** _zbar_image_scanner_add_sym: a symbol, with its components, goes from the decoder's hand to
        the result list; the cache has counted it first. */
    method AddSym(sym: Symbol, ghost parts: Forest)
      requires Valid() && syms != null && WellLinked(Cons(sym, parts, Nil)) && {sym} + Nodes(parts) <= hand
      requires sym.refcnt == 0 && sym.datalen == |sym.data|
      modifies this, pool, pool.recycle, pool.home.Keys, entries, listed.Keys`next
      modifies sym`next, sym`refcnt, sym`cacheCount
      modifies syms
      ensures Valid() && hand == old(hand) - ({sym} + Nodes(parts)) && held == old(held) && sets == old(sets)
      ensures syms == old(syms) && syms.refcnt == old(syms.refcnt)
      ensures old(Allocated()) <= Allocated() && fresh(Allocated() - old(Allocated()))
      ensures listed.Keys == old(listed.Keys) + {sym} + Nodes(parts)
      ensures syms.added == old(syms.added) + [(sym, sym.cacheCount)]
      ensures enableCache == old(enableCache) && time == old(time)
      ensures sym.cacheCount == old(CountFor(sym)) && history == old(HistoryWith(sym))
    {
      hide *;
      ValidIs();
      InHandAll({sym} + Nodes(parts));
      TreeOf(sym, parts);
      assert WellLinked(Cons(sym, parts, Nil));
      CacheSym(sym);
      assert WellLinked(Cons(sym, parts, Nil));
      ValidIs();
      BaseParts();
      AddListed(syms, sym, parts);
      ValidIs();
    }

    method AddListed(ss: SymbolSet, sym: Symbol, ghost parts: Forest)
      requires Base() && ss in sets && WellLinked(Cons(sym, parts, Nil)) && {sym} + Nodes(parts) <= hand
      requires sym.refcnt == 0
      modifies this`listed, this`hand, sym`next, sym`refcnt, listed.Keys`next
      modifies ss
      ensures ss.refcnt == old(ss.refcnt)
      ensures Base() && hand == old(hand) - ({sym} + Nodes(parts)) && EntriesOf(entries) == old(EntriesOf(entries))
      ensures listed.Keys == old(listed.Keys) + {sym} + Nodes(parts)
      ensures ss.added == old(ss.added) + [(sym, sym.cacheCount)]
    {
      hide *;
      ghost var tree := {sym} + Nodes(parts);
      InHandAll(tree);
      CachedApart(listed.Keys);
      BaseParts();
      LeftOver(listed.Keys, Elements(entries), hand, held, tree, {});
      ListSym(ss, sym, parts);
      hand := hand - tree;
      BaseAgain();
    }

    lemma InHandAll(some: set<Symbol>)
      requires Base() && some <= hand
      ensures some !! pool.home.Keys && some !! listed.Keys && some !! Elements(entries) && some <= pool.outside
      ensures forall s: object :: s in some ==> s !in entries
    {}

    // ---------- Recycling ----------

    /** _zbar_image_scanner_recycle_syms on a list that no other result set and no cache entry is
        part of. */
    method Recycle(head: Symbol?, ghost f: Forest, ghost others: set<SymbolSet>, ghost theirs: map<Symbol, SymbolSet>)
      requires pool.Valid() && CacheOk(cache, entries) && SetsOk(others, theirs) && Nodes(f) <= pool.outside
      requires WellLinked(f) && head == At(Roots(f), 0)
      requires Nodes(f) !! theirs.Keys && forall s: object :: s in Nodes(f) ==> s !in entries
      modifies pool, pool.recycle, Nodes(f)
      ensures pool.Valid() && CacheOk(cache, entries) && SetsOk(others, theirs)
      ensures EntriesOf(entries) == old(EntriesOf(entries)) && Allocated() == old(Allocated())
      ensures GotBack(pool.home, pool.outside, old(pool.home), old(pool.outside), old(Freed(f)))
      ensures pool.outside == old(pool.outside) - old(Freed(f)) && old(Freed(f)) <= Nodes(f)
      ensures StillReferenced(old(Kept(f)), old(RefsOf(Nodes(f))))
    {
      hide *;
      FreedNodes(f);
      ghost var gone, kept, refs := Freed(f), Kept(f), RefsOf(Nodes(f));
      AllocatedIs();
      KeptCounts(f, refs);
      pool.RecycleSyms(head, f, refs);
      KeptOnes(kept, refs);
      SameSymbols(old(pool.home), old(pool.outside), gone);
      OutsideNow(pool.home, pool.outside, old(pool.home), old(pool.outside), gone);
    }

    /** The symbols that a decoder gives back. */
    method RecycleHand(head: Symbol?, ghost f: Forest)
      requires Valid() && WellLinked(f) && Nodes(f) <= hand && head == At(Roots(f), 0)
      modifies this`hand, this`held, pool, pool.recycle, Nodes(f)
      ensures Valid() && hand == old(hand) - Nodes(f) && held == old(held) + (Nodes(f) - old(Freed(f)))
      ensures Allocated() == old(Allocated())
      ensures GotBack(pool.home, pool.outside, old(pool.home), old(pool.outside), old(Freed(f)))
      ensures StillReferenced(old(Kept(f)), old(RefsOf(Nodes(f))))
    {
      hide *;
      ValidIs();
      BaseParts();
      InHandAll(Nodes(f));
      FreedNodes(f);
      ghost var gone := Freed(f);
      LeftOver(listed.Keys, Elements(entries), hand, held, Nodes(f), gone);
      Recycle(head, f, sets, listed);
      hand, held := hand - Nodes(f), held + (Nodes(f) - gone);
      BaseAgain();
      ValidIs();
    }

    /** recycle_syms: a set that is still referenced is left to whoever refers to it. Otherwise its
        symbols are recycled, those that the application refers to are unlinked and left to it, and
        the set is empty. */
    method RecycleSet(ss: SymbolSet) returns (inUse: bool)
      requires Valid() && ss in sets && ss.refcnt > 0
      modifies this`listed, this`held, pool, pool.recycle, listed.Keys, ss
      ensures Valid() && ss.refcnt == old(ss.refcnt) - 1 && inUse == (ss.refcnt > 0)
      ensures Allocated() == old(Allocated())
      ensures inUse ==> listed == old(listed) && held == old(held) && pool.home == old(pool.home)
      ensures inUse ==> ss.forest == old(ss.forest)
      ensures !inUse ==> ss.forest == Nil && ss.added == [] && listed == old(listed) - old(Nodes(ss.forest))
      ensures !inUse ==> held == old(held) + old(Nodes(ss.forest) - Freed(ss.forest))
      ensures !inUse ==> GotBack(pool.home, pool.outside, old(pool.home), old(pool.outside), old(Freed(ss.forest)))
      ensures !inUse ==> StillReferenced(old(Kept(ss.forest)), old(RefsOf(Nodes(ss.forest))))
    {
      hide *;
      ValidIs();
      ss.refcnt := ss.refcnt - 1;
      if ss.refcnt > 0 {
        ValidIs();
        return true;
      }
      inUse := false;
      Dissolve(ss);
      ValidIs();
    }

    /** The symbols of a set that nothing refers to. */
    method Dissolve(ss: SymbolSet)
      requires Base() && ss in sets
      modifies this`listed, this`held, pool, pool.recycle, listed.Keys
      modifies ss
      ensures ss.refcnt == old(ss.refcnt)
      ensures Base() && ss.forest == Nil && ss.added == [] && listed == old(listed) - old(Nodes(ss.forest))
      ensures Allocated() == old(Allocated())
      ensures held == old(held) + old(Nodes(ss.forest) - Freed(ss.forest))
      ensures EntriesOf(entries) == old(EntriesOf(entries))
      ensures GotBack(pool.home, pool.outside, old(pool.home), old(pool.outside), old(Freed(ss.forest)))
      ensures StillReferenced(old(Kept(ss.forest)), old(RefsOf(Nodes(ss.forest))))
    {
      hide *;
      ghost var f, theirs := ss.forest, listed - Nodes(ss.forest);
      BaseParts();
      SetApart(sets, listed, ss);
      SetMeans(ss);
      FreedNodes(f);
      ghost var gone, kept, refs := Freed(f), Kept(f), RefsOf(Nodes(f));
      LeftOver(hand, Elements(entries), listed.Keys, held, Nodes(f), gone);
      CachedApart(Nodes(f));
      Recycle(ss.head, f, sets - {ss}, theirs);
      EmptySet(ss, theirs);
      assert StillReferenced(kept, refs);
      held := held + (Nodes(f) - gone);
      BaseAgain();
    }

    method EmptySet(ss: SymbolSet, ghost theirs: map<Symbol, SymbolSet>)
      requires ss in sets && SetsOk(sets - {ss}, theirs)
      modifies this`listed, ss
      ensures ss.refcnt == old(ss.refcnt)
      ensures SetsOk(sets, listed) && listed == theirs && ss.forest == Nil && ss.added == []
    {
      hide *;
      ss.Clear();
      NoNodes(theirs, ss);
      SetBack(sets, theirs, ss);
      assert sets + {ss} == sets;
      listed := theirs;
    }

    lemma CachedApart(nodes: set<Symbol>)
      requires Base() && nodes <= listed.Keys
      ensures forall s: object :: s in nodes ==> s !in entries
    {
      assert forall s :: s in entries ==> s in Elements(entries);
    }

    /** The references of these images to their result sets have been counted; no two images share
        a set. */
    ghost predicate HeldBy(imgs: set<Image>)
      reads `sets, imgs, sets`refcnt
    {
      && (forall a :: a in imgs && a.syms != null ==> a.syms in sets && a.syms.refcnt > 0)
      && (forall a, b :: a in imgs && b in imgs && a != b && a.syms != null ==> a.syms != b.syms)
    }

    /** So has the scanner's own, where it shares a set with an image. */
    ghost predicate Referenced(imgs: set<Image>)
      reads `syms, `sets, imgs, sets`refcnt
    {
      HeldBy(imgs) && forall a :: a in imgs && a.syms != null && a.syms == syms ==> a.syms.refcnt > 1
    }

    /** zbar_image_scanner_recycle_image: the sets of the scanner and of the image are recycled, unless
        they are still in use; of two that are left, one is destroyed. */
    method RecycleImage(img: Image, ghost imgs: set<Image>)
      requires Valid() && Referenced(imgs) && img in imgs
      modifies this`syms, this`sets, this`listed, this`held, pool, pool.recycle, listed.Keys, sets, img
      ensures Valid() && hand == old(hand) && entries == old(entries) && sets <= old(sets)
      ensures HeldBy(imgs) && img.syms == null && (syms != null ==> syms.refcnt == 0)
      ensures Allocated() == old(Allocated())
      ensures old(img.syms) != null ==>
                old(img.syms).refcnt == old(img.syms.refcnt) - if old(img.syms) == old(syms) then 2 else 1
      ensures old(syms) != null && old(syms) != old(img.syms) ==> old(syms).refcnt == LessOne(old(syms.refcnt))
      ensures forall ss :: ss in {old(syms), old(img.syms)} && ss != null && ss.refcnt == 0 && old(ss.refcnt) > 0 ==>
                ss.forest == Nil
      ensures var own := old(syms) != null && old(syms).refcnt == 0;
              var theirs := old(img.syms) != null && old(img.syms).refcnt == 0;
              && syms == (if own then old(syms) else if theirs then old(img.syms) else null)
              && sets == old(sets) - if own && theirs && old(syms) != old(img.syms) then {old(img.syms)} else {}
    {
      hide Valid, Base, Allocated, Elements, EntriesOf, Nodes, HeldBy, Referenced;
      SharedCounts(img, imgs);
      OwnSet();
      RecycleOwn(imgs);
      RecycleTheirs(img, imgs);
    }

    lemma SharedCounts(img: Image, imgs: set<Image>)
      requires Valid() && Referenced(imgs) && img in imgs
      ensures Base()
      ensures img.syms != null ==> img.syms in sets && img.syms.refcnt > if img.syms == syms then 1 else 0
    {
      hide Base;
    }

    /** A reference given back, if there is one. */
    function LessOne(refs: nat): nat {
      if refs > 0 then refs - 1 else 0
    }

    /** The first half, on the scanner's set. */
    method RecycleOwn(ghost imgs: set<Image>)
      requires Valid() && Referenced(imgs)
      modifies this`syms, this`listed, this`held, pool, pool.recycle, listed.Keys, sets
      ensures Valid() && HeldBy(imgs) && (syms != null ==> syms.refcnt == 0)
      ensures Allocated() == old(Allocated()) && listed.Keys <= old(listed.Keys)
      ensures syms == if old(syms) != null && old(syms.refcnt) > 1 then null else old(syms)
      ensures old(syms) != null ==> old(syms).refcnt == LessOne(old(syms.refcnt))
      ensures old(syms) != null && old(syms.refcnt) == 1 ==> old(syms).forest == Nil
      ensures forall ss :: ss in sets && ss != old(syms) ==> ss.refcnt == old(ss.refcnt) && ss.forest == old(ss.forest)
    {
      hide Valid, Base, Allocated, Elements, EntriesOf, GotBack, Freed, Nodes, Kept, RefsOf, StillReferenced;
      ValidIs();
      OwnSet();
      if syms != null && syms.refcnt != 0 {
        var inUse := RecycleSet(syms);
        if inUse {
          ForgetSet();
        }
      }
    }

    /** The second half, on the set of the image. */
    method RecycleTheirs(img: Image, ghost imgs: set<Image>)
      requires Valid() && HeldBy(imgs) && img in imgs && (syms != null ==> syms.refcnt == 0)
      modifies this`syms, this`sets, this`listed, this`held, pool, pool.recycle, listed.Keys, sets, img
      ensures Valid() && sets <= old(sets)
      ensures HeldBy(imgs) && img.syms == null && (syms != null ==> syms.refcnt == 0)
      ensures Allocated() == old(Allocated())
      ensures old(img.syms) != null ==> old(img.syms).refcnt == old(img.syms.refcnt) - 1
      ensures old(img.syms) != null && old(img.syms).refcnt == 0 ==> old(img.syms).forest == Nil
      ensures forall ss :: ss in old(sets) && ss != old(img.syms) ==>
                ss.refcnt == old(ss.refcnt) && ss.forest == old(ss.forest)
      ensures var free := old(img.syms) != null && old(img.syms).refcnt == 0;
              && syms == (if free && old(syms) == null then old(img.syms) else old(syms))
              && sets == old(sets) - if free && old(syms) != null then {old(img.syms)} else {}
    {
      hide Valid, Base, Allocated, Elements, EntriesOf, GotBack, Freed, Nodes, Kept, RefsOf, StillReferenced;
      var ss := img.syms;
      img.syms := null;
      if ss != null {
        var inUse := RecycleSet(ss);
        if !inUse {
          if syms != null {
            FreeSet(ss);
          } else {
            AdoptSet(ss);
          }
        }
      }
    }

    lemma OwnSet()
      requires Base()
      ensures syms != null ==> syms in sets
    {}

    method ForgetSet()
      requires Valid()
      modifies this`syms
      ensures Valid() && syms == null
    {
      hide SetsOk, CacheOk, RunCache, EntriesOf, Shelved, Chained, AtRest;
      syms := null;
    }

    method AdoptSet(ss: SymbolSet)
      requires Valid() && ss in sets
      modifies this`syms
      ensures Valid() && syms == ss
    {
      hide SetsOk, CacheOk, RunCache, EntriesOf, Shelved, Chained, AtRest;
      syms := ss;
    }

    /** _zbar_symbol_set_free on an empty set. */
    method FreeSet(ss: SymbolSet)
      requires Valid() && ss in sets && ss != syms && ss.forest == Nil
      modifies this`sets
      ensures Valid() && sets == old(sets) - {ss}
    {
      hide *;
      ValidIs();
      BaseParts();
      SetApart(sets, listed, ss);
      NoNodes(listed, ss);
      assert listed - {} == listed;
      sets := sets - {ss};
      BaseAgain();
      ValidIs();
    }

    /** The start of zbar_scan_image: the scanner and the image share a result set. */
    method TakeSet(img: Image, ghost imgs: set<Image>)
      requires Valid() && HeldBy(imgs) && img in imgs && img.syms == null && (syms != null ==> syms.refcnt == 0)
      modifies this`syms, this`sets, sets`refcnt, img
      ensures Valid() && Referenced(imgs) && img.syms == syms != null && syms.refcnt == 2
      ensures sets == old(sets) + {syms} && fresh(sets - old(sets)) && listed == old(listed)
    {
      hide Valid, Base, EntriesOf, SetsOk, CacheOk, RunCache, Nodes, Elements;
      ValidIs();
      OwnSet();
      if syms == null {
        MakeSet();
        RefSet(syms, 1);
      } else {
        RefSet(syms, 2);
        assert sets + {syms} == sets;
      }
      assert Valid();
      img.syms := syms;
    }

    method MakeSet()
      requires Valid() && syms == null
      modifies this`syms, this`sets
      ensures Valid() && syms != null && fresh(syms) && syms.refcnt == 1 && sets == old(sets) + {syms}
    {
      hide *;
      ValidIs();
      BaseParts();
      var ss := new SymbolSet();
      NewSet(ss);
      sets := sets + {ss};
      syms := ss;
      BaseAgain();
      ValidIs();
    }

    lemma NewSet(ss: SymbolSet)
      requires SetsOk(sets, listed) && ss !in sets && ss.Valid() && ss.forest == Nil
      ensures SetsOk(sets + {ss}, listed)
    {
      hide SetsOk;
      assert sets + {ss} - {ss} == sets;
      NoNodes(listed, ss);
      SetBack(sets + {ss}, listed, ss);
      assert sets + {ss} + {ss} == sets + {ss};
    }

    // ---------- The application ----------

    /** zbar_symbol_ref on a listed symbol that owns its data. */
    method RefSymbol(sym: Symbol)
      requires Valid() && sym in listed && sym.dataAlloc > 0
      modifies sym`refcnt
      ensures Valid() && sym.refcnt == old(sym.refcnt) + 1
    {
      hide *;
      ghost var ss, theirs := listed[sym], listed - Nodes(listed[sym].forest);
      ValidIs();
      BaseParts();
      ListedIs(sym);
      CachedApart({sym});
      SetApart(sets, listed, ss);
      RefOne(ss, sym);
      SetBack(sets, theirs, ss);
      assert sets + {ss} == sets;
      WithSetIs(listed, ss);
      BaseAgain();
      ValidIs();
    }

    lemma ListedIs(sym: Symbol)
      requires Base() && sym in listed
      ensures listed[sym] in sets && sym in Nodes(listed[sym].forest) && sym !in pool.home && sym !in entries
    {
      assert sym in pool.outside;
    }

    method RefOne(ghost ss: SymbolSet, sym: Symbol)
      requires ss.Valid() && sym in Nodes(ss.forest) && sym.dataAlloc > 0
      modifies sym`refcnt
      ensures ss.Valid() && sym.refcnt == old(sym.refcnt) + 1
    {
      hide Nodes, Separate, Shape, Linked;
      sym.refcnt := sym.refcnt + 1;
    }

    /** zbar_symbol_set_ref. */
    method RefSet(ss: SymbolSet, refs: nat)
      requires Valid() && ss in sets
      modifies ss`refcnt
      ensures Valid() && ss.refcnt == old(ss.refcnt) + refs
    {
      hide *;
      ValidIs();
      ss.refcnt := ss.refcnt + refs;
      ValidIs();
    }

    // ---------- Sequences of operations ----------

    /** The start of zbar_scan_image. */
    method Begin(img: Image, ghost imgs: set<Image>, now: int)
      requires Valid() && Referenced(imgs) && img in imgs
      modifies this`time, this`syms, this`sets, this`listed, this`held, pool, pool.recycle, listed.Keys, sets, img
      ensures Valid() && Referenced(imgs) && img.syms == syms != null && syms.refcnt == 2 && time == now
      ensures Allocated() == old(Allocated()) && fresh(sets - old(sets))
    {
      hide *;
      ValidIs();
      time := now;
      ValidIs();
      RecycleImage(img, imgs);
      ghost var all := Allocated();
      TakeSet(img, imgs);
      assert Allocated() == all;
    }

    /** symbol_handler: a decoder reports the data that it has found. Nothing happens when the result
        set lists it already. */
    method Report(symType: int, data: seq<int>)
      requires Valid() && syms != null
      modifies this, pool, pool.recycle, pool.home.Keys, entries, listed.Keys`next
      modifies syms
      ensures Valid() && sets == old(sets) && syms == old(syms) && syms.refcnt == old(syms.refcnt)
      ensures hand == old(hand) && held == old(held)
      ensures old(Allocated()) <= Allocated() && fresh(Allocated() - old(Allocated()))
      ensures enableCache == old(enableCache) && time == old(time)
      ensures if symType > ZBAR_PARTIAL && symType != ZBAR_QRCODE &&
                 !old(InList(Roots(syms.forest), symType, data)) then
                exists sym, count ::
                  Reported(sym, count, symType, data, old(listed), old(syms.added), old(history),
                           old(EntriesOf(entries)))
              else
                listed == old(listed) && syms.added == old(syms.added) && history == old(history)
    {
      hide *;
      if symType <= ZBAR_PARTIAL || symType == ZBAR_QRCODE {
        return;
      }
      ValidIs();
      BaseParts();
      SetApart(sets, listed, syms);
      SetMeans(syms);
      LinkedRoots(syms.forest);
      var dup := FindListed(syms.head, Roots(syms.forest), symType, data);
      if dup {
        return;
      }
      label Searched:
      var sym := ReportNew(symType, data);
      forall s | s in Allocated() && s !in old(Allocated())
        ensures fresh(s)
      {
        assert fresh@Searched(s);
      }
      assert Reported(sym, sym.cacheCount, symType, data, old(listed), old(syms.added), old(history),
               old(EntriesOf(entries)));
    }

    /** A new symbol is listed, with the count that the cache gives it. */
    ghost predicate Reported(sym: Symbol, count: int, symType: int, data: seq<int>, listed0: map<Symbol, SymbolSet>,
                             added0: seq<(Symbol, int)>, history0: seq<Sighting>, entries0: seq<Entry>)
      requires syms != null
      reads this, syms, sym
    {
      && listed.Keys == listed0.Keys + {sym} && sym !in listed0 && Matches(sym, symType, data)
      && syms.added == added0 + [(sym, count)]
      && history == history0 + (if enableCache then [Sighting(Key(symType, data), time)] else [])
      && count == if enableCache then SightCount(entries0, Key(symType, data), time, uncertainty(symType)) else 0
    }

    method ReportNew(symType: int, data: seq<int>) returns (sym: Symbol)
      requires Valid() && syms != null
      modifies this, pool, pool.recycle, pool.home.Keys, entries, listed.Keys`next
      modifies syms
      ensures Valid() && sets == old(sets) && syms == old(syms) && syms.refcnt == old(syms.refcnt)
      ensures hand == old(hand) && held == old(held)
      ensures old(Allocated()) <= Allocated() && fresh(Allocated() - old(Allocated()))
      ensures enableCache == old(enableCache) && time == old(time)
      ensures Reported(sym, sym.cacheCount, symType, data, old(listed), old(syms.added), old(history),
                old(EntriesOf(entries)))
    {
      hide *;
      ValidIs();
      sym := AllocSym(symType, |data| + 1);
      ValidIs();
      InHand(sym);
      ghost var all := Allocated();
      ghost var es := EntriesOf(entries);
      sym.data := data;
      assert Allocated() == all && EntriesOf(entries) == es;
      NewTree(sym);
      KeyIs(sym);
      CountMeans(sym);
      label Filled:
      AddSym(sym, Nil);
      ReportedIs(sym, symType, data, old(listed), old(syms.added), old(history), old(EntriesOf(entries)));
      forall s | s in Allocated() && s !in old(Allocated()) && s !in all
        ensures fresh(s)
      {
        assert fresh@Filled(s);
      }
    }

    lemma ReportedIs(sym: Symbol, symType: int, data: seq<int>, listed0: map<Symbol, SymbolSet>,
                     added0: seq<(Symbol, int)>, history0: seq<Sighting>, entries0: seq<Entry>)
      requires syms != null && listed.Keys == listed0.Keys + {sym} + {} && sym !in listed0
      requires sym.symType == symType && sym.datalen == |data| && sym.data == data
      requires syms.added == added0 + [(sym, sym.cacheCount)]
      requires history == if enableCache then history0 + [Sighting(Key(symType, data), time)] else history0
      requires sym.cacheCount ==
               if enableCache then SightCount(entries0, Key(symType, data), time, uncertainty(symType)) else 0
      ensures Reported(sym, sym.cacheCount, symType, data, listed0, added0, history0, entries0)
    {}

    /** A chain of symbols for the codes of a group (qrcode/src/qrcode/qrdectxt.c:178-197), with one
        placeholder for each stretch of codes that are missing. */
    method TakeChain(read: seq<bool>) returns (head: Symbol?, ghost list: seq<Symbol>)
      requires Valid()
      modifies this`hand, pool, pool.recycle, pool.home.Keys
      ensures Valid() && InChain(head, list)
      ensures hand == old(hand) + Elements(list) && Elements(list) !! old(hand)
      ensures forall k :: 0 <= k < |list| ==> fresh(list[k])
      ensures pool.home.Keys == old(pool.home.Keys) && old(Allocated()) <= Allocated()
      ensures forall s :: s in Allocated() && s !in old(Allocated()) ==> fresh(s)
      ensures EntriesOf(entries) == old(EntriesOf(entries)) && HaveTypes(list, ChainTypes(read), time)
    {
      hide *;
      head, list := null, [];
      EmptyChain();
      NoTypes(time);
      var last: Symbol? := null;
      var j: nat := 0;
      assert read[..0] == [];
      while j < |read|
        invariant j <= |read| && (0 < j < |read| ==> read[j - 1])
        invariant last == (if list == [] then null else list[|list| - 1]) && Valid() && InChain(head, list)
        invariant hand == old(hand) + Elements(list) && Elements(list) !! old(hand)
        invariant forall k :: 0 <= k < |list| ==> fresh(list[k])
        invariant pool.home.Keys == old(pool.home.Keys) && old(Allocated()) <= Allocated()
        invariant forall s :: s in Allocated() && s !in old(Allocated()) ==> fresh(s)
        invariant EntriesOf(entries) == old(EntriesOf(entries)) && HaveTypes(list, ChainTypes(read[..j]), time)
      {
        label Before:
        ghost var all := Allocated();
        ghost var before := list;
        head, last, j, list := TakeTurn(read, j, head, last, list);
        PrefixElements(before, list);
        forall s | s in Allocated() && s !in all
          ensures fresh(s)
        {
          assert fresh@Before(s);
        }
      }
      assert read[..|read|] == read;
    }

    /** One turn of the loop: a symbol for code j or, when it is missing, a placeholder, and then one for
        the next code that is there. */
    method TakeTurn(read: seq<bool>, j0: nat, head: Symbol?, last: Symbol?, ghost list: seq<Symbol>)
      returns (first: Symbol, end: Symbol, j: nat, ghost more: seq<Symbol>)
      requires Valid() && InChain(head, list) && last == (if list == [] then null else list[|list| - 1])
      requires Elements(list) <= hand && j0 < |read| && (j0 > 0 ==> read[j0 - 1])
      requires HaveTypes(list, ChainTypes(read[..j0]), time)
      modifies this`hand, pool, pool.recycle, pool.home.Keys, list`next
      ensures Valid() && InChain(first, more) && list <= more && more != [] && end == more[|more| - 1]
      ensures forall k :: |list| <= k < |more| ==> fresh(more[k])
      ensures hand == old(hand) + Elements(more) && Elements(more) !! old(hand) - Elements(list)
      ensures pool.home.Keys == old(pool.home.Keys)
      ensures old(Allocated()) <= Allocated() && forall s :: s in Allocated() && s !in old(Allocated()) ==> fresh(s)
      ensures j0 < j <= |read| && (j < |read| ==> read[j - 1])
      ensures EntriesOf(entries) == old(EntriesOf(entries)) && HaveTypes(more, ChainTypes(read[..j]), time)
    {
      hide *;
      j := j0;
      NextType(read, j);
      first, end := TakeOne(head, last, list, ChainTypes(read[..j]), !read[j]);
      more := list + [end];
      j := j + 1;
      if !read[j0] {
        j := SkipMissing(read, j);
        if j < |read| {
          label Missing:
          ghost var all := Allocated();
          NextType(read, j);
          first, end := TakeOne(first, end, more, ChainTypes(read[..j]), false);
          more := more + [end];
          forall s | s in Allocated() && s !in all
            ensures fresh(s)
          {
            assert fresh@Missing(s);
          }
          j := j + 1;
        }
      }
    }

    /** The codes that are missing from j on. */
    static method SkipMissing(read: seq<bool>, j0: nat) returns (j: nat)
      requires 0 < j0 <= |read| && !read[j0 - 1]
      ensures j0 <= j <= |read| && !read[j - 1] && (j < |read| ==> read[j])
      ensures ChainTypes(read[..j]) == ChainTypes(read[..j0])
    {
      j := j0;
      while j < |read| && !read[j]
        invariant j0 <= j <= |read| && !read[j - 1] && ChainTypes(read[..j]) == ChainTypes(read[..j0])
      {
        NextType(read, j);
        j := j + 1;
      }
    }

    method TakeOne(head: Symbol?, last: Symbol?, ghost list: seq<Symbol>, ghost types: seq<int>, missing: bool)
      returns (first: Symbol, sym: Symbol)
      requires Valid() && InChain(head, list) && last == (if list == [] then null else list[|list| - 1])
      requires Elements(list) <= hand && HaveTypes(list, types, time)
      modifies this`hand, pool, pool.recycle, pool.home.Keys, list`next
      ensures Valid() && InChain(first, list + [sym]) && fresh(sym)
      ensures hand == old(hand) + {sym} && sym !in old(hand) && pool.home.Keys == old(pool.home.Keys)
      ensures Elements(list + [sym]) == Elements(list) + {sym}
      ensures old(Allocated()) <= Allocated() && fresh(Allocated() - old(Allocated()))
      ensures EntriesOf(entries) == old(EntriesOf(entries))
      ensures HaveTypes(list + [sym], types + [if missing then ZBAR_PARTIAL else ZBAR_QRCODE], time)
    {
      hide *;
      ValidIs();
      InHandAll(Elements(list));
      InElements(list);
      assert InChain(head, list) && HaveTypes(list, types, time);
      sym := NewCode(missing);
      assert InChain(head, list) && HaveTypes(list, types, time);
      MoreTypes(list, types, sym, time);
      MoreElements(list, sym);
      ghost var now, es := Allocated(), EntriesOf(entries);
      ValidIs();
      InHandAll(Elements(list));
      InElements(list);
      HandApart(list);
      assert Valid() && sym !in list && HaveTypes(list + [sym], types + [sym.symType], time);
      first := Append(head, last, sym, list);
      assert Valid() && Allocated() == now && EntriesOf(entries) == es;
      assert HaveTypes(list + [sym], types + [sym.symType], time);
    }

    /** A new symbol for a code, or a placeholder, which is only partial. */
    method NewCode(missing: bool) returns (sym: Symbol)
      requires Valid()
      modifies this`hand, pool, pool.recycle, pool.home.Keys
      ensures Valid() && EntriesOf(entries) == old(EntriesOf(entries)) && fresh(sym)
      ensures hand == old(hand) + {sym} && sym !in old(hand) && pool.home.Keys == old(pool.home.Keys)
      ensures old(Allocated()) <= Allocated() && fresh(Allocated() - old(Allocated()))
      ensures sym.symType == (if missing then ZBAR_PARTIAL else ZBAR_QRCODE) && sym.time == time
      ensures Lone(sym) && sym.next == null
    {
      hide *;
      ValidIs();
      sym := AllocSym(ZBAR_QRCODE, 0);
      LoneIs(sym);
      ValidIs();
      InHand(sym);
      ghost var all, es := Allocated(), EntriesOf(entries);
      if missing {
        sym.symType := ZBAR_PARTIAL;
      }
      assert Valid() && Allocated() == all && EntriesOf(entries) == es;
      LoneIs(sym);
    }

    /** Symbols in hand are in no other place. */
    lemma HandApart(list: seq<Symbol>)
      requires Base() && Elements(list) <= hand
      ensures forall k :: 0 <= k < |list| ==>
                list[k] !in pool.home.Keys && list[k] !in listed.Keys && list[k] !in entries
    {
      forall k | 0 <= k < |list|
        ensures list[k] !in pool.home.Keys && list[k] !in listed.Keys && list[k] !in entries
      {
        assert list[k] in pool.outside;
      }
    }

    method Append(head: Symbol?, last: Symbol?, sym: Symbol, ghost list: seq<Symbol>) returns (first: Symbol)
      requires InChain(head, list) && last == (if list == [] then null else list[|list| - 1])
      requires sym !in list && sym.next == null && Lone(sym)
      modifies list`next
      ensures InChain(first, list + [sym])
    {
      hide Lone;
      first := sym;
      if last != null {
        last.next := sym;
        first := head;
      }
      forall k | 0 <= k <= |list|
        ensures (list + [sym])[k].next == At(list + [sym], k + 1)
      {
        if k + 1 < |list| {
          assert list[k].next == At(list, k + 1);
        }
      }
    }

    /** The end of the QR text decoder (qrcode/src/qrcode/qrdectxt.c:387-440): a group of codes is
        listed as one symbol with one text, or recycled when a text could not be converted. */
    method Group(read: seq<bool>, text: seq<int>, failed: bool) returns (ghost list: seq<Symbol>)
      requires Valid() && syms != null
      modifies this, pool, pool.recycle, pool.home.Keys, entries, listed.Keys`next
      modifies syms
      ensures Valid() && sets == old(sets) && syms == old(syms) && syms.refcnt == old(syms.refcnt)
      ensures hand == old(hand) && held == old(held)
      ensures forall s :: s in Allocated() && s !in old(Allocated()) ==> fresh(s)
      ensures old(Allocated()) <= Allocated() && |list| == |ChainTypes(read)| && Distinct(list)
      ensures if failed then
                && listed == old(listed) && history == old(history)
                && pool.home.Keys == old(pool.home.Keys) + Elements(list)
              else
                exists sym :: IsGroup(sym, |read|, list) && HaveTypes(list, ChainTypes(read), time) &&
                  CodeListed(sym, if false in read then ZBAR_PARTIAL else ZBAR_QRCODE, text, list,
                      old(listed), old(syms.added), old(history), old(EntriesOf(entries)))
    {
      hide *;
      var head;
      head, list := TakeChain(read);
      TypesOf(read);
      SameLength(list, ChainTypes(read), time);
      ChainForest(head, list);
      InElements(list);
      assert Elements(list) - Elements(list) == {};
      if failed {
        ghost var home, outside := pool.home, pool.outside;
        RecycleHand(head, Flat(list));
        GotKeys(pool.home, pool.outside, home, outside, Elements(list));
        return;
      }
      ghost var all := Allocated();
      label Chained:
      if |read| == 1 {
        ListCode(head, list, ChainTypes(read), text);
      } else {
        ListGroup(head, |read|, list, ChainTypes(read), text);
      }
      forall s | s in Allocated() && s !in all
        ensures fresh(s)
      {
        assert fresh@Chained(s);
      }
    }

    /** A code with this text is listed, with the count that the cache gives it; the codes of its
        group become known with it. */
    ghost predicate CodeListed(sym: Symbol, symType: int, text: seq<int>, list: seq<Symbol>,
                               listed0: map<Symbol, SymbolSet>, added0: seq<(Symbol, int)>,
                               history0: seq<Sighting>, entries0: seq<Entry>)
      requires syms != null
      reads this, syms, sym
    {
      && listed.Keys == listed0.Keys + {sym} + Elements(list) && sym !in listed0
      && sym.symType == symType && sym.time == time && sym.data == text && sym.datalen == |text|
      && syms.added == added0 + [(sym, sym.cacheCount)]
      && history == history0 + (if enableCache then [Sighting(Key(symType, text), time)] else [])
      && sym.cacheCount ==
         if enableCache then SightCount(entries0, Key(symType, text), time, uncertainty(symType)) else 0
    }

    method ListCode(sym: Symbol, ghost list: seq<Symbol>, ghost types: seq<int>, text: seq<int>)
      requires Valid() && syms != null && sym in hand && Lone(sym) && sym.next == null
      requires list == [sym] && |types| == 1 && HaveTypes(list, types, time)
      modifies this, pool, pool.recycle, pool.home.Keys, entries, listed.Keys`next, sym
      modifies syms
      ensures Valid() && sets == old(sets) && syms == old(syms) && syms.refcnt == old(syms.refcnt)
      ensures hand == old(hand) - {sym} && held == old(held) && time == old(time)
      ensures old(Allocated()) <= Allocated() && fresh(Allocated() - old(Allocated()))
      ensures IsGroup(sym, 1, list) && HaveTypes(list, types, time)
      ensures CodeListed(sym, types[0], text, list, old(listed), old(syms.added), old(history),
                old(EntriesOf(entries)))
    {
      hide *;
      LoneIs(sym);
      NewTree(sym);
      TypeAt(list, types, 0, time);
      OneElement(sym);
      ghost var all, es := Allocated(), EntriesOf(entries);
      ValidIs();
      InHand(sym);
      Fill(sym, Nil, text);
      assert Allocated() == all && EntriesOf(entries) == es && HaveTypes(list, types, time);
      label Filled:
      ListFilled(sym, Nil, list, types, text);
      GroupIs(sym, 1, list);
      forall s | s in Allocated() && s !in all
        ensures fresh(s)
      {
        assert fresh@Filled(s);
      }
    }

    method ListGroup(head: Symbol?, n: nat, ghost list: seq<Symbol>, ghost types: seq<int>, text: seq<int>)
      requires Valid() && syms != null && Elements(list) <= hand && InChain(head, list) && n != 1
      requires HaveTypes(list, types, time)
      modifies this, pool, pool.recycle, pool.home.Keys, entries, listed.Keys`next, Elements(list)
      modifies syms
      ensures Valid() && sets == old(sets) && syms == old(syms) && syms.refcnt == old(syms.refcnt)
      ensures hand == old(hand) - Elements(list) && held == old(held)
      ensures old(Allocated()) <= Allocated() && forall s :: s in Allocated() && s !in old(Allocated()) ==> fresh(s)
      ensures exists sym :: IsGroup(sym, n, list) && HaveTypes(list, types, time) &&
                CodeListed(sym, if ZBAR_PARTIAL in types then ZBAR_PARTIAL else ZBAR_QRCODE, text, list,
                    old(listed), old(syms.added), old(history), old(EntriesOf(entries)))
    {
      hide *;
      ChainForest(head, list);
      ValidIs();
      InHandAll(Elements(list));
      InElements(list);
      assert InChain(head, list) && HaveTypes(list, types, time);
      var sym := AllocSym(ZBAR_QRCODE, 0);
      assert InChain(head, list) && HaveTypes(list, types, time);
      ghost var all := Allocated();
      Contain(sym, head, list, types, text);
      label Filled:
      ListFilled(sym, Flat(list), list, types, text);
      GroupIs(sym, n, list);
      forall s | s in Allocated() && s !in all
        ensures fresh(s)
      {
        assert fresh@Filled(s);
      }
    }

    /** A new symbol becomes the container of a chain and gets the text. */
    method Contain(sym: Symbol, head: Symbol?, ghost list: seq<Symbol>, ghost types: seq<int>, text: seq<int>)
      requires Valid() && sym in hand && Elements(list) <= hand - {sym} && InChain(head, list)
      requires sym.symType == ZBAR_QRCODE && sym.refcnt == 0 && sym.next == null && sym.dataAlloc == 0
      requires HaveTypes(list, types, time)
      modifies sym, Elements(list)`refcnt
      ensures Valid() && EntriesOf(entries) == old(EntriesOf(entries)) && Allocated() == old(Allocated())
      ensures WellLinked(Cons(sym, Flat(list), Nil)) && Nodes(Flat(list)) == Elements(list)
      ensures HaveTypes(list, types, time) && Linked(list)
      ensures sym.composite && sym.parts == At(list, 0) && sym.refcnt == 0 && sym.time == old(sym.time)
      ensures sym.data == text && sym.datalen == |text|
      ensures sym.symType == if ZBAR_PARTIAL in types then ZBAR_PARTIAL else ZBAR_QRCODE
    {
      hide *;
      ghost var f, all, es := Flat(list), Allocated(), EntriesOf(entries);
      ChainForest(head, list);
      ValidIs();
      InHandAll(Elements(list) + {sym});
      InElements(list);
      ChainIs(head, list);
      assert HaveTypes(list, types, time) && Linked(list);
      Compose(sym, head, f);
      assert HaveTypes(list, types, time) && Linked(list);
      PartialType(list, types, time);
      Fill(sym, f, text);
      assert Allocated() == all && EntriesOf(entries) == es && HaveTypes(list, types, time) && Linked(list);
    }

    /** A symbol in hand that has got its text is listed with its components. */
    method ListFilled(sym: Symbol, ghost parts: Forest, ghost list: seq<Symbol>, ghost types: seq<int>, text: seq<int>)
      requires Valid() && syms != null && {sym} + Nodes(parts) <= hand && WellLinked(Cons(sym, parts, Nil))
      requires {sym} + Nodes(parts) == {sym} + Elements(list) && sym.refcnt == 0
      requires sym.time == time && sym.data == text && sym.datalen == |text| && HaveTypes(list, types, time)
      modifies this, pool, pool.recycle, pool.home.Keys, entries, listed.Keys`next, sym`next, sym`refcnt, sym`cacheCount
      modifies syms
      ensures Valid() && sets == old(sets) && syms == old(syms) && syms.refcnt == old(syms.refcnt)
      ensures hand == old(hand) - ({sym} + Nodes(parts)) && held == old(held) && time == old(time)
      ensures old(Allocated()) <= Allocated() && fresh(Allocated() - old(Allocated()))
      ensures sym.composite == old(sym.composite) && sym.parts == old(sym.parts) && HaveTypes(list, types, time)
      ensures old(Linked(list)) && sym !in list ==> Linked(list)
      ensures CodeListed(sym, old(sym.symType), text, list, old(listed), old(syms.added), old(history),
                old(EntriesOf(entries)))
    {
      hide *;
      ghost var linked, symType := Linked(list) && sym !in list, sym.symType;
      ValidIs();
      InHandAll({sym} + Nodes(parts));
      InElements(list);
      assert Elements(list) <= {sym} + Nodes(parts);
      HandApart(list);
      KeyIs(sym);
      CountMeans(sym);
      AddSym(sym, parts);
      assert HaveTypes(list, types, time) && (linked ==> Linked(list));
      CodeListedIs(sym, symType, text, list, old(listed), old(syms.added), old(history), old(EntriesOf(entries)));
    }

    lemma CodeListedIs(sym: Symbol, symType: int, text: seq<int>, list: seq<Symbol>, listed0: map<Symbol, SymbolSet>,
                       added0: seq<(Symbol, int)>, history0: seq<Sighting>, entries0: seq<Entry>)
      requires syms != null && listed.Keys == listed0.Keys + ({sym} + Elements(list)) && sym !in listed0
      requires sym.symType == symType && sym.time == time && sym.datalen == |text| && sym.data == text
      requires syms.added == added0 + [(sym, sym.cacheCount)]
      requires history == if enableCache then history0 + [Sighting(Key(symType, text), time)] else history0
      requires sym.cacheCount ==
               if enableCache then SightCount(entries0, Key(symType, text), time, uncertainty(symType)) else 0
      ensures CodeListed(sym, symType, text, list, listed0, added0, history0, entries0)
    {}

    /** The text of a group. */
    method Fill(sym: Symbol, ghost parts: Forest, text: seq<int>)
      requires Valid() && sym in hand && WellLinked(Cons(sym, parts, Nil))
      modifies sym`data, sym`hasData, sym`dataAlloc, sym`datalen
      ensures Valid() && WellLinked(Cons(sym, parts, Nil))
      ensures sym.data == text && sym.datalen == |text| && sym.dataAlloc == |text| + 1 && sym.hasData
    {
      hide Valid, Base, Nodes, Separate, Shape, Linked;
      ValidIs();
      InHand(sym);
      sym.data, sym.hasData, sym.dataAlloc, sym.datalen := text, true, |text| + 1, |text|;
      assert Valid();
    }

    method FindListed(head: Symbol?, ghost list: seq<Symbol>, symType: int, data: seq<int>) returns (dup: bool)
      requires Linked(list) && head == At(list, 0)
      ensures dup == old(InList(list, symType, data))
    {
      var sym := head;
      ghost var k := 0;
      while sym != null
        invariant k <= |list| && sym == At(list, k)
        invariant forall j :: 0 <= j < k ==> !Matches(list[j], symType, data)
        decreases |list| - k
      {
        if Matches(sym, symType, data) {
          return true;
        }
        sym := sym.next;
        k := k + 1;
      }
      return false;
    }

    /** zbar_symbol_ref on result n, as zbar_symbol_set_first_symbol and zbar_symbol_next find it in the
        whole list. The source asserts that such a symbol owns its data. */
    method Refer(n: nat)
      requires Valid() && syms != null
      modifies listed.Keys`refcnt
      ensures Valid()
      ensures var list := Roots(syms.forest);
              n < |list| && list[n].dataAlloc > 0 ==> list[n].refcnt == old(list[n].refcnt) + 1
    {
      hide *;
      ValidIs();
      BaseParts();
      SetApart(sets, listed, syms);
      SetMeans(syms);
      LinkedRoots(syms.forest);
      var sym := Walk(syms.head, Roots(syms.forest), n);
      HeadNode(syms.forest, n);
      if sym != null && sym.dataAlloc > 0 {
        RefSymbol(sym);
      }
    }

    method Walk(head: Symbol?, ghost list: seq<Symbol>, n: nat) returns (sym: Symbol?)
      requires Linked(list) && head == At(list, 0)
      ensures sym == At(list, n)
    {
      sym := head;
      var i := 0;
      while i < n && sym != null
        invariant 0 <= i <= n && sym == At(list, i)
      {
        sym := sym.next;
        i := i + 1;
      }
    }

    method ReferSet(ghost imgs: set<Image>)
      requires Valid() && syms != null && syms in sets && Referenced(imgs)
      modifies syms`refcnt
      ensures Valid() && Referenced(imgs) && syms.refcnt == old(syms.refcnt) + 1
    {
      hide Valid, Base, EntriesOf;
      RefSet(syms, 1);
    }

    // ---------- Runs ----------

    /** One operation. What a decoder finds is reported, and results are referred to, only when there
        is a result set. */
    method Step(op: Op, ghost imgs: set<Image>)
      requires Valid() && Referenced(imgs) && (op.Begin? ==> op.img in imgs)
      modifies this, pool, pool.recycle, pool.home.Keys, pool.outside, sets, imgs
      ensures Valid() && Referenced(imgs) && hand == old(hand) && old(Allocated()) <= Allocated()
      ensures forall s :: s in Allocated() && s !in old(Allocated()) ==> fresh(s)
      ensures forall ss :: ss in sets && ss !in old(sets) ==> fresh(ss)
    {
      hide *;
      ValidIs();
      Reach();
      assert Referenced(imgs);
      match op
      case Begin(img, now) =>
        Begin(img, imgs, now);
      case Report(symType, data) =>
        if syms != null {
          Report(symType, data);
        }
      case Group(read, text, failed) =>
        if syms != null {
          ghost var list := Group(read, text, failed);
        }
      case Enable(enable) =>
        EnableCache(enable);
      case Refer(n) =>
        if syms != null {
          Refer(n);
        }
      case ReferSet =>
        if syms != null {
          ReferSet(imgs);
        }
      assert Referenced(imgs);
    }

    lemma Reach()
      requires Base()
      ensures forall s: object :: s in entries || s in listed.Keys ==> s in pool.outside
      ensures syms != null ==> syms in sets
    {}

    /** Over every run, on any images and with the application taking references at any time, every
        symbol ever allocated stays in exactly one place, and the cache is the one that the
        sightings ask for. */
    method Run(ops: seq<Op>, ghost imgs: set<Image>)
      requires Valid() && Referenced(imgs) && forall op :: op in ops && op.Begin? ==> op.img in imgs
      modifies this, pool, pool.recycle, pool.home.Keys, pool.outside, sets, imgs
      ensures Valid() && Referenced(imgs) && hand == old(hand) && old(Allocated()) <= Allocated()
      ensures Allocated() == pool.home.Keys + InResults() + Elements(entries) + hand + WithApplication()
      ensures pool.home.Keys !! InResults() !! Elements(entries) !! hand !! WithApplication()
      ensures EntriesOf(entries) == RunCache(history, uncertainty)
    {
      hide *;
      AllocatedIs();
      for i := 0 to |ops|
        invariant Valid() && Referenced(imgs) && hand == old(hand) && old(Allocated()) <= Allocated()
        invariant forall s :: s in Allocated() && s !in old(Allocated()) ==> fresh(s)
        invariant forall ss :: ss in sets && ss !in old(sets) ==> fresh(ss)
      {
        AllocatedIs();
        Step(ops[i], imgs);
      }
      OnePlace();
      ValidIs();
    }
  }

  /** A chain of symbols that nothing refers to. */
  ghost predicate InChain(head: Symbol?, list: seq<Symbol>)
    reads list`next, list`refcnt, list`composite, list`parts, list`dataAlloc, list`hasData
  {
    head == At(list, 0) && Linked(list) && Distinct(list) && AllLone(list)
  }

  /** The types of the symbols for a group of codes: one for each code that was read, and one partial
      symbol for each stretch of codes that are missing. */
  ghost function ChainTypes(read: seq<bool>): seq<int> {
    if read == [] then []
    else
      var k := |read| - 1;
      ChainTypes(read[..k]) + if read[k] then [ZBAR_QRCODE] else if k > 0 && !read[k - 1] then [] else [ZBAR_PARTIAL]
  }

  lemma NextType(read: seq<bool>, j: nat)
    requires j < |read|
    ensures ChainTypes(read[..j + 1]) == ChainTypes(read[..j]) +
            if read[j] then [ZBAR_QRCODE] else if j > 0 && !read[j - 1] then [] else [ZBAR_PARTIAL]
  {
    assert read[..j + 1][..j] == read[..j];
  }

  /** How many codes were read. */
  ghost function ReadOnes(read: seq<bool>): nat {
    if read == [] then 0 else ReadOnes(read[..|read| - 1]) + if read[|read| - 1] then 1 else 0
  }

  ghost function Ones(types: seq<int>, t: int): nat {
    if types == [] then 0 else Ones(types[..|types| - 1], t) + if types[|types| - 1] == t then 1 else 0
  }

  /** Nothing but codes and placeholders; no two placeholders stand together, there is one exactly when
      a code is missing, and there are as many codes as were read. */
  lemma {:induction false} TypesOf(read: seq<bool>)
    ensures var ts := ChainTypes(read);
            && (forall k :: 0 <= k < |ts| ==> ts[k] == ZBAR_QRCODE || ts[k] == ZBAR_PARTIAL)
            && (forall k :: 0 < k < |ts| ==> ts[k - 1] == ZBAR_QRCODE || ts[k] == ZBAR_QRCODE)
            && (ZBAR_PARTIAL in ts <==> false in read) && Ones(ts, ZBAR_QRCODE) == ReadOnes(read)
            && (ts == [] <==> read == [])
            && (read != [] ==> (ts[|ts| - 1] == ZBAR_QRCODE <==> read[|read| - 1]))
            && (|read| == 1 ==> ts == [if read[0] then ZBAR_QRCODE else ZBAR_PARTIAL])
  {
    hide ChainTypes, Ones, ReadOnes;
    NoTypesAtAll();
    if read == [] {
    } else {
      var k := |read| - 1;
      TypesOf(read[..k]);
      NextType(read, k);
      assert read[..k + 1] == read == read[..k] + [read[k]];
      var ts := ChainTypes(read[..k]);
      assert ts + [] == ts;
      OneMore(ts, ZBAR_QRCODE);
      OneMore(ts, ZBAR_PARTIAL);
      OneMoreRead(read);
      if k == 0 {
        assert read[..0] == [];
      }
    }
  }

  lemma NoTypesAtAll()
    ensures ChainTypes([]) == [] && Ones([], ZBAR_QRCODE) == 0 && ReadOnes([]) == 0
  {}

  lemma OneMore(ts: seq<int>, t: int)
    ensures Ones(ts + [t], ZBAR_QRCODE) == Ones(ts, ZBAR_QRCODE) + if t == ZBAR_QRCODE then 1 else 0
  {
    assert (ts + [t])[..|ts|] == ts;
  }

  lemma OneMoreRead(read: seq<bool>)
    requires read != []
    ensures ReadOnes(read) == ReadOnes(read[..|read| - 1]) + if read[|read| - 1] then 1 else 0
  {}

  /** Symbols of these types, found at this time. */
  ghost predicate HaveTypes(list: seq<Symbol>, types: seq<int>, time: int)
    reads list`symType, list`time
  {
    |list| == |types| && forall k :: 0 <= k < |list| ==> list[k].symType == types[k] && list[k].time == time
  }

  lemma NoTypes(time: int)
    ensures HaveTypes([], ChainTypes([]), time)
  {}

  lemma MoreTypes(list: seq<Symbol>, types: seq<int>, sym: Symbol, time: int)
    requires HaveTypes(list, types, time) && sym.time == time
    ensures HaveTypes(list + [sym], types + [sym.symType], time)
  {}

  lemma SameLength(list: seq<Symbol>, types: seq<int>, time: int)
    requires HaveTypes(list, types, time)
    ensures |list| == |types|
  {}

  lemma TypeAt(list: seq<Symbol>, types: seq<int>, k: nat, time: int)
    requires HaveTypes(list, types, time) && k < |list|
    ensures k < |types| && list[k].symType == types[k] && list[k].time == time
  {}

  ghost predicate HasPartial(list: seq<Symbol>)
    reads list`symType
  {
    exists s :: s in list && s.symType == ZBAR_PARTIAL
  }

  lemma PartialType(list: seq<Symbol>, types: seq<int>, time: int)
    requires HaveTypes(list, types, time)
    ensures HasPartial(list) <==> ZBAR_PARTIAL in types
  {}

  /** A single code is the symbol itself; otherwise the symbol is a container of exactly these symbols. */
  ghost predicate IsGroup(sym: Symbol, n: nat, list: seq<Symbol>)
    reads sym, list`next
  {
    if n == 1 then list == [sym] && !sym.composite
    else sym.composite && sym !in list && sym.parts == At(list, 0) && Linked(list)
  }

  lemma GroupIs(sym: Symbol, n: nat, list: seq<Symbol>)
    requires if n == 1 then list == [sym] && !sym.composite
             else sym.composite && sym !in list && sym.parts == At(list, 0) && Linked(list)
    ensures IsGroup(sym, n, list)
  {}

  lemma OneElement(sym: Symbol)
    ensures Elements([sym]) == {sym} && Nodes(Nil) == {}
  {}

  lemma ChainIs(head: Symbol?, list: seq<Symbol>)
    requires InChain(head, list)
    ensures Linked(list)
  {}

  lemma EmptyChain()
    ensures InChain(null, []) && Elements([]) == {}
  {}

  lemma InElements(list: seq<Symbol>)
    ensures forall s: object :: s in list <==> s in Elements(list)
  {}

  lemma PrefixElements(list: seq<Symbol>, more: seq<Symbol>)
    requires list <= more
    ensures Elements(list) <= Elements(more)
  {}

  lemma MoreElements(list: seq<Symbol>, sym: Symbol)
    ensures Elements(list + [sym]) == Elements(list) + {sym}
  {}

  lemma ChainForest(head: Symbol?, list: seq<Symbol>)
    requires InChain(head, list)
    ensures WellLinked(Flat(list)) && head == At(Roots(Flat(list)), 0) && head == At(list, 0)
    ensures Nodes(Flat(list)) == Elements(list) && Freed(Flat(list)) == Elements(list)
    ensures forall s :: s in Roots(Flat(list)) ==> s.refcnt == 0
    ensures Distinct(list) && Roots(Flat(list)) == list
    ensures |list| == 1 ==> head == list[0] && Lone(list[0]) && list[0].next == null && Elements(list) == {list[0]}
  {
    hide WellLinked, Freed;
    FlatList(list);
  }

  lemma LoneIs(s: Symbol)
    ensures Lone(s) <==> s.refcnt == 0 && !s.composite && s.parts == null && (s.dataAlloc > 0 ==> s.hasData)
  {}

  lemma LinkedRoots(f: Forest)
    requires WellLinked(f)
    ensures Linked(Roots(f))
  {}

  lemma EntryAt(list: seq<Symbol>, i: nat)
    requires Linked(list) && i < |list|
    ensures list[i].next == At(list, i + 1)
  {}

  lemma {:induction false} EntriesWithout(list: seq<Symbol>, i: nat)
    requires i < |list|
    ensures EntriesOf(Without(list, i)) == Without(EntriesOf(list), i)
    ensures KeysDistinct(EntriesOf(list)) ==> KeysDistinct(Without(EntriesOf(list), i))
  {
    hide KeysDistinct;
    KeysWithout(EntriesOf(list), i);
    if i == 0 {
      assert Without(list, 0) == list[1..];
    } else {
      EntriesWithout(list[1..], i - 1);
      assert Without(list, i)[1..] == Without(list[1..], i - 1);
    }
  }

  lemma KeysWithout(es: seq<Entry>, i: nat)
    requires i < |es|
    ensures KeysDistinct(es) ==> KeysDistinct(Without(es, i))
  {}

  lemma DistinctWithout(list: seq<Symbol>, i: nat)
    requires Distinct(list) && i < |list|
    ensures Distinct(Without(list, i)) && Elements(Without(list, i)) == Elements(list) - {list[i]}
  {
    forall s | s in list && s != list[i]
      ensures s in Without(list, i)
    {
      var j :| 0 <= j < |list| && list[j] == s;
      assert Without(list, i)[if j < i then j else j - 1] == s;
    }
  }

  lemma LoneTree(sym: Symbol)
    requires Cacheable(sym) && sym.next == null
    ensures WellLinked(Cons(sym, Nil, Nil)) && Nodes(Cons(sym, Nil, Nil)) == {sym}
    ensures Freed(Cons(sym, Nil, Nil)) == {sym} && Counts({sym}, map[sym := 0])
    ensures At(Roots(Cons(sym, Nil, Nil)), 0) == sym
  {}

  lemma KeyIs(s: Symbol)
    ensures KeyOf(s) == Key(s.symType, s.data)
  {}

  /** A lookup that has passed i entries. */
  ghost predicate LookingUp(goal: seq<Entry>, es: seq<Entry>, i: nat, key: Key, time: int) {
    && i <= |es| && goal == es[..i] + Purge(es[i..], key, time)
    && forall j :: 0 <= j < i ==> es[j].key != key
  }

  lemma LookupStart(list: seq<Symbol>, key: Key, time: int, home: map<Symbol, nat>, outside: set<Symbol>)
    ensures LookingUp(Purge(EntriesOf(list), key, time), EntriesOf(list), 0, key, time)
    ensures GotBack(home, outside, home, outside, Elements(list) - Elements(list))
  {
    hide Purge, EntriesOf;
    assert EntriesOf(list)[0..] == EntriesOf(list);
  }

  lemma LookingDrop(goal: seq<Entry>, es: seq<Entry>, i: nat, key: Key, time: int)
    requires LookingUp(goal, es, i, key, time) && i < |es| && es[i].key != key && time - es[i].time > TIMEOUT
    ensures LookingUp(goal, Without(es, i), i, key, time)
  {
    hide Purge;
    PurgeFrom(es, i, key, time);
    assert Without(es, i)[..i] == es[..i] && Without(es, i)[i..] == es[i + 1..];
  }

  lemma LookingOn(goal: seq<Entry>, es: seq<Entry>, i: nat, key: Key, time: int)
    requires LookingUp(goal, es, i, key, time) && i < |es| && es[i].key != key && time - es[i].time <= TIMEOUT
    ensures LookingUp(goal, es, i + 1, key, time)
  {
    hide Purge;
    PurgeFrom(es, i, key, time);
    assert es[..i] + [es[i]] == es[..i + 1];
  }

  lemma LookingDone(goal: seq<Entry>, es: seq<Entry>, i: nat, key: Key, time: int)
    requires LookingUp(goal, es, i, key, time) && (i < |es| ==> es[i].key == key)
    ensures goal == es && i == Find(es, key)
  {
    hide Purge;
    PurgeFrom(es, i, key, time);
    assert es[..i] + es[i..] == es;
  }

  lemma Dropped(was: seq<Symbol>, now: seq<Symbol>, i: nat)
    requires i < |now| && Distinct(now) && Elements(now) <= Elements(was)
    ensures var left := Without(now, i);
            && Elements(left) <= Elements(now) && (forall s :: s in left ==> s in now)
            && |left| == |now| - 1 && (i > 0 ==> left[i - 1] == now[i - 1])
            && Elements(was) - Elements(now) + {now[i]} == Elements(was) - Elements(left)
  {
    DistinctWithout(now, i);
  }

  /** A new entry in front of the chain. */
  lemma CacheFront(entry: Symbol, was: seq<Symbol>)
    requires Linked(was) && Distinct(was) && AllCacheable(was) && KeysDistinct(EntriesOf(was))
    requires Find(EntriesOf(was), KeyOf(entry)) == |was|
    requires entry !in was && entry.next == At(was, 0) && Cacheable(entry)
    ensures CacheOk(entry, [entry] + was) && EntriesOf([entry] + was) == [EntryOf(entry)] + EntriesOf(was)
    ensures Elements([entry] + was) == Elements(was) + {entry}
  {
    hide EntriesOf, KeysDistinct, Find, Cacheable;
    LinkedFront(entry, was);
    DistinctInsert(was, 0, entry);
    assert Inserted(was, 0, entry) == [entry] + was;
    EntriesFront(entry, was);
    KeysFront(EntryOf(entry), EntriesOf(was));
  }

  lemma KeysFront(e: Entry, es: seq<Entry>)
    requires KeysDistinct(es) && Find(es, e.key) == |es|
    ensures KeysDistinct([e] + es)
  {}

  lemma NewCacheable(s: Symbol)
    requires s.refcnt == 0 && !s.composite && s.parts == null && s.dataAlloc > 0 && s.hasData && s.datalen == |s.data|
    ensures Cacheable(s)
  {}

  lemma NewKey(entry: Symbol, sym: Symbol)
    requires entry.symType == sym.symType && entry.data == sym.data
    ensures KeyOf(entry) == KeyOf(sym) && EntryOf(entry) == Entry(KeyOf(sym), entry.time, entry.cacheCount)
  {}

  lemma EntriesFront(entry: Symbol, was: seq<Symbol>)
    ensures EntriesOf([entry] + was) == [EntryOf(entry)] + EntriesOf(was)
  {
    assert ([entry] + was)[1..] == was;
  }

  lemma KeysUpdate(es: seq<Entry>, i: nat, time: int)
    requires KeysDistinct(es) && i < |es|
    ensures forall count :: KeysDistinct(es[i := Entry(es[i].key, time, count)])
  {}

  /** The cache when the entry for a key has been found, or made, and where that entry is. */
  ghost function Found(es: seq<Entry>, key: Key, time: int): seq<Entry> {
    var kept := Purge(es, key, time);
    if Find(kept, key) < |kept| then kept else [Entry(key, time - HYSTERESIS, 0)] + kept
  }

  ghost function FoundAt(es: seq<Entry>, key: Key, time: int): nat {
    var kept := Purge(es, key, time);
    if Find(kept, key) < |kept| then Find(kept, key) else 0
  }

  lemma FoundIs(es: seq<Entry>, key: Key, time: int)
    ensures var kept := Purge(es, key, time); var i := Find(kept, key);
            && i <= |kept|
            && (i < |kept| ==> kept[i].key == key && Found(es, key, time) == kept && FoundAt(es, key, time) == i)
            && (i == |kept| ==> Found(es, key, time) == [Entry(key, time - HYSTERESIS, 0)] + kept)
            && (i == |kept| ==> FoundAt(es, key, time) == 0)
  {}

  /** The count of a sighting by the entry that a lookup leaves. */
  lemma CountAfterLookup(es: seq<Entry>, key: Key, time: int, u: nat)
    requires KeysDistinct(es)
    ensures var kept := Purge(es, key, time); var i := Find(kept, key);
            SightCount(es, key, time, u) ==
            if i < |kept| then Counted(kept[i].count, time - kept[i].time, u) else Start(u)
  {
    hide Counted, Purge, SightCount, Sight, Replaced, KeysDistinct, Find;
    var kept := Purge(es, key, time);
    var i := Find(kept, key);
    SightReplaces(es, key, time, u);
    PurgeKeeps(es, key, time);
    if i < |kept| {
      assert kept[i] in kept && kept[i] in es;
    }
  }

  /** Finding and counting together are one sighting. */
  lemma SightOf(es: seq<Entry>, key: Key, time: int, u: nat, found: seq<Entry>, i: nat, count: int)
    requires KeysDistinct(es) && found == Found(es, key, time) && i == FoundAt(es, key, time)
    requires count == Counted(found[i].count, time - found[i].time, u)
    ensures found[i := Entry(key, time, count)] == Sight(es, key, time, u) && count == SightCount(es, key, time, u)
  {
    hide Counted, Purge, SightCount, KeysDistinct, Find;
    CountAfterLookup(es, key, time, u);
    CountedBy(0, HYSTERESIS, u);
  }

  lemma RunAppend(history: seq<Sighting>, s: Sighting, uncertainty: int -> nat)
    ensures RunCache(history + [s], uncertainty) ==
              Sight(RunCache(history, uncertainty), s.key, s.time, uncertainty(s.key.symType))
  {
    hide Sight;
    assert (history + [s])[..|history|] == history;
  }

  /** The cache as a list of symbols without components. */
  ghost function Flat(list: seq<Symbol>): Forest {
    if list == [] then Nil else Cons(list[0], Nil, Flat(list[1..]))
  }

  lemma {:induction false} FlatNodes(list: seq<Symbol>)
    ensures Nodes(Flat(list)) == Elements(list) && Inner(Flat(list)) == {}
  {
    hide Roots;
    if list == [] {
    } else {
      FlatNodes(list[1..]);
      assert Elements(list) == {list[0]} + Elements(list[1..]);
    }
  }

  lemma {:induction false} FlatRoots(list: seq<Symbol>)
    ensures Roots(Flat(list)) == list
  {
    hide Nodes;
    if list == [] {
    } else {
      FlatRoots(list[1..]);
      assert list == [list[0]] + list[1..];
    }
  }

  lemma {:induction false} FlatSeparate(list: seq<Symbol>)
    requires Distinct(list)
    ensures Separate(Flat(list))
  {
    if list == [] {
    } else {
      FlatSeparate(list[1..]);
      FlatNodes(list[1..]);
    }
  }

  lemma {:induction false} FlatShape(list: seq<Symbol>)
    requires AllLone(list)
    ensures Shape(Flat(list)) && Freed(Flat(list)) == Elements(list) && Kept(Flat(list)) == {}
  {
    if list == [] {
    } else {
      FlatShape(list[1..]);
      assert Lone(list[0]);
      assert forall s :: s in list <==> s == list[0] || s in list[1..];
    }
  }

  lemma FlatList(list: seq<Symbol>)
    requires Linked(list) && Distinct(list) && AllLone(list)
    ensures WellLinked(Flat(list)) && Nodes(Flat(list)) == Elements(list) && Roots(Flat(list)) == list
    ensures Freed(Flat(list)) == Elements(list)
    ensures Counts(Elements(list), map s | s in list :: s.refcnt)
    ensures forall s :: s in Roots(Flat(list)) ==> s.refcnt == 0
  {
    hide Separate, Shape;
    FlatNodes(list);
    FlatRoots(list);
    FlatSeparate(list);
    FlatShape(list);
  }

  lemma NoEntries()
    ensures CacheOk(null, []) && EntriesOf([]) == [] && Elements([]) == {}
  {}

  /** The reference counts of these symbols. */
  ghost function RefsOf(nodes: set<Symbol>): (refs: map<Symbol, nat>)
    reads nodes`refcnt
    ensures Counts(nodes, refs)
  {
    map s | s in nodes :: s.refcnt
  }

  /** These symbols have one reference less than noted, and others left; they are on no chain. */
  ghost predicate StillReferenced(kept: set<Symbol>, refs: map<Symbol, nat>)
    reads kept`refcnt, kept`next
  {
    kept <= refs.Keys && forall s :: s in kept ==> s.refcnt > 0 && s.refcnt + 1 == refs[s] && s.next == null
  }

  lemma KeptCounts(f: Forest, refs: map<Symbol, nat>)
    requires Counts(Nodes(f), refs)
    ensures forall s :: s in Kept(f) ==> s in refs && refs[s] > 1
  {
    FreedNodes(f);
    KeptReferenced(f);
  }

  lemma KeptOnes(kept: set<Symbol>, refs: map<Symbol, nat>)
    requires Unlinked(kept, refs) && forall s :: s in kept ==> s in refs && refs[s] > 1
    ensures StillReferenced(kept, refs)
  {}

  lemma TreeOf(sym: Symbol, parts: Forest)
    requires WellLinked(Cons(sym, parts, Nil))
    ensures Nodes(Cons(sym, parts, Nil)) == {sym} + Nodes(parts)
  {}

  lemma SetMeans(ss: SymbolSet)
    requires ss.Valid()
    ensures WellLinked(ss.forest) && ss.head == At(Roots(ss.forest), 0)
  {}

  /** Some symbols leave one place for the buckets, or for the application. */
  lemma LeftOver(a: set<Symbol>, b: set<Symbol>, c: set<Symbol>, held: set<Symbol>, nodes: set<Symbol>,
                 gone: set<Symbol>)
    requires a !! b !! c !! held && gone <= nodes <= c
    ensures a !! b !! (c - nodes) !! (held + (nodes - gone))
    ensures a + b + c + held - gone == a + b + (c - nodes) + (held + (nodes - gone))
    ensures c + b + a + held == a + b + c + held && (c - nodes) + b + a == a + b + (c - nodes)
  {}

  lemma GotKeys(home: map<Symbol, nat>, outside: set<Symbol>, home0: map<Symbol, nat>, outside0: set<Symbol>,
                got: set<Symbol>)
    requires GotBack(home, outside, home0, outside0, got)
    ensures home.Keys == home0.Keys + got
  {}

  lemma OutsideNow(home: map<Symbol, nat>, outside: set<Symbol>, home0: map<Symbol, nat>, outside0: set<Symbol>,
                   got: set<Symbol>)
    requires GotBack(home, outside, home0, outside0, got)
    ensures outside == outside0 - got
  {}

  lemma NoNodes(theirs: map<Symbol, SymbolSet>, ss: SymbolSet)
    requires ss.forest == Nil
    ensures Nodes(ss.forest) == {} && WithSet(theirs, ss) == theirs
  {}

  lemma WithSetIs(listed: map<Symbol, SymbolSet>, ss: SymbolSet)
    requires Nodes(ss.forest) <= listed.Keys && forall s :: s in listed ==> (listed[s] == ss <==> s in Nodes(ss.forest))
    ensures WithSet(listed - Nodes(ss.forest), ss) == listed
  {}

  lemma HeadNode(f: Forest, k: nat)
    ensures At(Roots(f), k) == null <==> k >= |Roots(f)|
    ensures k < |Roots(f)| ==> At(Roots(f), k) == Roots(f)[k] && Roots(f)[k] in Nodes(f)
    ensures Linked(Roots(f)) && k < |Roots(f)| ==> Roots(f)[k].next == At(Roots(f), k + 1)
  {}

  lemma ComposedTree(parent: Symbol, f: Forest)
    requires WellLinked(f) && parent !in Nodes(f) && parent.composite && parent.parts == At(Roots(f), 0)
    requires parent.partsRefs == 1
    requires parent.next == null && parent.refcnt == 0 && (parent.dataAlloc > 0 ==> parent.hasData)
    ensures WellLinked(Cons(parent, f, Nil))
  {}

  lemma NewTree(sym: Symbol)
    requires sym.next == null && sym.refcnt == 0 && !sym.composite && sym.parts == null
    requires sym.dataAlloc > 0 ==> sym.hasData
    ensures WellLinked(Cons(sym, Nil, Nil)) && Nodes(Cons(sym, Nil, Nil)) == {sym} && Nodes(Nil) == {}
    ensures At(Roots(Cons(sym, Nil, Nil)), 0) == sym && Lone(sym)
  {}
}
