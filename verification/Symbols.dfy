/**
  The decoded symbols of qrcode/src/symbol.h: objects chained by their next pointers, a composite
  symbol with a chain of components beside it.
 */
module Symbols {
  import opened Sequences

  class Symbol {
    var symType: int
    /** The bytes that datalen counts; `hasData` says that the data pointer is not null. */
    var data: seq<int>
    var hasData: bool
    var dataAlloc: nat
    var datalen: nat
    var refcnt: nat
    var next: Symbol?
    /** Whether the symbol has a set of components, the head of that set, and how often the set is
        referenced. */
    var composite: bool
    var parts: Symbol?
    var partsRefs: nat
    var time: int
    var cacheCount: int

    /** calloc. */
    constructor ()
      ensures !hasData && dataAlloc == 0 && datalen == 0 && refcnt == 0 && next == null
      ensures !composite && parts == null && partsRefs == 0
    {
      symType, data, hasData, dataAlloc, datalen, refcnt, next := 0, [], false, 0, 0, 0, null;
      composite, parts, partsRefs, time, cacheCount := false, null, 0, 0, 0;
    }
  }

  // ---------- Chains ----------

  /** The symbol at i, or null behind the end. */
  ghost function At(list: seq<Symbol>, i: nat): Symbol? {
    if i < |list| then list[i] else null
  }

  ghost predicate Linked(list: seq<Symbol>)
    reads list`next
  {
    forall i :: 0 <= i < |list| ==> list[i].next == At(list, i + 1)
  }

  /** The list with a symbol behind its first k. */
  ghost function Inserted(list: seq<Symbol>, k: nat, sym: Symbol): seq<Symbol>
    requires k <= |list|
  {
    list[..k] + [sym] + list[k..]
  }

  ghost function Elements(list: seq<Symbol>): set<Symbol> {
    set s | s in list
  }

  lemma LinkedTail(list: seq<Symbol>)
    requires Linked(list) && list != []
    ensures Linked(list[1..]) && list[0].next == At(list[1..], 0)
  {
    assert list[0].next == At(list, 1);
    forall i | 0 <= i < |list| - 1
      ensures list[1..][i].next == At(list[1..], i + 1)
    {
      assert list[i + 1].next == At(list, i + 2);
    }
  }

  lemma LinkedFront(sym: Symbol, list: seq<Symbol>)
    requires Linked(list) && sym.next == At(list, 0)
    ensures Linked([sym] + list) && At([sym] + list, 0) == sym
  {
    var now := [sym] + list;
    forall i | 0 <= i < |now|
      ensures now[i].next == At(now, i + 1)
    {
      if i > 0 {
        assert list[i - 1].next == At(list, i);
      }
    }
  }

  lemma DistinctInsert(list: seq<Symbol>, k: nat, sym: Symbol)
    requires Distinct(list) && k <= |list| && sym !in list
    ensures Distinct(Inserted(list, k, sym))
  {}

  // ---------- Forests ----------

  /** A list of symbols with their components. */
  datatype Forest = Nil | Cons(sym: Symbol, parts: Forest, rest: Forest)

  ghost function Nodes(f: Forest): set<Symbol> {
    if f.Nil? then {} else {f.sym} + Nodes(f.parts) + Nodes(f.rest)
  }

  ghost function Roots(f: Forest): (list: seq<Symbol>)
    ensures forall s :: s in list ==> s in Nodes(f)
    ensures f.Nil? <==> list == []
  {
    if f.Nil? then [] else [f.sym] + Roots(f.rest)
  }

  /** The symbols that are components. */
  ghost function Inner(f: Forest): (inner: set<Symbol>)
    ensures inner <= Nodes(f)
  {
    if f.Nil? then {} else Nodes(f.parts) + Inner(f.rest)
  }

  /** No symbol occurs twice. */
  ghost predicate Separate(f: Forest) {
    f.Cons? ==>
      && f.sym !in Nodes(f.parts) && f.sym !in Nodes(f.rest) && Nodes(f.parts) !! Nodes(f.rest)
      && Separate(f.parts) && Separate(f.rest)
  }

  /** The component chains are as the forest says, and their sets are referenced by nothing else. */
  ghost predicate Shape(f: Forest)
    reads Nodes(f)`parts, Nodes(f)`composite, Nodes(f)`partsRefs, Inner(f)`next
  {
    f.Cons? ==>
      && f.sym.parts == At(Roots(f.parts), 0) && Linked(Roots(f.parts))
      && (if f.sym.composite then f.sym.partsRefs == 1 else f.parts.Nil?)
      && Shape(f.parts) && Shape(f.rest)
  }

  /** A symbol that is referenced from elsewhere owns its data, and owned data is there. */
  ghost predicate Owned(nodes: set<Symbol>)
    reads nodes`refcnt, nodes`dataAlloc, nodes`hasData
  {
    forall s :: s in nodes ==> (s.refcnt > 1 ==> s.dataAlloc > 0) && (s.dataAlloc > 0 ==> s.hasData)
  }

  /** A list, with all components, that nothing else is linked into. */
  ghost predicate WellLinked(f: Forest)
    reads Nodes(f)`parts, Nodes(f)`composite, Nodes(f)`partsRefs, Nodes(f)`next
    reads Nodes(f)`refcnt, Nodes(f)`dataAlloc, Nodes(f)`hasData
  {
    Separate(f) && Shape(f) && Owned(Nodes(f)) && Linked(Roots(f))
  }
}
