/**
  The result set of qrcode/src/symbol.h, img_scanner.c and symbol.c: one singly linked list in which
  symbols that the cache filters come before those to report.
 */
module ResultList {
  import opened Sequences
  import opened Symbols

  /** The symbols added with a count of zero, or with any other count; the newest first. */
  ghost function Select(added: seq<(Symbol, int)>, zero: bool): seq<Symbol> {
    if added == [] then []
    else
      var k := |added| - 1;
      (if (added[k].1 == 0) == zero then [added[k].0] else []) + Select(added[..k], zero)
  }

  lemma SelectAppend(added: seq<(Symbol, int)>, sym: Symbol, count: int, zero: bool)
    ensures Select(added + [(sym, count)], zero) == (if (count == 0) == zero then [sym] else []) + Select(added, zero)
  {
    assert (added + [(sym, count)])[..|added|] == added;
  }

  /** A symbol with its components put behind the first k symbols of a list. */
  ghost function Planted(f: Forest, k: nat, sym: Symbol, parts: Forest): Forest
    requires k <= |Roots(f)|
  {
    if k == 0 then Cons(sym, parts, f) else Cons(f.sym, f.parts, Planted(f.rest, k - 1, sym, parts))
  }

  lemma {:induction false} PlantedNodes(f: Forest, k: nat, sym: Symbol, parts: Forest)
    requires k <= |Roots(f)|
    ensures var now := Planted(f, k, sym, parts);
            Nodes(now) == Nodes(f) + {sym} + Nodes(parts) && Inner(now) == Inner(f) + Nodes(parts)
  {
    if k == 0 {
    } else {
      PlantedNodes(f.rest, k - 1, sym, parts);
    }
  }

  lemma {:induction false} PlantedRoots(f: Forest, k: nat, sym: Symbol, parts: Forest)
    requires k <= |Roots(f)|
    ensures Roots(Planted(f, k, sym, parts)) == Inserted(Roots(f), k, sym)
  {
    if k == 0 {
    } else {
      PlantedRoots(f.rest, k - 1, sym, parts);
      assert Roots(f)[1..] == Roots(f.rest);
      assert Roots(f)[..k] == [f.sym] + Roots(f.rest)[..k - 1] && Roots(f)[k..] == Roots(f.rest)[k - 1..];
    }
  }

  lemma {:induction false} PlantedShape(f: Forest, k: nat, sym: Symbol, parts: Forest)
    requires k <= |Roots(f)| && Separate(f) && Shape(f)
    requires Separate(Cons(sym, parts, Nil)) && Shape(Cons(sym, parts, Nil))
    requires ({sym} + Nodes(parts)) !! Nodes(f)
    ensures Separate(Planted(f, k, sym, parts)) && Shape(Planted(f, k, sym, parts))
  {
    if k == 0 {
    } else {
      PlantedShape(f.rest, k - 1, sym, parts);
      PlantedNodes(f.rest, k - 1, sym, parts);
    }
  }

  lemma {:induction false} RootsDistinct(f: Forest)
    requires Separate(f)
    ensures Distinct(Roots(f)) && forall s :: s in Roots(f) ==> s !in Inner(f)
  {
    if f.Nil? {
    } else {
      RootsDistinct(f.rest);
    }
  }

  lemma WellMeans(f: Forest)
    requires WellLinked(f)
    ensures Separate(f) && Shape(f) && Owned(Nodes(f)) && Linked(Roots(f)) && Inner(f) <= Nodes(f)
    ensures Distinct(Roots(f)) && forall s :: s in Roots(f) ==> s in Nodes(f) && s !in Inner(f)
  {
    RootsDistinct(f);
  }

  lemma TreeMeans(sym: Symbol, parts: Forest)
    requires WellLinked(Cons(sym, parts, Nil))
    ensures Inner(Cons(sym, parts, Nil)) == Nodes(parts) && sym !in Nodes(parts)
    ensures Nodes(Cons(sym, parts, Nil)) == {sym} + Nodes(parts)
  {}

  /** A tree planted into a list, once the pointers are in place. */
  lemma PlantedWell(f: Forest, k: nat, sym: Symbol, parts: Forest)
    requires k <= |Roots(f)| && Separate(f) && Shape(f) && Owned(Nodes(f)) && Linked(Inserted(Roots(f), k, sym))
    requires Separate(Cons(sym, parts, Nil)) && Shape(Cons(sym, parts, Nil)) && Owned(Nodes(Cons(sym, parts, Nil)))
    requires ({sym} + Nodes(parts)) !! Nodes(f)
    ensures WellLinked(Planted(f, k, sym, parts)) && Roots(Planted(f, k, sym, parts)) == Inserted(Roots(f), k, sym)
    ensures Nodes(Planted(f, k, sym, parts)) == Nodes(f) + {sym} + Nodes(parts)
  {
    hide Planted, Shape, Separate, Linked, Inserted;
    PlantedNodes(f, k, sym, parts);
    PlantedRoots(f, k, sym, parts);
    PlantedShape(f, k, sym, parts);
  }

  class SymbolSet {
    var head: Symbol?
    var tail: Symbol?
    var nsyms: nat
    var refcnt: nat
    /** The list, with the components of its symbols; its two parts; and every symbol added, with
        its count then. */
    ghost var forest: Forest
    ghost var filtered: seq<Symbol>
    ghost var reported: seq<Symbol>
    ghost var added: seq<(Symbol, int)>

    /** All filtered symbols come before all symbols to report, each part newest first; the tail is
        the last filtered one, and nsyms counts the others. */
    ghost predicate Valid()
      reads `head, `tail, `nsyms, `forest, `filtered, `reported, `added
      reads Nodes(forest)`parts, Nodes(forest)`composite, Nodes(forest)`partsRefs, Nodes(forest)`next
      reads Nodes(forest)`refcnt, Nodes(forest)`dataAlloc, Nodes(forest)`hasData
    {
      && Ordered() && WellLinked(forest)
    }

    ghost predicate Ordered()
      reads `head, `tail, `nsyms, `forest, `filtered, `reported, `added
    {
      && filtered == Select(added, false) && reported == Select(added, true)
      && Roots(forest) == filtered + reported
      && head == At(filtered + reported, 0)
      && tail == (if filtered == [] then null else filtered[|filtered| - 1])
      && nsyms == |reported|
    }

    /** _zbar_symbol_set_create. */
    constructor ()
      ensures Valid() && added == [] && forest == Nil && refcnt == 1
    {
      head, tail, nsyms, refcnt := null, null, 0, 1;
      forest, filtered, reported, added := Nil, [], [], [];
    }

    /** The second half of _zbar_image_scanner_add_sym, after cache_sym has set the count. */
    method AddSym(sym: Symbol, ghost parts: Forest)
      requires Valid() && WellLinked(Cons(sym, parts, Nil)) && ({sym} + Nodes(parts)) !! Nodes(forest)
      requires sym.refcnt == 0
      modifies this, sym`next, sym`refcnt, Nodes(forest)`next
      ensures refcnt == old(refcnt)
      ensures added == old(added) + [(sym, sym.cacheCount)] && sym.refcnt == 1
      ensures Nodes(forest) == old(Nodes(forest)) + {sym} + Nodes(parts)
      ensures Valid()
    {
      hide Select, WellLinked, Inserted, At, Nodes, Roots, Planted;
      ghost var f, r, was := filtered, reported, forest;
      SelectAppend(added, sym, sym.cacheCount, true);
      SelectAppend(added, sym, sym.cacheCount, false);
      Insertions(f, r, sym);
      if sym.cacheCount != 0 || tail == null {
        PlaceFront(sym, parts);
      } else {
        PlaceAfter(sym, parts);
      }
      if sym.cacheCount == 0 {
        nsyms := nsyms + 1;
        reported := [sym] + r;
      } else {
        if tail == null {
          tail := sym;
        }
        filtered := [sym] + f;
      }
      added := added + [(sym, sym.cacheCount)];
      Reference(sym);
    }

    /** The first reference to a symbol. */
    method Reference(sym: Symbol)
      requires sym in Nodes(forest) && WellLinked(forest) && sym.refcnt == 0
      modifies sym`refcnt
      ensures sym.refcnt == 1 && WellLinked(forest)
    {
      hide Separate, Shape, Linked;
      sym.refcnt := sym.refcnt + 1;
    }

    method PlaceFront(sym: Symbol, ghost parts: Forest)
      requires Ordered() && WellLinked(forest) && WellLinked(Cons(sym, parts, Nil))
      requires ({sym} + Nodes(parts)) !! Nodes(forest)
      modifies this`head, this`forest, sym`next
      ensures forest == Planted(old(forest), 0, sym, parts) && WellLinked(forest) && head == sym
      ensures Roots(forest) == Inserted(filtered + reported, 0, sym)
      ensures Nodes(forest) == old(Nodes(forest)) + {sym} + Nodes(parts)
    {
      hide Distinct, Linked, Inserted, At, Nodes, Roots, Shape, Separate, Owned, Planted, Inner;
      WellMeans(forest);
      WellMeans(Cons(sym, parts, Nil));
      TreeMeans(sym, parts);
      ghost var tree := Cons(sym, parts, Nil);
      assert Owned(Nodes(forest)) && Shape(forest) && Owned(Nodes(tree)) && Shape(tree);
      LinkFront(sym, filtered + reported);
      assert Owned(Nodes(forest)) && Shape(forest) && Owned(Nodes(tree)) && Shape(tree);
      PlantedWell(forest, 0, sym, parts);
      forest := Planted(forest, 0, sym, parts);
    }

    method PlaceAfter(sym: Symbol, ghost parts: Forest)
      requires Ordered() && WellLinked(forest) && WellLinked(Cons(sym, parts, Nil)) && tail != null
      requires ({sym} + Nodes(parts)) !! Nodes(forest)
      modifies this`forest, sym`next, Nodes(forest)`next
      ensures forest == Planted(old(forest), |filtered|, sym, parts) && WellLinked(forest)
      ensures Roots(forest) == Inserted(filtered + reported, |filtered|, sym)
      ensures Nodes(forest) == old(Nodes(forest)) + {sym} + Nodes(parts)
    {
      hide Distinct, Linked, Inserted, At, Nodes, Roots, Shape, Separate, Owned, Planted, Inner;
      WellMeans(forest);
      WellMeans(Cons(sym, parts, Nil));
      TreeMeans(sym, parts);
      ghost var tree := Cons(sym, parts, Nil);
      assert Owned(Nodes(forest)) && Shape(forest) && Owned(Nodes(tree)) && Shape(tree);
      LinkAfter(tail, sym, filtered + reported, |filtered| - 1);
      assert Owned(Nodes(forest)) && Shape(forest) && Owned(Nodes(tree)) && Shape(tree);
      PlantedWell(forest, |filtered|, sym, parts);
      forest := Planted(forest, |filtered|, sym, parts);
    }

    method LinkFront(sym: Symbol, ghost list: seq<Symbol>)
      requires Linked(list) && head == At(list, 0) && sym !in list
      modifies this`head, sym`next
      ensures Linked(Inserted(list, 0, sym)) && head == sym
    {
      sym.next := head;
      head := sym;
      LinkedFront(sym, list);
      assert Inserted(list, 0, sym) == [sym] + list;
    }

    method LinkAfter(last: Symbol, sym: Symbol, ghost list: seq<Symbol>, ghost i: nat)
      requires Linked(list) && Distinct(list) && sym !in list && i < |list| && last == list[i]
      modifies last`next, sym`next
      ensures Linked(Inserted(list, i + 1, sym))
    {
      ghost var now := Inserted(list, i + 1, sym);
      sym.next := last.next;
      last.next := sym;
      forall j | 0 <= j < |now|
        ensures now[j].next == At(now, j + 1)
      {
        if j <= i {
          assert now[j] == list[j];
        } else if j > i + 1 {
          assert now[j] == list[j - 1];
        }
      }
    }

    /** zbar_symbol_set_first_symbol: the first symbol to report, if there is one. */
    method FirstSymbol() returns (first: Symbol?)
      requires Valid()
      ensures first == At(reported, 0)
    {
      if tail != null {
        NextOf(filtered + reported, |filtered| - 1);
        return tail.next;
      }
      return head;
    }

    /** The end of recycle_syms, when the symbols have been handed over. */
    method Clear()
      modifies this
      ensures refcnt == old(refcnt)
      ensures Valid() && added == [] && forest == Nil
    {
      head, tail, nsyms := null, null, 0;
      forest, filtered, reported, added := Nil, [], [], [];
    }
  }

  /** Where a new symbol goes, as the list and as its two parts. */
  lemma Insertions(f: seq<Symbol>, r: seq<Symbol>, sym: Symbol)
    ensures Inserted(f + r, 0, sym) == [sym] + f + r && At([sym] + f + r, 0) == sym
    ensures Inserted(f + r, |f|, sym) == f + ([sym] + r)
    ensures f != [] ==> At(f + ([sym] + r), 0) == At(f + r, 0)
    ensures f == [] ==> f + ([sym] + r) == [sym] + f + r
  {}

  lemma NextOf(list: seq<Symbol>, i: nat)
    requires Linked(list) && i < |list|
    ensures list[i].next == At(list, i + 1)
  {}
}
