/**
  The layered slab pool `hanoi<E>`: a chain of layers, newest first, each a
  fixed-size block of slots. A slot is live or dead according to the element's
  own `inuse` test; a dead slot holds the `clean` filler. Elements never move,
  so the address of an element is its layer (array) and its slot index.
*/
module Hanoi {
  import opened Slab

  /** The contents of a chain of layers, as values. */
  ghost function Snapshot<E>(ls: seq<array<E>>): (v: seq<seq<E>>)
    reads set i | 0 <= i < |ls| :: ls[i]
    ensures |v| == |ls| && forall i :: 0 <= i < |ls| ==> v[i] == ls[i][..]
    decreases |ls|
  {
    if ls == [] then [] else [ls[0][..]] + Snapshot(ls[1..])
  }

  class Hanoi<E> {
    /** `E::inuse`: whether a slot holds a live element. */
    const inuse: E -> bool
    /** What `E::clean` leaves in a slot: a dead element. */
    const clean: E
    /** The layer chain, head (newest) first. */
    var layers: seq<array<E>>

    ghost predicate Valid()
      reads this, layers
    {
      !inuse(clean) &&
      (forall i, j :: 0 <= i < j < |layers| ==> layers[i] != layers[j]) &&
      (forall i :: 0 <= i < |layers| ==> 0 < layers[i].Length <= LayerSizeLimit)
    }

    /** The pool as a value: one sequence of elements per layer. */
    ghost function View(): seq<seq<E>>
      reads this, layers
    {
      Snapshot(layers)
    }

    /** The element at address (`a`, `k`) is live in this pool. */
    ghost predicate Holds(a: array<E>, k: nat)
      reads this, layers
    {
      a in layers && k < a.Length && inuse(a[k])
    }

    /** `hanoi()`: no layer at all. */
    constructor (inuse: E -> bool, clean: E)
      requires !inuse(clean)
      ensures Valid() && this.inuse == inuse && this.clean == clean
      ensures layers == [] && View() == []
    {
      this.inuse := inuse;
      this.clean := clean;
      layers := [];
    }

    /**
      `layer_iterator<LIVE>`: the slots whose liveness is `live`, head layer
      first and by ascending slot index within a layer.
    */
    method LayerIterator(live: bool) returns (ps: seq<Pos>)
      requires Valid()
      ensures ps == Slab.Scan(View(), inuse, live)
    {
      ps := Walk(layers, live, View());
    }

    /** The outer loop of `layer_iterator<LIVE>`, over a chain whose contents are `v`. */
    method Walk(ls: seq<array<E>>, live: bool, ghost v: seq<seq<E>>) returns (ps: seq<Pos>)
      requires |ls| == |v| && forall i :: 0 <= i < |v| ==> ls[i][..] == v[i]
      ensures ps == Slab.Scan(v, inuse, live)
    {
      ps := [];
      var i := 0;
      while i < |ls|
        invariant 0 <= i <= |ls|
        invariant ps + ScanFrom(v, inuse, live, i, 0) == Slab.Scan(v, inuse, live)
      {
        var qs := LayerSlots(ls[i], live, v, i);
        ConcatAssoc(ps, qs, ScanFrom(v, inuse, live, i + 1, 0));
        ps := ps + qs;
        i := i + 1;
      }
    }

    /** The inner loop of `layer_iterator<LIVE>`: the slots of layer `i` with liveness `live`. */
    method LayerSlots(a: array<E>, live: bool, ghost v: seq<seq<E>>, i: nat) returns (qs: seq<Pos>)
      requires i < |v| && v[i] == a[..]
      ensures qs + ScanFrom(v, inuse, live, i + 1, 0) == ScanFrom(v, inuse, live, i, 0)
    {
      ghost var whole := ScanFrom(v, inuse, live, i, 0);
      qs := [];
      var k := 0;
      while k < a.Length
        invariant 0 <= k <= a.Length == |v[i]|
        invariant qs + ScanFrom(v, inuse, live, i, k) == whole
      {
        ghost var rest := ScanFrom(v, inuse, live, i, k + 1);
        ScanFromSlot(v, inuse, live, i, k);
        assert a[k] == v[i][k];
        var here := if inuse(a[k]) == live then [Pos(i, k)] else [];
        ConcatAssoc(qs, here, rest);
        qs := qs + here;
        k := k + 1;
      }
    }

    /** `begin()`: the first live slot, or the end of iteration. */
    method Begin() returns (it: Option<Pos>)
      requires Valid()
      ensures it == FirstLive(View(), inuse)
    {
      var ps := LayerIterator(true);
      it := if ps == [] then None else Some(ps[0]);
    }

    /** `empty()`: `begin() == end()`, which holds exactly when no slot is live. */
    method IsEmpty() returns (b: bool)
      requires Valid()
      ensures b <==> LiveSet(View(), inuse) == {}
    {
      var it := Begin();
      b := it == None;
      EmptyIffNoLive(View(), inuse);
    }

    /**
      `emplace_unspecified`: store `e` in the first dead slot; when there is
      none, prepend a new layer and try again.
    */
    method EmplaceUnspecified(e: E) returns (p: Pos)
      requires Valid() && inuse(e)
      modifies this, layers
      ensures Valid()
      ensures (View(), p) == Emplaced(old(View()), inuse, clean, e)
      ensures old(FirstDead(View(), inuse)).Some? ==> layers == old(layers)
      ensures old(FirstDead(View(), inuse)).None? ==>
        |layers| == old(|layers|) + 1 && layers[1..] == old(layers) && fresh(layers[0])
      decreases if FirstDead(View(), inuse).None? then 1 else 0
    {
      ghost var v := View();
      var dead := LayerIterator(false);
      if dead != [] {
        p := dead[0];
        FirstDeadSpec(v, inuse);
        layers[p.layer][p.slot] := e;
        PlacedView(v, p, e);
        return;
      }
      Grow();
      GrownSpec(v, inuse, clean);
      p := EmplaceUnspecified(e);
    }

    /**
      The growth step of `emplace_unspecified`: prepend a layer of dead slots,
      14 of them for the first layer, else the head's size plus 3, capped at 143.
    */
    method Grow()
      requires Valid()
      modifies this
      ensures Valid() && |layers| == old(|layers|) + 1 && layers[1..] == old(layers) && fresh(layers[0])
      ensures View() == Grown(old(View()), clean)
    {
      var size := if |layers| > 0 then layers[0].Length + LayerSizeExpand else LayerSizeInitial;
      if LayerSizeLimit > 0 {
        size := if LayerSizeLimit < size then LayerSizeLimit else size;
      }
      var next := new E[size](_ => clean);
      assert next[..] == seq(NewLayerSize(View()), _ => clean);
      layers := [next] + layers;
      assert layers[1..] == old(layers);
    }

    /** After one slot of a distinct-layer chain is written, the view is that slot replaced. */
    lemma PlacedView(v: seq<seq<E>>, p: Pos, e: E)
      requires (forall i, j :: 0 <= i < j < |layers| ==> layers[i] != layers[j])
      requires ValidPos(v, p) && |v| == |layers|
      requires forall i :: 0 <= i < |v| && i != p.layer ==> layers[i][..] == v[i]
      requires layers[p.layer][..] == v[p.layer][p.slot := e]
      ensures View() == Place(v, p, e)
    {
    }

    /**
      `erase(iterator)`: destroy the element the iterator points at when it is
      live; a dead slot is left as it is.
    */
    method EraseAt(p: Pos)
      requires Valid() && ValidPos(View(), p)
      modifies layers[p.layer]
      ensures Valid() && layers == old(layers)
      ensures View() == if old(inuse(At(View(), p))) then Place(old(View()), p, clean) else old(View())
    {
      ghost var v := View();
      var a := layers[p.layer];
      if inuse(a[p.slot]) {
        a[p.slot] := clean;
        PlacedView(v, p, clean);
      }
    }

    /** A write through the reference `*it` returns: slot `p` now holds `e`, nothing else changes. */
    method Store(p: Pos, e: E)
      requires Valid() && ValidPos(View(), p)
      modifies layers[p.layer]
      ensures Valid() && layers == old(layers)
      ensures View() == Place(old(View()), p, e)
    {
      ghost var v := View();
      layers[p.layer][p.slot] := e;
      PlacedView(v, p, e);
    }

    /**
      The search loop of `erase(E&)`: walk the live slots from `begin()` until
      one has address (`a`, `k`).
    */
    method Find(a: array<E>, k: nat) returns (it: Option<Pos>)
      requires Valid()
      ensures it.Some? ==> it.value in LiveSet(View(), inuse) && ValidPos(View(), it.value) &&
                           layers[it.value.layer] == a && it.value.slot == k
      ensures it.None? <==> !Holds(a, k)
    {
      ghost var v := View();
      var ps := LayerIterator(true);
      ScanSpec(v, inuse, true);
      var n := 0;
      while n < |ps|
        invariant 0 <= n <= |ps|
        invariant forall m :: 0 <= m < |ps| ==> ValidPos(v, ps[m]) && ps[m].layer < |layers|
        invariant forall m :: 0 <= m < n ==> !(layers[ps[m].layer] == a && ps[m].slot == k)
      {
        if layers[ps[n].layer] == a && ps[n].slot == k {
          return Some(ps[n]);
        }
        n := n + 1;
      }
      forall i | 0 <= i < |layers| && layers[i] == a && k < a.Length ensures !inuse(a[k]) {
        assert Pos(i, k) !in ps by {
          forall m | 0 <= m < |ps| ensures ps[m] != Pos(i, k) { }
        }
        assert a[k] == At(v, Pos(i, k));
      }
      return None;
    }

    /**
      `erase(E&)`: destroy the live element at address (`a`, `k`); an element
      that is not found only draws a warning.
    */
    method Erase(a: array<E>, k: nat)
      requires Valid() && |layers| > 0
      modifies layers
      ensures Valid() && layers == old(layers)
      ensures old(Holds(a, k)) ==>
        forall p :: ValidPos(old(View()), p) && layers[p.layer] == a && p.slot == k ==>
          View() == Place(old(View()), p, clean)
      ensures !old(Holds(a, k)) ==> View() == old(View())
    {
      var it := Find(a, k);
      if it.Some? {
        EraseAt(it.value);
      }
      // otherwise: warn("tried to erase non-existant element")
    }

    /** `layer::weed`, the scan half: whether a layer holds a live slot. */
    method LayerHasLive(a: array<E>) returns (b: bool)
      ensures b == HasLive(a[..], inuse)
    {
      var k := 0;
      while k < a.Length
        invariant 0 <= k <= a.Length
        invariant forall j :: 0 <= j < k ==> !inuse(a[j])
      {
        if inuse(a[k]) {
          return true;
        }
        k := k + 1;
      }
      return false;
    }

    /**
      `layer::weed` from layer `i` on: the tail is weeded first, then layer `i`
      is kept only when it holds a live slot.
    */
    method WeedFrom(i: nat) returns (kept: seq<array<E>>)
      requires Valid() && i <= |layers|
      ensures Snapshot(kept) == Weeded(View()[i..], inuse)
      ensures forall a :: a in kept ==> a in layers[i..]
      ensures forall x, y :: 0 <= x < y < |kept| ==> kept[x] != kept[y]
      decreases |layers| - i
    {
      if i == |layers| {
        return [];
      }
      var rest := WeedFrom(i + 1);
      var live := LayerHasLive(layers[i]);
      assert View()[i..][1..] == View()[i + 1..];
      if live {
        kept := [layers[i]] + rest;
        assert layers[i] !in rest by {
          forall a | a in rest ensures a != layers[i] {
            var j :| i + 1 <= j < |layers| && a == layers[j];
          }
        }
        assert Snapshot(kept) == [layers[i][..]] + Snapshot(rest);
      } else {
        kept := rest;
      }
    }

    /** `weed()`: unlink every layer that has no live slot. */
    method Weed()
      requires Valid()
      modifies this
      ensures Valid()
      ensures View() == Weeded(old(View()), inuse)
      ensures forall a :: a in layers ==> a in old(layers)
    {
      if |layers| > 0 {
        var kept := WeedFrom(0);
        KeptLayers(kept);
        layers := kept;
      }
    }

    /** The layers `weed` keeps satisfy the layer invariants, and their view is the weeded view. */
    lemma KeptLayers(kept: seq<array<E>>)
      requires Valid()
      requires Snapshot(kept) == Weeded(View()[0..], inuse)
      requires forall a :: a in kept ==> a in layers[0..]
      requires forall x, y :: 0 <= x < y < |kept| ==> kept[x] != kept[y]
      ensures forall x :: 0 <= x < |kept| ==> 0 < kept[x].Length <= LayerSizeLimit
      ensures forall a :: a in kept ==> a in layers
      ensures Snapshot(kept) == Weeded(View(), inuse)
    {
      assert View()[0..] == View() && layers[0..] == layers;
      forall x | 0 <= x < |kept| ensures 0 < kept[x].Length <= LayerSizeLimit {
        assert kept[x] in layers;
      }
    }

    /** One turn of the destructor's loop: `erase(begin())` on a non-empty pool. */
    method EraseBegin()
      requires Valid() && LiveSet(View(), inuse) != {}
      modifies layers
      ensures Valid() && layers == old(layers)
      ensures |LiveSet(View(), inuse)| < old(|LiveSet(View(), inuse)|)
    {
      ghost var before := View();
      var it := Begin();
      FirstLiveSpec(before, inuse);
      EmptyIffNoLive(before, inuse);
      EraseAt(it.value);
      PlaceDead(before, inuse, it.value, clean);
    }

    /** `~hanoi()`: erase `begin()` until the pool is empty; dead slots are left as they are. */
    method Dispose()
      requires Valid()
      modifies layers
      ensures Valid() && layers == old(layers)
      ensures LiveSet(View(), inuse) == {}
    {
      var empty := IsEmpty();
      ghost var live := |LiveSet(View(), inuse)|;
      while !empty
        invariant Valid() && layers == old(layers)
        invariant live == |LiveSet(View(), inuse)|
        invariant empty <==> live == 0
        decreases live
      {
        EraseBegin();
        live := |LiveSet(View(), inuse)|;
        empty := IsEmpty();
      }
    }
  }
}
