/**
  The abstract state of a `hanoi<E>` pool (inc/hanoi.hpp) as a value: a
  sequence of layers, head (newest) first, each a sequence of slots.  Whether a
  slot is live is decided by the element type (`E::inuse`), so every function
  here takes that predicate as `inuse`.

  These functions specify the pool's operations; the class in module Hanoi is
  proved against them.
*/
module Slab {

  datatype Option<T> = None | Some(value: T)

  /** `LAYER_SIZE_INITIAL`, `LAYER_SIZE_EXPAND`, `LAYER_SIZE_LIMIT`. */
  const LayerSizeInitial: nat := 14
  const LayerSizeExpand: nat := 3
  const LayerSizeLimit: nat := 143

  /** A slot: the index of its layer counted from the head, and its index in that layer. */
  datatype Pos = Pos(layer: nat, slot: nat)

  predicate ValidPos<E>(v: seq<seq<E>>, p: Pos) {
    p.layer < |v| && p.slot < |v[p.layer]|
  }

  function At<E>(v: seq<seq<E>>, p: Pos): E
    requires ValidPos(v, p)
  {
    v[p.layer][p.slot]
  }

  /** Scan order: head layer first, ascending slot index within a layer. */
  predicate Before(p: Pos, q: Pos) {
    p.layer < q.layer || (p.layer == q.layer && p.slot < q.slot)
  }

  predicate Ascending(ps: seq<Pos>) {
    forall a, b :: 0 <= a < b < |ps| ==> Before(ps[a], ps[b])
  }

  /**
    `layer_iterator<LIVE>`: the slots at or after slot `k` of layer `i` whose
    liveness equals `live`, in the order the generator yields them.
  */
  function ScanFrom<E>(v: seq<seq<E>>, inuse: E -> bool, live: bool, i: nat, k: nat): seq<Pos>
    requires i <= |v| && (i < |v| ==> k <= |v[i]|)
    decreases |v| - i, if i < |v| then |v[i]| - k else 0
  {
    if i == |v| then []
    else if k == |v[i]| then ScanFrom(v, inuse, live, i + 1, 0)
    else (if inuse(v[i][k]) == live then [Pos(i, k)] else []) + ScanFrom(v, inuse, live, i, k + 1)
  }

  lemma ConcatAssoc<T>(a: seq<T>, b: seq<T>, c: seq<T>)
    ensures a + (b + c) == (a + b) + c
  {
  }

  /** One slot of the generator: slot (i, k) is yielded when its liveness matches, then the rest follows. */
  lemma ScanFromSlot<E>(v: seq<seq<E>>, inuse: E -> bool, live: bool, i: nat, k: nat)
    requires i < |v| && k < |v[i]|
    ensures ScanFrom(v, inuse, live, i, k) ==
      (if inuse(v[i][k]) == live then [Pos(i, k)] else []) + ScanFrom(v, inuse, live, i, k + 1)
  {
  }

  function Scan<E>(v: seq<seq<E>>, inuse: E -> bool, live: bool): seq<Pos> {
    ScanFrom(v, inuse, live, 0, 0)
  }

  /** The live slots, as a set. */
  function LiveSet<E>(v: seq<seq<E>>, inuse: E -> bool): set<Pos> {
    set p | p in Scan(v, inuse, true)
  }

  /** The slot `emplace_unspecified` fills when it does not grow: the first dead one. */
  function FirstDead<E>(v: seq<seq<E>>, inuse: E -> bool): Option<Pos> {
    var ds := Scan(v, inuse, false);
    if ds == [] then None else Some(ds[0])
  }

  /** The slot `begin()` refers to: the first live one. */
  function FirstLive<E>(v: seq<seq<E>>, inuse: E -> bool): Option<Pos> {
    var ls := Scan(v, inuse, true);
    if ls == [] then None else Some(ls[0])
  }

  /** One slot overwritten in place. */
  function Place<E>(v: seq<seq<E>>, p: Pos, e: E): seq<seq<E>>
    requires ValidPos(v, p)
  {
    v[p.layer := v[p.layer][p.slot := e]]
  }

  /** The size of the layer the pool grows by. */
  function NewLayerSize<E>(v: seq<seq<E>>): (n: nat)
    ensures |v| == 0 ==> n == LayerSizeInitial
    ensures |v| > 0 ==> n <= LayerSizeLimit && n <= |v[0]| + LayerSizeExpand
    ensures |v| > 0 ==> n == LayerSizeLimit || n == |v[0]| + LayerSizeExpand
    ensures |v| > 0 ==> n >= |v[0]| || n == LayerSizeLimit
  {
    if |v| == 0 then LayerSizeInitial
    else if |v[0]| + LayerSizeExpand < LayerSizeLimit then |v[0]| + LayerSizeExpand
    else LayerSizeLimit
  }

  /** The pool after growth: one new layer of dead slots, prepended. */
  function Grown<E>(v: seq<seq<E>>, clean: E): seq<seq<E>> {
    [seq(NewLayerSize(v), _ => clean)] + v
  }

  /**
    `emplace_unspecified`: the pool with `e` stored, and where. The first dead
    slot in scan order is used; when there is none, the pool grows first and the
    new head layer's slot 0 is used.
  */
  function Emplaced<E>(v: seq<seq<E>>, inuse: E -> bool, clean: E, e: E): (seq<seq<E>>, Pos)
    requires !inuse(clean)
  {
    match FirstDead(v, inuse)
    case Some(p) =>
      FirstDeadSpec(v, inuse);
      (Place(v, p, e), p)
    case None =>
      GrownSpec(v, inuse, clean);
      (Place(Grown(v, clean), Pos(0, 0), e), Pos(0, 0))
  }

  predicate HasLive<E>(l: seq<E>, inuse: E -> bool) {
    exists k :: 0 <= k < |l| && inuse(l[k])
  }

  /** `weed`: the layers that hold a live slot, in their order. */
  function Weeded<E>(v: seq<seq<E>>, inuse: E -> bool): seq<seq<E>>
    decreases |v|
  {
    if v == [] then []
    else (if HasLive(v[0], inuse) then [v[0]] else []) + Weeded(v[1..], inuse)
  }

  /** The live elements of one layer, in slot order. */
  function LiveInLayer<E>(l: seq<E>, inuse: E -> bool): seq<E>
    decreases |l|
  {
    if l == [] then [] else (if inuse(l[0]) then [l[0]] else []) + LiveInLayer(l[1..], inuse)
  }

  /** The live elements of the pool, layer by layer from the head. */
  function LiveValues<E>(v: seq<seq<E>>, inuse: E -> bool): seq<E>
    decreases |v|
  {
    if v == [] then [] else LiveInLayer(v[0], inuse) + LiveValues(v[1..], inuse)
  }

  /** The elements at a list of positions. */
  function ValuesAt<E>(v: seq<seq<E>>, ps: seq<Pos>): (r: seq<E>)
    requires forall p :: p in ps ==> ValidPos(v, p)
    ensures |r| == |ps| && forall a :: 0 <= a < |ps| ==> r[a] == At(v, ps[a])
    decreases |ps|
  {
    if ps == [] then [] else [At(v, ps[0])] + ValuesAt(v, ps[1..])
  }

  /** The live slots whose element satisfies `pred`. */
  function LiveWhere<E>(v: seq<seq<E>>, inuse: E -> bool, pred: E -> bool): set<Pos> {
    set p | p in LiveSet(v, inuse) && ValidPos(v, p) && pred(At(v, p))
  }

  /** The keys (for records: guids) of the live elements. */
  function KeysOf<E>(v: seq<seq<E>>, inuse: E -> bool, key: E -> nat): set<nat> {
    set p | p in LiveSet(v, inuse) && ValidPos(v, p) :: key(At(v, p))
  }

  /** No two live elements share a key. */
  predicate DistinctKeys<E>(v: seq<seq<E>>, inuse: E -> bool, key: E -> nat) {
    forall p, q ::
      (p in LiveSet(v, inuse) && q in LiveSet(v, inuse) && ValidPos(v, p) && ValidPos(v, q) &&
       key(At(v, p)) == key(At(v, q))) ==> p == q
  }

  // ==== the scan

  /** The generator yields exactly the slots with the asked liveness at or after (i, k). */
  lemma {:induction false} ScanFromMembers<E>(v: seq<seq<E>>, inuse: E -> bool, live: bool, i: nat, k: nat)
    requires i <= |v| && (i < |v| ==> k <= |v[i]|)
    ensures forall p :: p in ScanFrom(v, inuse, live, i, k) <==>
      ValidPos(v, p) && inuse(At(v, p)) == live && !Before(p, Pos(i, k))
    decreases |v| - i, if i < |v| then |v[i]| - k else 0
  {
    if i == |v| {
    } else if k == |v[i]| {
      ScanFromMembers(v, inuse, live, i + 1, 0);
    } else {
      ScanFromMembers(v, inuse, live, i, k + 1);
    }
  }

  /** ... and yields them in scan order. */
  lemma {:induction false} ScanFromAscending<E>(v: seq<seq<E>>, inuse: E -> bool, live: bool, i: nat, k: nat)
    requires i <= |v| && (i < |v| ==> k <= |v[i]|)
    ensures Ascending(ScanFrom(v, inuse, live, i, k))
    decreases |v| - i, if i < |v| then |v[i]| - k else 0
  {
    if i == |v| {
    } else if k == |v[i]| {
      ScanFromAscending(v, inuse, live, i + 1, 0);
    } else {
      ScanFromAscending(v, inuse, live, i, k + 1);
      if inuse(v[i][k]) == live {
        var rest := ScanFrom(v, inuse, live, i, k + 1);
        ScanFromMembers(v, inuse, live, i, k + 1);
        assert forall q :: q in rest ==> !Before(q, Pos(i, k + 1));
        AscendingCons(Pos(i, k), rest);
      }
    }
  }

  /** A slot before every slot of an ascending list can be put at its head. */
  lemma AscendingCons(p: Pos, rest: seq<Pos>)
    requires Ascending(rest) && forall q :: q in rest ==> Before(p, q)
    ensures Ascending([p] + rest)
  {
    var r := [p] + rest;
    forall a, b | 0 <= a < b < |r| ensures Before(r[a], r[b]) {
      assert r[b] == rest[b - 1] && r[b] in rest;
      if a > 0 {
        assert r[a] == rest[a - 1];
      }
    }
  }

  lemma ScanSpec<E>(v: seq<seq<E>>, inuse: E -> bool, live: bool)
    ensures forall p :: p in Scan(v, inuse, live) <==> ValidPos(v, p) && inuse(At(v, p)) == live
    ensures Ascending(Scan(v, inuse, live))
  {
    ScanFromMembers(v, inuse, live, 0, 0);
    ScanFromAscending(v, inuse, live, 0, 0);
  }

  /** Live-set membership is exactly "a valid slot holding a live element". */
  lemma LiveSetSpec<E>(v: seq<seq<E>>, inuse: E -> bool)
    ensures forall p :: p in LiveSet(v, inuse) <==> ValidPos(v, p) && inuse(At(v, p))
  {
    ScanSpec(v, inuse, true);
  }

  /** An ascending list has no repeats, so it is as long as its set of elements. */
  lemma {:induction false} AscendingCard(ps: seq<Pos>)
    requires Ascending(ps)
    ensures |set p | p in ps| == |ps|
    decreases |ps|
  {
    if ps != [] {
      AscendingCard(ps[1..]);
      assert (set p | p in ps) == {ps[0]} + (set p | p in ps[1..]);
      assert ps[0] !in ps[1..] by {
        forall a | 0 <= a < |ps[1..]| ensures ps[1..][a] != ps[0] {
          assert Before(ps[0], ps[a + 1]);
        }
      }
    }
  }

  /** Iteration visits each live slot once: its length is the live count. */
  lemma LiveCountIsScanLength<E>(v: seq<seq<E>>, inuse: E -> bool)
    ensures |Scan(v, inuse, true)| == |LiveSet(v, inuse)|
  {
    ScanSpec(v, inuse, true);
    AscendingCard(Scan(v, inuse, true));
  }

  /** `empty()` holds exactly when no slot is live. */
  lemma EmptyIffNoLive<E>(v: seq<seq<E>>, inuse: E -> bool)
    ensures FirstLive(v, inuse) == None <==> forall p :: ValidPos(v, p) ==> !inuse(At(v, p))
    ensures FirstLive(v, inuse) == None <==> LiveSet(v, inuse) == {}
  {
    ScanSpec(v, inuse, true);
    if FirstLive(v, inuse) != None {
      assert Scan(v, inuse, true)[0] in LiveSet(v, inuse);
    }
  }

  /** `begin()` refers to a live slot and no live slot comes before it. */
  lemma FirstLiveSpec<E>(v: seq<seq<E>>, inuse: E -> bool)
    ensures FirstLive(v, inuse).Some? ==>
      var p := FirstLive(v, inuse).value;
      p in LiveSet(v, inuse) && ValidPos(v, p) && inuse(At(v, p)) &&
      forall q :: ValidPos(v, q) && Before(q, p) ==> !inuse(At(v, q))
  {
    ScanSpec(v, inuse, true);
    var ls := Scan(v, inuse, true);
    if ls != [] {
      var p := ls[0];
      assert p in ls;
      forall q | ValidPos(v, q) && Before(q, p) ensures !inuse(At(v, q)) {
        assert q !in ls by {
          forall a | 0 <= a < |ls| ensures ls[a] != q {
            assert a == 0 || Before(ls[0], ls[a]);
          }
        }
      }
    }
  }

  /** What is left to yield from slot `k` of layer `i` on. */
  function Remaining<E>(v: seq<seq<E>>, inuse: E -> bool, i: nat, k: nat): seq<E>
    requires i <= |v| && (i < |v| ==> k <= |v[i]|)
  {
    if i < |v| then LiveInLayer(v[i][k..], inuse) + LiveValues(v[i + 1..], inuse) else []
  }

  /** The elements iteration yields are the live elements, layer by layer from the head. */
  lemma {:induction false} ScanFromValues<E>(v: seq<seq<E>>, inuse: E -> bool, i: nat, k: nat)
    requires i <= |v| && (i < |v| ==> k <= |v[i]|)
    ensures forall p :: p in ScanFrom(v, inuse, true, i, k) ==> ValidPos(v, p)
    ensures ValuesAt(v, ScanFrom(v, inuse, true, i, k)) == Remaining(v, inuse, i, k)
    decreases |v| - i, if i < |v| then |v[i]| - k else 0
  {
    ScanFromMembers(v, inuse, true, i, k);
    if i == |v| {
    } else if k == |v[i]| {
      ScanFromValues(v, inuse, i + 1, 0);
      NextLayer(v, inuse, i);
    } else {
      ScanFromValues(v, inuse, i, k + 1);
      NextSlot(v, inuse, i, k);
    }
  }

  lemma NextLayer<E>(v: seq<seq<E>>, inuse: E -> bool, i: nat)
    requires i < |v|
    ensures Remaining(v, inuse, i, |v[i]|) == Remaining(v, inuse, i + 1, 0)
  {
    assert v[i][|v[i]|..] == [];
    if i + 1 < |v| {
      assert v[i + 1..][0] == v[i + 1] && v[i + 1..][1..] == v[i + 2..];
      assert v[i + 1][0..] == v[i + 1];
    } else {
      assert v[i + 1..] == [];
    }
  }

  lemma NextSlot<E>(v: seq<seq<E>>, inuse: E -> bool, i: nat, k: nat)
    requires i < |v| && k < |v[i]|
    requires forall p :: p in ScanFrom(v, inuse, true, i, k) ==> ValidPos(v, p)
    requires forall p :: p in ScanFrom(v, inuse, true, i, k + 1) ==> ValidPos(v, p)
    ensures ValuesAt(v, ScanFrom(v, inuse, true, i, k)) ==
      (if inuse(v[i][k]) then [v[i][k]] else []) + ValuesAt(v, ScanFrom(v, inuse, true, i, k + 1))
    ensures Remaining(v, inuse, i, k) == (if inuse(v[i][k]) then [v[i][k]] else []) + Remaining(v, inuse, i, k + 1)
  {
    assert v[i][k..][1..] == v[i][k + 1..];
    assert v[i][k..][0] == v[i][k];
    var rest := ScanFrom(v, inuse, true, i, k + 1);
    if inuse(v[i][k]) {
      assert ScanFrom(v, inuse, true, i, k) == [Pos(i, k)] + rest;
      assert ValuesAt(v, [Pos(i, k)] + rest) == [v[i][k]] + ValuesAt(v, rest);
    }
  }

  /** Iteration yields exactly `LiveValues`. */
  lemma ScanValues<E>(v: seq<seq<E>>, inuse: E -> bool)
    ensures forall p :: p in Scan(v, inuse, true) ==> ValidPos(v, p)
    ensures ValuesAt(v, Scan(v, inuse, true)) == LiveValues(v, inuse)
  {
    ScanFromValues(v, inuse, 0, 0);
    if |v| > 0 {
      assert v[0][0..] == v[0];
    }
  }

  // ==== emplace

  /** The first dead slot is dead, every slot before it is live, and there is none iff all are live. */
  lemma FirstDeadSpec<E>(v: seq<seq<E>>, inuse: E -> bool)
    ensures FirstDead(v, inuse) == None <==> forall p :: ValidPos(v, p) ==> inuse(At(v, p))
    ensures FirstDead(v, inuse).Some? ==>
      var p := FirstDead(v, inuse).value;
      ValidPos(v, p) && !inuse(At(v, p)) &&
      forall q :: ValidPos(v, q) && Before(q, p) ==> inuse(At(v, q))
  {
    ScanSpec(v, inuse, false);
    var ds := Scan(v, inuse, false);
    if ds != [] {
      var p := ds[0];
      assert p in ds;
      forall q | ValidPos(v, q) && Before(q, p) ensures inuse(At(v, q)) {
        assert q !in ds by {
          forall a | 0 <= a < |ds| ensures ds[a] != q {
            assert a == 0 || Before(ds[0], ds[a]);
          }
        }
      }
    }
  }

  /** The number of live slots is the number of live elements iteration yields. */
  lemma LiveCount<E>(v: seq<seq<E>>, inuse: E -> bool)
    ensures |LiveSet(v, inuse)| == |LiveValues(v, inuse)|
  {
    LiveCountIsScanLength(v, inuse);
    ScanValues(v, inuse);
  }

  /** Overwriting one slot changes no other slot and no layer's size. */
  lemma PlaceAt<E>(v: seq<seq<E>>, p: Pos, e: E, q: Pos)
    requires ValidPos(v, p)
    ensures ValidPos(Place(v, p, e), q) <==> ValidPos(v, q)
    ensures ValidPos(v, q) ==> At(Place(v, p, e), q) == if q == p then e else At(v, q)
  {
  }

  /** Filling a dead slot with a live element adds exactly that slot to the live set. */
  lemma PlaceLive<E>(v: seq<seq<E>>, inuse: E -> bool, p: Pos, e: E)
    requires ValidPos(v, p) && !inuse(At(v, p)) && inuse(e)
    ensures LiveSet(Place(v, p, e), inuse) == LiveSet(v, inuse) + {p}
    ensures p !in LiveSet(v, inuse)
    ensures |LiveSet(Place(v, p, e), inuse)| == |LiveSet(v, inuse)| + 1
    ensures At(Place(v, p, e), p) == e
  {
    var w := Place(v, p, e);
    LiveSetSpec(v, inuse);
    LiveSetSpec(w, inuse);
    PlaceAt(v, p, e, p);
    forall q ensures q in LiveSet(w, inuse) <==> q in LiveSet(v, inuse) + {p} {
      PlaceAt(v, p, e, q);
    }
    assert LiveSet(w, inuse) == LiveSet(v, inuse) + {p};
  }

  /** Destroying a live slot removes exactly that slot from the live set. */
  lemma PlaceDead<E>(v: seq<seq<E>>, inuse: E -> bool, p: Pos, c: E)
    requires ValidPos(v, p) && inuse(At(v, p)) && !inuse(c)
    ensures LiveSet(Place(v, p, c), inuse) == LiveSet(v, inuse) - {p}
    ensures p in LiveSet(v, inuse)
    ensures |LiveSet(Place(v, p, c), inuse)| == |LiveSet(v, inuse)| - 1
  {
    var w := Place(v, p, c);
    LiveSetSpec(v, inuse);
    LiveSetSpec(w, inuse);
    forall q ensures q in LiveSet(w, inuse) <==> q in LiveSet(v, inuse) - {p} {
      PlaceAt(v, p, c, q);
    }
    assert LiveSet(w, inuse) == LiveSet(v, inuse) - {p};
  }

  /** Growth prepends one all-dead layer of the policy size, so the first dead slot is (0, 0). */
  lemma GrownSpec<E>(v: seq<seq<E>>, inuse: E -> bool, clean: E)
    requires !inuse(clean)
    ensures Grown(v, clean)[1..] == v
    ensures |Grown(v, clean)[0]| == NewLayerSize(v) && |Grown(v, clean)[0]| > 0
    ensures forall k :: 0 <= k < |Grown(v, clean)[0]| ==> !inuse(Grown(v, clean)[0][k])
    ensures FirstDead(Grown(v, clean), inuse) == Some(Pos(0, 0))
    ensures LiveValues(Grown(v, clean), inuse) == LiveValues(v, inuse)
    ensures forall p :: p in LiveSet(v, inuse) <==> Pos(p.layer + 1, p.slot) in LiveSet(Grown(v, clean), inuse)
  {
    var g := Grown(v, clean);
    assert g[1..] == v;
    FirstDeadSpec(g, inuse);
    ScanSpec(g, inuse, false);
    assert Pos(0, 0) in Scan(g, inuse, false);
    assert !inuse(At(g, Pos(0, 0)));
    AllDeadLayer(g[0], inuse);
    LiveSetSpec(v, inuse);
    LiveSetSpec(g, inuse);
    forall p: Pos | Pos(p.layer + 1, p.slot) in LiveSet(g, inuse) ensures p in LiveSet(v, inuse) {
      assert At(g, Pos(p.layer + 1, p.slot)) == At(v, p);
    }
  }

  lemma {:induction false} AllDeadLayer<E>(l: seq<E>, inuse: E -> bool)
    requires forall k :: 0 <= k < |l| ==> !inuse(l[k])
    ensures LiveInLayer(l, inuse) == []
    decreases |l|
  {
    if l != [] {
      AllDeadLayer(l[1..], inuse);
    }
  }

  // ==== weed

  lemma {:induction false} LiveInLayerEmpty<E>(l: seq<E>, inuse: E -> bool)
    ensures LiveInLayer(l, inuse) == [] <==> !HasLive(l, inuse)
    decreases |l|
  {
    if l != [] {
      LiveInLayerEmpty(l[1..], inuse);
      if HasLive(l[1..], inuse) {
        var k :| 0 <= k < |l[1..]| && inuse(l[1..][k]);
        assert inuse(l[k + 1]);
      }
      if HasLive(l, inuse) && !inuse(l[0]) {
        var k :| 0 <= k < |l| && inuse(l[k]);
        assert inuse(l[1..][k - 1]);
      }
    }
  }

  /**
    `weed` keeps exactly the layers holding a live slot, in order, and leaves
    every live element (and the order iteration yields them in) unchanged.
  */
  lemma {:induction false} WeededSpec<E>(v: seq<seq<E>>, inuse: E -> bool)
    ensures forall l :: l in Weeded(v, inuse) ==> l in v && HasLive(l, inuse)
    ensures forall i :: 0 <= i < |v| && HasLive(v[i], inuse) ==> v[i] in Weeded(v, inuse)
    ensures LiveValues(Weeded(v, inuse), inuse) == LiveValues(v, inuse)
    ensures |Weeded(v, inuse)| <= |v|
    decreases |v|
  {
    if v != [] {
      WeededSpec(v[1..], inuse);
      LiveInLayerEmpty(v[0], inuse);
      var w := Weeded(v, inuse);
      var rest := Weeded(v[1..], inuse);
      forall i | 0 <= i < |v| && HasLive(v[i], inuse) ensures v[i] in w {
        if i > 0 {
          assert v[i] == v[1..][i - 1];
        }
      }
      if HasLive(v[0], inuse) {
        assert w == [v[0]] + rest && w[1..] == rest;
      } else {
        assert w == rest;
      }
    }
  }

  /** Weeding a pool with no live slot removes every layer. */
  lemma WeedAllDead<E>(v: seq<seq<E>>, inuse: E -> bool)
    requires LiveSet(v, inuse) == {}
    ensures Weeded(v, inuse) == []
  {
    LiveSetSpec(v, inuse);
    forall i, k | 0 <= i < |v| && 0 <= k < |v[i]| ensures !inuse(v[i][k]) {
      assert Pos(i, k) !in LiveSet(v, inuse);
    }
    WeedNoLiveLayer(v, inuse);
  }

  lemma {:induction false} WeedNoLiveLayer<E>(v: seq<seq<E>>, inuse: E -> bool)
    requires forall i, k :: 0 <= i < |v| && 0 <= k < |v[i]| ==> !inuse(v[i][k])
    ensures Weeded(v, inuse) == []
    decreases |v|
  {
    if v != [] {
      forall i, k | 0 <= i < |v[1..]| && 0 <= k < |v[1..][i]| ensures !inuse(v[1..][i][k]) {
        assert v[1..][i] == v[i + 1];
      }
      WeedNoLiveLayer(v[1..], inuse);
    }
  }

  // ==== keys of live elements (for records: their guids)

  /** Filling a dead slot with a live element adds exactly that element's key. */
  lemma PlaceLiveKeys<E>(v: seq<seq<E>>, inuse: E -> bool, key: E -> nat, p: Pos, e: E)
    requires ValidPos(v, p) && !inuse(At(v, p)) && inuse(e)
    ensures KeysOf(Place(v, p, e), inuse, key) == KeysOf(v, inuse, key) + {key(e)}
  {
    var w := Place(v, p, e);
    PlaceLive(v, inuse, p, e);
    forall g | g in KeysOf(w, inuse, key) ensures g in KeysOf(v, inuse, key) + {key(e)} {
      var q :| q in LiveSet(w, inuse) && ValidPos(w, q) && key(At(w, q)) == g;
      if q != p {
        assert q in LiveSet(v, inuse) && ValidPos(v, q) && At(w, q) == At(v, q);
      }
    }
    forall g | g in KeysOf(v, inuse, key) + {key(e)} ensures g in KeysOf(w, inuse, key) {
      if g == key(e) {
        assert p in LiveSet(w, inuse) && ValidPos(w, p) && At(w, p) == e;
      } else {
        var q :| q in LiveSet(v, inuse) && ValidPos(v, q) && key(At(v, q)) == g;
        assert q != p && q in LiveSet(w, inuse) && ValidPos(w, q) && At(w, q) == At(v, q);
      }
    }
  }

  /** Filling a dead slot with an element whose key is unused keeps the keys distinct. */
  lemma PlaceLiveDistinct<E>(v: seq<seq<E>>, inuse: E -> bool, key: E -> nat, p: Pos, e: E)
    requires ValidPos(v, p) && !inuse(At(v, p)) && inuse(e) && key(e) !in KeysOf(v, inuse, key)
    requires DistinctKeys(v, inuse, key)
    ensures DistinctKeys(Place(v, p, e), inuse, key)
  {
    var w := Place(v, p, e);
    PlaceLive(v, inuse, p, e);
    forall a, b | a in LiveSet(w, inuse) && b in LiveSet(w, inuse) && ValidPos(w, a) && ValidPos(w, b)
      && key(At(w, a)) == key(At(w, b))
      ensures a == b
    {
      if a != p {
        assert a in LiveSet(v, inuse) && ValidPos(v, a) && At(w, a) == At(v, a);
      }
      if b != p {
        assert b in LiveSet(v, inuse) && ValidPos(v, b) && At(w, b) == At(v, b);
      }
    }
  }

  /** Destroying a live slot removes exactly its key, provided keys were distinct. */
  lemma PlaceDeadKeys<E>(v: seq<seq<E>>, inuse: E -> bool, key: E -> nat, p: Pos, c: E)
    requires ValidPos(v, p) && inuse(At(v, p)) && !inuse(c) && DistinctKeys(v, inuse, key)
    ensures KeysOf(Place(v, p, c), inuse, key) == KeysOf(v, inuse, key) - {key(At(v, p))}
  {
    var w := Place(v, p, c);
    PlaceDead(v, inuse, p, c);
    forall g | g in KeysOf(v, inuse, key) - {key(At(v, p))} ensures g in KeysOf(w, inuse, key) {
      var q :| q in LiveSet(v, inuse) && ValidPos(v, q) && key(At(v, q)) == g;
      assert q != p && q in LiveSet(w, inuse) && ValidPos(w, q) && At(w, q) == At(v, q);
    }
    forall g | g in KeysOf(w, inuse, key) ensures g in KeysOf(v, inuse, key) - {key(At(v, p))} {
      var q :| q in LiveSet(w, inuse) && ValidPos(w, q) && key(At(w, q)) == g;
      assert q != p && q in LiveSet(v, inuse) && ValidPos(v, q) && At(w, q) == At(v, q);
      assert p in LiveSet(v, inuse);
    }
  }

  /** Destroying a live slot keeps the remaining keys distinct. */
  lemma PlaceDeadDistinct<E>(v: seq<seq<E>>, inuse: E -> bool, key: E -> nat, p: Pos, c: E)
    requires ValidPos(v, p) && inuse(At(v, p)) && !inuse(c) && DistinctKeys(v, inuse, key)
    ensures DistinctKeys(Place(v, p, c), inuse, key)
  {
    var w := Place(v, p, c);
    PlaceDead(v, inuse, p, c);
    forall a, b | a in LiveSet(w, inuse) && b in LiveSet(w, inuse) && ValidPos(w, a) && ValidPos(w, b)
      && key(At(w, a)) == key(At(w, b))
      ensures a == b
    {
      assert a in LiveSet(v, inuse) && ValidPos(v, a) && At(w, a) == At(v, a);
      assert b in LiveSet(v, inuse) && ValidPos(v, b) && At(w, b) == At(v, b);
    }
  }

  /** A live slot of the grown pool lies one layer further down than in the old pool. */
  lemma GrownLive<E>(v: seq<seq<E>>, inuse: E -> bool, clean: E, q: Pos)
    requires !inuse(clean)
    ensures q in LiveSet(Grown(v, clean), inuse) <==>
              q.layer > 0 && Pos(q.layer - 1, q.slot) in LiveSet(v, inuse)
    ensures q in LiveSet(Grown(v, clean), inuse) ==>
              ValidPos(Grown(v, clean), q) && ValidPos(v, Pos(q.layer - 1, q.slot)) &&
              At(Grown(v, clean), q) == At(v, Pos(q.layer - 1, q.slot))
  {
    var g := Grown(v, clean);
    LiveSetSpec(v, inuse);
    LiveSetSpec(g, inuse);
    if 0 < q.layer < |g| {
      assert g[q.layer] == v[q.layer - 1];
    } else {
      assert q.layer == 0 && q.slot < |g[0]| ==> g[q.layer][q.slot] == clean;
    }
  }

  /** Growth adds no live element, so the set of keys is unchanged. */
  lemma GrownKeys<E>(v: seq<seq<E>>, inuse: E -> bool, key: E -> nat, clean: E)
    requires !inuse(clean)
    ensures KeysOf(Grown(v, clean), inuse, key) == KeysOf(v, inuse, key)
  {
    var g := Grown(v, clean);
    forall x | x in KeysOf(v, inuse, key) ensures x in KeysOf(g, inuse, key) {
      var q :| q in LiveSet(v, inuse) && ValidPos(v, q) && key(At(v, q)) == x;
      var q' := Pos(q.layer + 1, q.slot);
      GrownLive(v, inuse, clean, q');
      assert q' in LiveSet(g, inuse) && ValidPos(g, q') && key(At(g, q')) == x;
    }
    forall x | x in KeysOf(g, inuse, key) ensures x in KeysOf(v, inuse, key) {
      var q :| q in LiveSet(g, inuse) && ValidPos(g, q) && key(At(g, q)) == x;
      GrownLive(v, inuse, clean, q);
      LiveSetSpec(v, inuse);
      var q' := Pos(q.layer - 1, q.slot);
      assert q' in LiveSet(v, inuse) && ValidPos(v, q') && key(At(v, q')) == x;
    }
  }

  /** Growth keeps distinct keys distinct. */
  lemma GrownDistinct<E>(v: seq<seq<E>>, inuse: E -> bool, key: E -> nat, clean: E)
    requires !inuse(clean) && DistinctKeys(v, inuse, key)
    ensures DistinctKeys(Grown(v, clean), inuse, key)
  {
    var g := Grown(v, clean);
    LiveSetSpec(v, inuse);
    forall a, b | a in LiveSet(g, inuse) && b in LiveSet(g, inuse) && ValidPos(g, a) && ValidPos(g, b)
      && key(At(g, a)) == key(At(g, b))
      ensures a == b
    {
      GrownLive(v, inuse, clean, a);
      GrownLive(v, inuse, clean, b);
      var a', b' := Pos(a.layer - 1, a.slot), Pos(b.layer - 1, b.slot);
      assert a' in LiveSet(v, inuse) && b' in LiveSet(v, inuse);
    }
  }

  /** Destroying a live slot removes it, and only it, from every filtered live set that held it. */
  lemma PlaceDeadWhere<E>(v: seq<seq<E>>, inuse: E -> bool, pred: E -> bool, p: Pos, c: E)
    requires ValidPos(v, p) && inuse(At(v, p)) && !inuse(c)
    ensures LiveWhere(Place(v, p, c), inuse, pred) == LiveWhere(v, inuse, pred) - {p}
  {
    var w := Place(v, p, c);
    PlaceDead(v, inuse, p, c);
    forall q | q in LiveWhere(w, inuse, pred) ensures q in LiveWhere(v, inuse, pred) - {p} {
      assert At(w, q) == At(v, q);
    }
    forall q | q in LiveWhere(v, inuse, pred) - {p} ensures q in LiveWhere(w, inuse, pred) {
      assert At(w, q) == At(v, q);
    }
  }

  // ==== emplace, end to end

  /**
    Emplacing stores `e` in a slot that was dead (the first dead one when there
    is one), raises the live count by exactly one, and grows the pool only when
    every slot was live, by prepending one layer and keeping the others.
  */
  lemma EmplacedSpec<E>(v: seq<seq<E>>, inuse: E -> bool, clean: E, e: E)
    requires !inuse(clean) && inuse(e)
    ensures var (w, p) := Emplaced(v, inuse, clean, e);
      ValidPos(w, p) && At(w, p) == e && |LiveSet(w, inuse)| == |LiveSet(v, inuse)| + 1
    ensures var (w, p) := Emplaced(v, inuse, clean, e);
      FirstDead(v, inuse).Some? ==>
        p == FirstDead(v, inuse).value && |w| == |v| && ValidPos(v, p) && !inuse(At(v, p)) &&
        LiveSet(w, inuse) == LiveSet(v, inuse) + {p} &&
        forall q :: ValidPos(v, q) && q != p ==> ValidPos(w, q) && At(w, q) == At(v, q)
    ensures var (w, p) := Emplaced(v, inuse, clean, e);
      FirstDead(v, inuse).None? ==>
        p == Pos(0, 0) && |w| == |v| + 1 && w[1..] == v && |w[0]| == NewLayerSize(v) &&
        forall q :: ValidPos(v, q) ==> inuse(At(v, q))
  {
    FirstDeadSpec(v, inuse);
    match FirstDead(v, inuse)
    case Some(p) =>
      PlaceLive(v, inuse, p, e);
    case None =>
      var g := Grown(v, clean);
      GrownSpec(v, inuse, clean);
      FirstDeadSpec(g, inuse);
      PlaceLive(g, inuse, Pos(0, 0), e);
      LiveCount(g, inuse);
      LiveCount(v, inuse);
      var w := Place(g, Pos(0, 0), e);
      assert w[1..] == g[1..];
  }

  /** Emplacing adds exactly the new element's key, and an unused key keeps the keys distinct. */
  lemma EmplacedKeys<E>(v: seq<seq<E>>, inuse: E -> bool, clean: E, e: E, key: E -> nat)
    requires !inuse(clean) && inuse(e)
    ensures KeysOf(Emplaced(v, inuse, clean, e).0, inuse, key) == KeysOf(v, inuse, key) + {key(e)}
    ensures DistinctKeys(v, inuse, key) && key(e) !in KeysOf(v, inuse, key) ==>
              DistinctKeys(Emplaced(v, inuse, clean, e).0, inuse, key)
  {
    FirstDeadSpec(v, inuse);
    match FirstDead(v, inuse)
    case Some(p) =>
      PlaceLiveKeys(v, inuse, key, p, e);
      if DistinctKeys(v, inuse, key) && key(e) !in KeysOf(v, inuse, key) {
        PlaceLiveDistinct(v, inuse, key, p, e);
      }
    case None =>
      var g := Grown(v, clean);
      GrownSpec(v, inuse, clean);
      FirstDeadSpec(g, inuse);
      GrownKeys(v, inuse, key, clean);
      PlaceLiveKeys(g, inuse, key, Pos(0, 0), e);
      if DistinctKeys(v, inuse, key) && key(e) !in KeysOf(v, inuse, key) {
        GrownDistinct(v, inuse, key, clean);
        PlaceLiveDistinct(g, inuse, key, Pos(0, 0), e);
      }
  }

  /** Every live element satisfies `pred`. */
  ghost predicate AllLive<E>(v: seq<seq<E>>, inuse: E -> bool, pred: E -> bool) {
    forall p :: ValidPos(v, p) && inuse(At(v, p)) ==> pred(At(v, p))
  }

  /** Writing a value that is dead or satisfies `pred` keeps every live element satisfying it. */
  lemma PlaceKeepsAll<E>(v: seq<seq<E>>, inuse: E -> bool, pred: E -> bool, p: Pos, e: E)
    requires ValidPos(v, p) && AllLive(v, inuse, pred) && (inuse(e) ==> pred(e))
    ensures AllLive(Place(v, p, e), inuse, pred)
  {
    forall q | ValidPos(Place(v, p, e), q) && inuse(At(Place(v, p, e), q)) ensures pred(At(Place(v, p, e), q)) {
      PlaceAt(v, p, e, q);
    }
  }

  /** Emplacing an element that satisfies `pred` keeps every live element satisfying it. */
  lemma EmplacedKeepsAll<E>(v: seq<seq<E>>, inuse: E -> bool, clean: E, e: E, pred: E -> bool)
    requires !inuse(clean) && inuse(e) && pred(e) && AllLive(v, inuse, pred)
    ensures AllLive(Emplaced(v, inuse, clean, e).0, inuse, pred)
  {
    FirstDeadSpec(v, inuse);
    match FirstDead(v, inuse)
    case Some(p) =>
      PlaceKeepsAll(v, inuse, pred, p, e);
    case None =>
      GrownSpec(v, inuse, clean);
      GrownKeepsAll(v, inuse, clean, pred);
      PlaceKeepsAll(Grown(v, clean), inuse, pred, Pos(0, 0), e);
  }

  /** The layer growth adds is all dead, so every live element still satisfies `pred`. */
  lemma GrownKeepsAll<E>(v: seq<seq<E>>, inuse: E -> bool, clean: E, pred: E -> bool)
    requires !inuse(clean) && AllLive(v, inuse, pred)
    ensures AllLive(Grown(v, clean), inuse, pred)
  {
    var g := Grown(v, clean);
    assert g[1..] == v;
    forall q | ValidPos(g, q) && inuse(At(g, q)) ensures pred(At(g, q)) {
      assert g[q.layer] == v[q.layer - 1];
      assert At(g, q) == At(v, Pos(q.layer - 1, q.slot));
    }
  }

  /** Rewriting a live element with a live one of the same key keeps the live set, the keys and their distinctness. */
  lemma PlaceSameKey<E>(v: seq<seq<E>>, inuse: E -> bool, key: E -> nat, p: Pos, e: E)
    requires ValidPos(v, p) && inuse(At(v, p)) && inuse(e) && key(e) == key(At(v, p))
    ensures LiveSet(Place(v, p, e), inuse) == LiveSet(v, inuse)
    ensures KeysOf(Place(v, p, e), inuse, key) == KeysOf(v, inuse, key)
    ensures DistinctKeys(v, inuse, key) ==> DistinctKeys(Place(v, p, e), inuse, key)
  {
    var w := Place(v, p, e);
    LiveSetSpec(v, inuse);
    LiveSetSpec(w, inuse);
    forall q ensures q in LiveSet(w, inuse) <==> q in LiveSet(v, inuse) {
      PlaceAt(v, p, e, q);
    }
    assert LiveSet(w, inuse) == LiveSet(v, inuse);
    forall g | g in KeysOf(v, inuse, key) ensures g in KeysOf(w, inuse, key) {
      var q :| q in LiveSet(v, inuse) && ValidPos(v, q) && key(At(v, q)) == g;
      PlaceAt(v, p, e, q);
      assert q in LiveSet(w, inuse) && ValidPos(w, q) && key(At(w, q)) == g;
    }
    forall g | g in KeysOf(w, inuse, key) ensures g in KeysOf(v, inuse, key) {
      var q :| q in LiveSet(w, inuse) && ValidPos(w, q) && key(At(w, q)) == g;
      PlaceAt(v, p, e, q);
      assert q in LiveSet(v, inuse) && ValidPos(v, q) && key(At(v, q)) == g;
    }
    if DistinctKeys(v, inuse, key) {
      forall a, b | a in LiveSet(w, inuse) && b in LiveSet(w, inuse) && ValidPos(w, a) && ValidPos(w, b)
        && key(At(w, a)) == key(At(w, b))
        ensures a == b
      {
        PlaceAt(v, p, e, a);
        PlaceAt(v, p, e, b);
        assert key(At(v, a)) == key(At(v, b));
      }
    }
  }

  /** With no live slot there are no keys. */
  lemma NoLiveNoKeys<E>(v: seq<seq<E>>, inuse: E -> bool, key: E -> nat)
    requires LiveSet(v, inuse) == {}
    ensures KeysOf(v, inuse, key) == {}
  {
  }
}
