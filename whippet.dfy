/**
  The entity/component runtime: entities are a guid and the universe they
  belong to; each component type has a provider that keeps its components'
  records in a hanoi pool; the universe owns the guid registry, the providers
  (one per type tag) and the singly linked list of systems.

  A record is the component's base part (owner, guid, manager) plus its
  payload; it is live exactly when its guid is not 0. A component is
  addressed by the pool layer it lives in and its slot there, which is
  what a `_component*` identifies in the source.
*/
module Whippet {
  import opened Slab
  import opened Hanoi
  import Guids
  import Visit
  import Order

  /** A `std::type_index`; the provider map is ordered by it. */
  type TypeTag = nat

  /** `entity`: a guid and the universe it belongs to; the default entity is `Entity(null, 0)`. */
  datatype Entity<P> = Entity(world: Universe?<P>, guid: nat)

  /** The component base (`_owner`, `_guid`, `_manager`) and the payload `C`, absent before construction and after destruction. */
  datatype Record<P> = Record(owner: Entity<P>, guid: nat, manager: Provider?<P>, payload: Option<P>)

  /** A component as a callback sees it: its address and its record. */
  datatype Component<P> = Component(at: array<Record<P>>, slot: nat, rec: Record<P>)

  /** `is_fresh`: guid 0. */
  predicate IsFresh<P>(r: Record<P>) {
    r.guid == 0
  }

  /** The pool's liveness test for records. */
  predicate IsLive<P>(r: Record<P>) {
    !IsFresh(r)
  }

  function GuidOf<P>(r: Record<P>): nat {
    r.guid
  }

  /** `entity::world`: the universe the entity is bound to, which must exist. */
  function EntityWorld<P>(e: Entity<P>): (w: Universe<P>)
    requires e.world != null
    ensures w == e.world
  {
    e.world
  }

  /** `_component::world`: the universe of the component's owner. */
  function ComponentWorld<P>(r: Record<P>): (w: Universe<P>)
    requires r.owner.world != null
    ensures w == EntityWorld(r.owner)
  {
    r.owner.world
  }

  /** A cleared record: default owner, guid 0, no manager, no payload. */
  function Cleared<P>(): Record<P> {
    Record(Entity(null, 0), 0, null, None)
  }

  /** A live record is managed by provider `m` and owned by an entity of universe `w`. */
  function ManagedBy<P>(m: Provider?<P>, w: Universe?<P>): Record<P> -> bool {
    (r: Record<P>) => r.manager == m && r.owner.world == w
  }

  /** The selection of `forall`: components whose owner guid is `guid`. */
  function Owns<P>(guid: nat): Component<P> -> bool {
    (c: Component<P>) => c.rec.owner.guid == guid
  }

  /**
    The `_component` constructor, run by placement-new on a record that
    `alloc` filled in: it keeps owner, guid and manager, needs them to be
    set (not fresh), and the payload constructor `make` sees them.
  */
  function Construct<P>(r: Record<P>, make: (Entity<P>, nat) -> P): (c: Record<P>)
    requires !IsFresh(r)
    ensures c.owner == r.owner && c.guid == r.guid && c.manager == r.manager
    ensures c.payload == Some(make(r.owner, r.guid)) && IsLive(c)
  {
    r.(payload := Some(make(r.owner, r.guid)))
  }

  /**
    What the provider's `detach` leaves in a record: `~C()` destroys the
    payload, `~_component()` zeroes the guid and resets the owner, and
    `detach` clears the manager.
  */
  function Detached<P>(r: Record<P>): (c: Record<P>)
    requires !IsFresh(r)
    ensures IsFresh(c) && !IsLive(c) && c.owner == Entity(null, 0) && c.manager == null && c.payload == None
  {
    r.(payload := None).(guid := 0, owner := Entity(null, 0)).(manager := null)
  }

  /** The records of a pool with manager `m` in universe `w`: live guids are distinct, and each live record names `m` and an owner in `w`. */
  ghost predicate RecordsOk<P>(v: seq<seq<Record<P>>>, m: Provider?<P>, w: Universe?<P>) {
    DistinctKeys(v, IsLive, GuidOf) && AllLive(v, IsLive, ManagedBy(m, w))
  }

  /**
    `attach`'s effect on a pool whose records were `v0`: `r` is emplaced at the
    first dead slot (growing the pool when there is none), then that slot is
    overwritten by the constructed record of `c`, which sits at that slot of
    `layers`; no other slot changes.
  */
  ghost predicate Attached<P>(v0: seq<seq<Record<P>>>, v: seq<seq<Record<P>>>, layers: seq<array<Record<P>>>, r: Record<P>, c: Component<P>) {
    var (w, q) := Emplaced(v0, IsLive, Cleared(), r);
    ValidPos(w, q) && v == Place(w, q, c.rec) && q.layer < |layers| && c.at == layers[q.layer] && c.slot == q.slot
  }

  /**
    Between the old state and this one, every slot of an array in `home`
    kept its record, or held a live component of the entity with guid `g`
    and is now cleared.
  */
  twostate predicate Swept<P>(home: set<object>, g: nat)
    reads home
  {
    forall a: array<Record<P>>, k :: a in home && 0 <= k < a.Length ==>
      a[k] == old(a[k]) || (old(IsLive(a[k])) && old(a[k].owner.guid) == g && a[k] == Cleared())
  }

  /** Emplacing a live record of `m` with a new guid keeps the invariant and adds exactly that guid. */
  lemma EmplacedOk<P>(v: seq<seq<Record<P>>>, m: Provider?<P>, w: Universe?<P>, r: Record<P>)
    requires RecordsOk(v, m, w) && IsLive(r) && r.manager == m && r.owner.world == w
    requires r.guid !in KeysOf(v, IsLive, GuidOf)
    ensures var (u, p) := Emplaced(v, IsLive, Cleared(), r);
      RecordsOk(u, m, w) && KeysOf(u, IsLive, GuidOf) == KeysOf(v, IsLive, GuidOf) + {r.guid} &&
      ValidPos(u, p) && At(u, p) == r
  {
    EmplacedSpec(v, IsLive, Cleared(), r);
    EmplacedKeys(v, IsLive, Cleared(), r, GuidOf);
    EmplacedKeepsAll(v, IsLive, Cleared(), r, ManagedBy(m, w));
  }

  /** Replacing a live record by one with the same guid, manager and universe keeps the invariant, the live set and the guids. */
  lemma RebuiltOk<P>(v: seq<seq<Record<P>>>, m: Provider?<P>, w: Universe?<P>, p: Pos, r: Record<P>)
    requires RecordsOk(v, m, w) && ValidPos(v, p) && IsLive(At(v, p)) && IsLive(r)
    requires r.guid == At(v, p).guid && r.manager == m && r.owner.world == w
    ensures RecordsOk(Place(v, p, r), m, w)
    ensures LiveSet(Place(v, p, r), IsLive) == LiveSet(v, IsLive)
    ensures KeysOf(Place(v, p, r), IsLive, GuidOf) == KeysOf(v, IsLive, GuidOf)
  {
    PlaceSameKey(v, IsLive, GuidOf, p, r);
    PlaceKeepsAll(v, IsLive, ManagedBy(m, w), p, r);
  }

  /** Clearing a live record keeps the invariant, and removes exactly its slot and its guid. */
  lemma ClearedOk<P>(v: seq<seq<Record<P>>>, m: Provider?<P>, w: Universe?<P>, p: Pos)
    requires RecordsOk(v, m, w) && ValidPos(v, p) && IsLive(At(v, p))
    ensures At(v, p).manager == m && At(v, p).owner.world == w && At(v, p).guid in KeysOf(v, IsLive, GuidOf)
    ensures RecordsOk(Place(v, p, Cleared()), m, w)
    ensures LiveSet(Place(v, p, Cleared()), IsLive) == LiveSet(v, IsLive) - {p}
    ensures KeysOf(Place(v, p, Cleared()), IsLive, GuidOf) == KeysOf(v, IsLive, GuidOf) - {At(v, p).guid}
  {
    assert ManagedBy(m, w)(At(v, p));
    LiveSetSpec(v, IsLive);
    PlaceDead(v, IsLive, p, Cleared());
    PlaceDeadKeys(v, IsLive, GuidOf, p, Cleared());
    PlaceDeadDistinct(v, IsLive, GuidOf, p, Cleared());
    PlaceKeepsAll(v, IsLive, ManagedBy(m, w), p, Cleared());
  }

  /** The components at positions `ps` of a pool whose layers are `ls` and whose contents are `v`. */
  ghost function ComponentsOf<P>(ls: seq<array<Record<P>>>, v: seq<seq<Record<P>>>, ps: seq<Pos>): (cs: seq<Component<P>>)
    requires |ls| == |v| && forall i :: 0 <= i < |ps| ==> ValidPos(v, ps[i])
    ensures |cs| == |ps|
  {
    seq(|ps|, i requires 0 <= i < |ps| && ValidPos(v, ps[i]) && |ls| == |v| => Component(ls[ps[i].layer], ps[i].slot, v[ps[i].layer][ps[i].slot]))
  }

  /** The loop of the provider's `forall` over the live positions `ps`, reading the layers `ls`. */
  method FoldComponents<P, U>(ls: seq<array<Record<P>>>, ghost v: seq<seq<Record<P>>>, ps: seq<Pos>,
                              guid: nat, cb: (U, Component<P>) -> (U, bool), u: U) returns (r: U)
    requires |ls| == |v| && (forall j :: 0 <= j < |v| ==> ls[j][..] == v[j])
    requires forall i :: 0 <= i < |ps| ==> ValidPos(v, ps[i])
    ensures r == Visit.Fold(ComponentsOf(ls, v, ps), Owns(guid), cb, u).data
  {
    ghost var cs := ComponentsOf(ls, v, ps);
    r := u;
    var n := 0;
    while n < |ps|
      invariant 0 <= n <= |ps| == |cs|
      invariant Visit.Fold(cs, Owns(guid), cb, u).data == Visit.Fold(cs[n..], Owns(guid), cb, r).data
    {
      var a := ls[ps[n].layer];
      var c := Component(a, ps[n].slot, a[ps[n].slot]);
      assert c == cs[n];
      Visit.FoldStep(cs, n, Owns(guid), cb, r);
      if c.rec.owner.guid == guid {
        var (r', go) := cb(r, c);
        if !go {
          return r';
        }
        r := r';
      }
      n := n + 1;
    }
    assert cs[n..] == [];
  }

  /** The per-type provider built by `install<C>`: a hanoi pool of records. */
  class Provider<P> {
    const kind: TypeTag
    /** The universe whose provider map holds this provider. */
    ghost const world: Universe?<P>
    const storage: Hanoi<Record<P>>

    ghost predicate Valid()
      reads storage, storage.layers
    {
      storage.Valid() && storage.inuse == IsLive && storage.clean == Cleared() &&
      RecordsOk(storage.View(), this, world)
    }

    /** The guids of the live components. */
    ghost function Keys(): set<nat>
      reads storage, storage.layers
      requires Valid()
    {
      KeysOf(storage.View(), IsLive, GuidOf)
    }

    /** The live components in iteration order. */
    ghost function Components(): seq<Component<P>>
      reads storage, storage.layers
      requires Valid()
    {
      ScanSpec(storage.View(), IsLive, true);
      ComponentsOf(storage.layers, storage.View(), Scan(storage.View(), IsLive, true))
    }

    /** Each listed component is live in this pool, managed here, owned in `world`, and its guid is one of the keys. */
    lemma ComponentsSpec()
      requires Valid()
      ensures forall c :: c in Components() ==>
        storage.Holds(c.at, c.slot) && c.at[c.slot] == c.rec && IsLive(c.rec) &&
        c.rec.manager == this && c.rec.owner.world == world && c.rec.guid in Keys()
    {
      var v := storage.View();
      var ps := Scan(v, IsLive, true);
      ScanSpec(v, IsLive, true);
      LiveSetSpec(v, IsLive);
      forall c | c in Components()
        ensures storage.Holds(c.at, c.slot) && c.at[c.slot] == c.rec && IsLive(c.rec) &&
          c.rec.manager == this && c.rec.owner.world == world && c.rec.guid in Keys()
      {
        var i :| 0 <= i < |ps| && Components()[i] == c;
        var p := ps[i];
        assert p in LiveSet(v, IsLive) && ValidPos(v, p) && c.rec == At(v, p);
      }
    }

    /** A live record this pool holds names this provider as manager, an owner in `world`, and one of the keys. */
    lemma HeldSpec(a: array<Record<P>>, k: nat)
      requires Valid() && storage.Holds(a, k)
      ensures a[k].manager == this && a[k].owner.world == world && a[k].guid in Keys()
    {
      var v := storage.View();
      var i :| 0 <= i < |storage.layers| && storage.layers[i] == a;
      var p := Pos(i, k);
      assert ValidPos(v, p) && At(v, p) == a[k];
      LiveSetSpec(v, IsLive);
      assert ManagedBy(this, world)(At(v, p));
    }

    constructor (kind: TypeTag, ghost world: Universe?<P>)
      ensures Valid() && fresh(storage) && this.kind == kind && this.world == world
      ensures storage.layers == [] && storage.View() == [] && Keys() == {}
    {
      this.kind := kind;
      this.world := world;
      storage := new Hanoi(IsLive, Cleared());
    }

    /**
      `alloc`: activate a guid in the owner's universe, then emplace a record
      that already carries owner, guid and this provider as manager, so the
      payload constructor that follows can see them.
    */
    method Alloc(owner: Entity<P>) returns (p: Pos, c: Component<P>)
      requires Valid() && owner.world == world && world != null
      requires 0 !in world.active && Keys() <= world.active
      modifies storage, storage.layers, world`active
      ensures Valid() && forall a :: a in storage.layers ==> a in old(storage.layers) || fresh(a)
      ensures var g := Guids.NextGuid(old(world.active));
        g != 0 && g !in old(world.active) && world.active == old(world.active) + {g} &&
        c.rec == Record(owner, g, this, None) && Keys() == old(Keys()) + {g}
      ensures (storage.View(), p) == Emplaced(old(storage.View()), IsLive, Cleared(), c.rec)
      ensures ValidPos(storage.View(), p) && At(storage.View(), p) == c.rec
      ensures c.at == storage.layers[p.layer] && c.slot == p.slot
    {
      var g := Activate(owner);
      var rec := Record(owner, g, this, None);
      p := Emplace(rec);
      c := Component(storage.layers[p.layer], p.slot, rec);
    }

    /** `emplace_unspecified` of a live record of this provider with a new guid. */
    method Emplace(rec: Record<P>) returns (p: Pos)
      requires Valid() && IsLive(rec) && rec.manager == this && rec.owner.world == world && rec.guid !in Keys()
      modifies storage, storage.layers
      ensures storage.Valid()
      ensures RecordsOk(storage.View(), this, world)
      ensures KeysOf(storage.View(), IsLive, GuidOf) == old(Keys()) + {rec.guid}
      ensures (storage.View(), p) == Emplaced(old(storage.View()), IsLive, Cleared(), rec)
      ensures ValidPos(storage.View(), p) && At(storage.View(), p) == rec
      ensures forall a :: a in storage.layers ==> a in old(storage.layers) || fresh(a)
    {
      ghost var v := storage.View();
      EmplacedOk(v, this, world, rec);
      p := storage.EmplaceUnspecified(rec);
    }

    /** Placement-new of the payload into the record `alloc` returned. */
    method Build(p: Pos, make: (Entity<P>, nat) -> P) returns (c: Component<P>)
      requires Valid() && ValidPos(storage.View(), p) && IsLive(At(storage.View(), p))
      modifies storage.layers[p.layer]
      ensures Valid() && storage.layers == old(storage.layers) && Keys() == old(Keys())
      ensures c.rec == Construct(old(At(storage.View(), p)), make)
      ensures storage.View() == Place(old(storage.View()), p, c.rec)
      ensures ValidPos(storage.View(), p) && At(storage.View(), p) == c.rec
      ensures c.at == storage.layers[p.layer] && c.slot == p.slot
      ensures storage.Holds(c.at, c.slot) && c.at[c.slot] == c.rec
      ensures LiveSet(storage.View(), IsLive) == old(LiveSet(storage.View(), IsLive))
    {
      ghost var v := storage.View();
      var a := storage.layers[p.layer];
      var rec := Construct(a[p.slot], make);
      RebuiltOk(v, this, world, p, rec);
      storage.Store(p, rec);
      c := Component(a, p.slot, rec);
    }

    /**
      The provider's part of `attach`: `alloc`, then the placement-new of the
      payload into the record it returned.
    */
    method Make(owner: Entity<P>, make: (Entity<P>, nat) -> P) returns (c: Component<P>)
      requires Valid() && owner.world == world && world != null
      requires 0 !in world.active && Keys() <= world.active
      modifies storage, storage.layers, world`active
      ensures Valid() && forall a :: a in storage.layers ==> a in old(storage.layers) || fresh(a)
      ensures var g := Guids.NextGuid(old(world.active));
        g != 0 && g !in old(world.active) && world.active == old(world.active) + {g} &&
        c.rec == Record(owner, g, this, Some(make(owner, g))) && Keys() == old(Keys()) + {g}
      ensures Attached(old(storage.View()), storage.View(), storage.layers, Record(owner, Guids.NextGuid(old(world.active)), this, None), c)
      ensures storage.Holds(c.at, c.slot) && c.at[c.slot] == c.rec
    {
      ghost var e := Emplaced(storage.View(), IsLive, Cleared(), Record(owner, Guids.NextGuid(world.active), this, None));
      var p, c0 := Alloc(owner);
      assert storage.layers[p.layer] in old(storage.layers) || fresh(storage.layers[p.layer]);
      assert e == (storage.View(), p);
      c := Build(p, make);
      assert storage.View() == Place(e.0, e.1, c.rec);
    }

    /**
      `detach`: find the component's slot by its address among the live
      slots, destroy it (releasing its guid in the owner's universe), clear
      the record and erase the slot, which is by then already dead.
    */
    method Detach(c: Component<P>) returns (p: Pos)
      requires Valid() && world != null && storage.Holds(c.at, c.slot)
      requires Keys() <= world.active
      modifies c.at, world`active
      ensures Valid() && storage.layers == old(storage.layers)
      ensures ValidPos(old(storage.View()), p) && storage.layers[p.layer] == c.at && p.slot == c.slot
      ensures old(IsLive(At(storage.View(), p)))
      ensures storage.View() == Place(old(storage.View()), p, Cleared())
      ensures forall k :: 0 <= k < c.at.Length ==> c.at[k] == if k == c.slot then Cleared() else old(c.at[k])
      ensures LiveSet(storage.View(), IsLive) == old(LiveSet(storage.View(), IsLive)) - {p}
      ensures var g := old(At(storage.View(), p)).guid;
        Keys() == old(Keys()) - {g} && world.active == old(world.active) - {g}
    {
      ghost var v := storage.View();
      var it := storage.Find(c.at, c.slot);
      p := it.value;
      var rec := storage.layers[p.layer][p.slot];
      ClearedOk(v, this, world, p);
      Destroy(rec);
      Clear(p, rec);
    }

    /** `alloc`'s `guid_activate` in the owner's universe, which touches no slot. */
    method Activate(owner: Entity<P>) returns (g: nat)
      requires Valid() && owner.world == world && world != null && 0 !in world.active
      modifies world`active
      ensures Valid() && storage.View() == old(storage.View()) && Keys() == old(Keys())
      ensures g == Guids.NextGuid(old(world.active)) && g != 0 && g !in old(world.active)
      ensures world.active == old(world.active) + {g}
    {
      g := owner.world.GuidActivate();
    }

    /** `~C()` then `~_component()`, which releases the record's guid in the owner's universe and touches no slot. */
    method Destroy(rec: Record<P>)
      requires Valid() && world != null && rec.owner.world == world && rec.guid in world.active
      modifies world`active
      ensures Valid() && storage.View() == old(storage.View()) && Keys() == old(Keys())
      ensures world.active == old(world.active) - {rec.guid}
    {
      rec.owner.world.GuidRelease(rec.guid);
    }

    /** The rest of `detach` once the guid is released: clear the record, then `erase(it)`, which finds the slot already dead. */
    method Clear(p: Pos, rec: Record<P>)
      requires Valid() && ValidPos(storage.View(), p) && At(storage.View(), p) == rec && IsLive(rec)
      modifies storage.layers[p.layer]
      ensures Valid() && storage.layers == old(storage.layers)
      ensures storage.View() == Place(old(storage.View()), p, Cleared())
      ensures LiveSet(storage.View(), IsLive) == old(LiveSet(storage.View(), IsLive)) - {p}
      ensures Keys() == old(Keys()) - {rec.guid}
    {
      ghost var v := storage.View();
      ghost var w := Place(v, p, Cleared());
      ClearedOk(v, this, world, p);
      PlaceAt(v, p, Cleared(), p);
      assert Detached(rec) == Cleared();
      storage.Store(p, Detached(rec));
      assert storage.View() == w && !IsLive(At(w, p));
      storage.EraseAt(p);
      assert storage.View() == w;
    }

    /**
      `forall`: walk the live components in iteration order, invoke `cb` on
      those owned by `guid`, and stop at the first call that returns false.
      `forany` is the same walk with the callback re-typed.
    */
    method ForAll<U>(guid: nat, cb: (U, Component<P>) -> (U, bool), u: U) returns (r: U)
      requires Valid()
      ensures r == Visit.Fold(Components(), Owns(guid), cb, u).data
    {
      var ps := storage.LayerIterator(true);
      ScanSpec(storage.View(), IsLive, true);
      r := FoldComponents(storage.layers, storage.View(), ps, guid, cb, u);
    }

    /**
      Part-way through `purge`: of the keys `ks0` the provider started with,
      the ones already detached are exactly the ones released from `a0`,
      the universe's active set at the start.
    */
    ghost predicate Draining(ks0: set<nat>, a0: set<nat>)
      reads this, storage, storage.layers, world
    {
      Valid() && world != null && Keys() <= ks0 && world.active == a0 - (ks0 - Keys())
    }

    /** Detach the component at `begin()`, which this provider manages. */
    method DetachHead(ghost ks0: set<nat>, ghost a0: set<nat>)
      requires Draining(ks0, a0) && ks0 <= a0 && LiveSet(storage.View(), IsLive) != {}
      modifies storage.layers, world`active
      ensures Draining(ks0, a0) && storage.layers == old(storage.layers)
      ensures |LiveSet(storage.View(), IsLive)| < old(|LiveSet(storage.View(), IsLive)|)
    {
      ghost var v := storage.View();
      ghost var live := LiveSet(v, IsLive);
      ghost var ks := Keys();
      var head := storage.Begin();
      FirstLiveSpec(v, IsLive);
      EmptyIffNoLive(v, IsLive);
      var q := head.value;
      var a := storage.layers[q.layer];
      var c := Component(a, q.slot, a[q.slot]);
      ghost var g := a[q.slot].guid;
      assert g == GuidOf(At(v, q)) && q in LiveSet(v, IsLive);
      Guids.DrainStep(ks0, a0, ks, world.active, g);
      var p := Detach(c);
      assert p == q;
    }

    /** One round of `purge`: detach the head, then test `empty()`. */
    method PurgeRound(ghost ks0: set<nat>, ghost a0: set<nat>) returns (empty: bool)
      requires Draining(ks0, a0) && ks0 <= a0 && LiveSet(storage.View(), IsLive) != {}
      modifies storage.layers, world`active
      ensures Draining(ks0, a0) && storage.layers == old(storage.layers)
      ensures |LiveSet(storage.View(), IsLive)| < old(|LiveSet(storage.View(), IsLive)|)
      ensures empty <==> LiveSet(storage.View(), IsLive) == {}
    {
      DetachHead(ks0, a0);
      empty := storage.IsEmpty();
    }

    /** `purge`: detach the first live component until the pool is empty; the provider's destructor then finds it empty. */
    method Purge()
      requires Valid() && world != null && Keys() <= world.active
      modifies storage.layers, world`active
      ensures Valid() && storage.layers == old(storage.layers)
      ensures LiveSet(storage.View(), IsLive) == {} && Keys() == {}
      ensures world.active == old(world.active) - old(Keys())
    {
      ghost var ks0, a0 := Keys(), world.active;
      var empty := storage.IsEmpty();
      while !empty
        invariant Draining(ks0, a0) && storage.layers == old(storage.layers)
        invariant empty <==> LiveSet(storage.View(), IsLive) == {}
        decreases |LiveSet(storage.View(), IsLive)|
      {
        empty := PurgeRound(ks0, a0);
      }
      NoLiveNoKeys(storage.View(), IsLive, GuidOf);
    }
  }

  /**
    A node of the systems list: the type tag `_name` and the universe
    `_world` that `system<S>()` stores before running S's constructor. The
    node's `_next` link is its position in `Universe.systems`, and its
    `_cleanup` closure is `Universe.Cleanup`.
  */
  datatype SystemNode<P> = SystemNode(name: TypeTag, world: Universe?<P>)

  /**
    The `_system` constructor: every member is initialised from itself, so
    what `system<S>()` stored before placement-new survives construction.
  */
  function SystemConstruct<P>(raw: SystemNode<P>): (s: SystemNode<P>)
    ensures s.name == raw.name && s.world == raw.world
  {
    SystemNode(raw.name, raw.world)
  }

  /**
    The order in which `_cleanup`, called on the first of `nodes`, destroys
    them: each node first runs the cleanup of its successor, then destroys
    itself.
  */
  function TeardownOrder<P>(nodes: seq<SystemNode<P>>): (names: seq<TypeTag>)
    ensures |names| == |nodes|
    decreases |nodes|
  {
    if nodes == [] then [] else TeardownOrder(nodes[1..]) + [nodes[0].name]
  }

  /** A list built by prepending the names of `created` one by one is torn down in creation order. */
  lemma {:induction false} TeardownInCreationOrder<P>(nodes: seq<SystemNode<P>>, created: seq<TypeTag>)
    requires |nodes| == |created|
    requires forall i :: 0 <= i < |nodes| ==> nodes[i].name == created[|created| - 1 - i]
    ensures TeardownOrder(nodes) == created
    decreases |nodes|
  {
    if nodes != [] {
      var n := |created|;
      TeardownInCreationOrder(nodes[1..], created[..n - 1]);
      assert created == created[..n - 1] + [nodes[0].name];
    }
  }

  /** Provider `p` is valid and registered under tag `t` of universe `w`. */
  ghost predicate PoolOk<P>(p: Provider<P>, t: TypeTag, w: Universe<P>)
    reads p.storage, p.storage.layers
  {
    p.Valid() && p.kind == t && p.world == w
  }

  /** The pool of `p` and each of its layers belong to tag `t` in `home`. */
  ghost predicate Homed<P>(p: Provider<P>, t: TypeTag, home: map<object, TypeTag>)
    reads p.storage
  {
    p.storage in home && home[p.storage] == t &&
    forall a :: a in p.storage.layers ==> a in home && home[a] == t
  }

  /** The guids `owner` accounts to tag `t`. */
  ghost function KeysFor(owner: map<nat, TypeTag>, t: TypeTag): (ks: set<nat>)
    ensures forall g :: g in ks <==> g in owner && owner[g] == t
  {
    set g | g in owner && owner[g] == t
  }

  /** Accounting a new guid to `kind` adds it to the guids of `kind` and changes no other tag's. */
  lemma KeysForAdd(owner: map<nat, TypeTag>, g: nat, kind: TypeTag)
    requires g !in owner
    ensures KeysFor(owner[g := kind], kind) == KeysFor(owner, kind) + {g}
    ensures forall t :: t != kind ==> KeysFor(owner[g := kind], t) == KeysFor(owner, t)
  {
  }

  /** Accounting a newly activated guid `g` to an installed tag keeps every accounted guid active and every tag installed. */
  lemma BooksAdd(owner: map<nat, TypeTag>, active: set<nat>, tags: set<TypeTag>, g: nat, kind: TypeTag)
    requires owner.Keys <= active && (forall h :: h in owner ==> owner[h] in tags) && kind in tags
    ensures var o := owner[g := kind]; o.Keys <= active + {g} && forall h :: h in o ==> o[h] in tags
  {
  }

  /**
    The provider registered under `t`. The registry's facts about a provider
    are stated in terms of it, so that a proof draws on them only for the
    providers it names this way.
  */
  function Pool<P>(ps: map<TypeTag, Provider<P>>, t: TypeTag): (p: Provider<P>)
    requires t in ps
    ensures p == ps[t]
  {
    ps[t]
  }

  /**
    Every provider of `ps` is well formed, owns its pool and layers in
    `home`, and holds the live components of exactly the guids `owner`
    accounts to its tag. As `home` and `owner` give each object and each
    guid one tag, no two providers share a pool, a layer or a guid.
  */
  ghost predicate Pools<P>(ps: map<TypeTag, Provider<P>>, home: map<object, TypeTag>, owner: map<nat, TypeTag>,
                           w: Universe<P>)
    reads home.Keys
  {
    forall t {:trigger Pool(ps, t)} :: t in ps ==>
      Pool(ps, t).storage in home && Homed(Pool(ps, t), t, home) && PoolOk(Pool(ps, t), t, w) &&
      Pool(ps, t).Keys() == KeysFor(owner, t)
  }

  /** Registering a new, empty provider under a tag no guid is accounted to keeps the registry well formed. */
  lemma PoolsAdd<P>(ps: map<TypeTag, Provider<P>>, home: map<object, TypeTag>, owner: map<nat, TypeTag>,
                    w: Universe<P>, kind: TypeTag, p: Provider<P>)
    requires Pools(ps, home, owner, w) && kind !in ps && KeysFor(owner, kind) == {}
    requires PoolOk(p, kind, w) && p.storage !in home && p.storage.layers == [] && p.Keys() == {}
    ensures Pools(ps[kind := p], home[p.storage := kind], owner, w)
  {
    var qs, h := ps[kind := p], home[p.storage := kind];
    forall t | t in qs
      ensures Pool(qs, t).storage in h && Homed(Pool(qs, t), t, h) && PoolOk(Pool(qs, t), t, w) &&
        Pool(qs, t).Keys() == KeysFor(owner, t)
    {
      if t != kind {
        assert Pool(qs, t) == Pool(ps, t) && Homed(Pool(ps, t), t, home);
      }
    }
  }

  /** `home` without the objects of tag `kind`. */
  ghost function Without(home: map<object, TypeTag>, kind: TypeTag): (h: map<object, TypeTag>)
    ensures h.Keys <= home.Keys && forall o :: o in home ==> (o in h <==> home[o] != kind)
    ensures forall o :: o in h ==> h[o] == home[o]
  {
    map o | o in home && home[o] != kind :: home[o]
  }

  /**
    Setting the provider of `kind` aside: the others stay well formed in
    `home` without its objects, and none of those objects is its pool or
    one of its layers.
  */
  lemma PoolsRestrict<P>(ps: map<TypeTag, Provider<P>>, home: map<object, TypeTag>, owner: map<nat, TypeTag>,
                         w: Universe<P>, kind: TypeTag)
    requires Pools(ps, home, owner, w) && kind in ps
    ensures Pools(ps - {kind}, Without(home, kind), owner, w)
    ensures forall o :: o in Without(home, kind) ==> o != ps[kind].storage && o !in ps[kind].storage.layers
  {
    var qs, h := ps - {kind}, Without(home, kind);
    forall t | t in qs
      ensures Pool(qs, t).storage in h && Homed(Pool(qs, t), t, h) && PoolOk(Pool(qs, t), t, w) &&
        Pool(qs, t).Keys() == KeysFor(owner, t)
    {
      assert Pool(qs, t) == Pool(ps, t) && Homed(Pool(ps, t), t, home);
    }
    assert Homed(Pool(ps, kind), kind, home);
  }

  /**
    Putting the provider of `kind` back after it gained the guid `g` and
    perhaps new layers: its new layers are given to `kind` in `home` and the
    guid to `kind` in `owner`.
  */
  lemma PoolsJoin<P>(ps: map<TypeTag, Provider<P>>, home: map<object, TypeTag>, owner: map<nat, TypeTag>,
                     w: Universe<P>, kind: TypeTag, ls0: seq<array<Record<P>>>, g: nat)
    requires Pools(ps - {kind}, Without(home, kind), owner, w)
    requires kind in ps && PoolOk(ps[kind], kind, w) && g !in owner
    requires ps[kind].storage in home && home[ps[kind].storage] == kind
    requires forall a :: a in ls0 ==> a in home && home[a] == kind
    requires forall a :: a in ps[kind].storage.layers && a in home ==> a in ls0
    requires ps[kind].Keys() == KeysFor(owner, kind) + {g}
    ensures Pools(ps, Rehome(home, ps[kind].storage.layers, kind), owner[g := kind], w)
  {
    var rs, h, o := ps - {kind}, Rehome(home, ps[kind].storage.layers, kind), owner[g := kind];
    KeysForAdd(owner, g, kind);
    forall t | t in ps
      ensures Pool(ps, t).storage in h && Homed(Pool(ps, t), t, h) && PoolOk(Pool(ps, t), t, w) &&
        Pool(ps, t).Keys() == KeysFor(o, t)
    {
      if t != kind {
        assert Pool(rs, t) == Pool(ps, t) && Homed(Pool(rs, t), t, Without(home, kind));
      }
    }
  }

  /** Dropping a guid accounted to `kind` removes it from the guids of `kind` and changes no other tag's. */
  lemma KeysForRemove(owner: map<nat, TypeTag>, g: nat, kind: TypeTag)
    requires g in owner && owner[g] == kind
    ensures KeysFor(owner - {g}, kind) == KeysFor(owner, kind) - {g}
    ensures forall t :: t != kind ==> KeysFor(owner - {g}, t) == KeysFor(owner, t)
  {
  }

  /** Putting the provider of `kind` back after it lost the guid `g`, with its layers unchanged. */
  lemma PoolsLeave<P>(ps: map<TypeTag, Provider<P>>, home: map<object, TypeTag>, owner: map<nat, TypeTag>,
                      w: Universe<P>, kind: TypeTag, g: nat)
    requires Pools(ps - {kind}, Without(home, kind), owner, w)
    requires kind in ps && PoolOk(ps[kind], kind, w) && Homed(ps[kind], kind, home)
    requires g in owner && owner[g] == kind && ps[kind].Keys() == KeysFor(owner, kind) - {g}
    ensures Pools(ps, home, owner - {g}, w)
  {
    var rs, o := ps - {kind}, owner - {g};
    KeysForRemove(owner, g, kind);
    forall t | t in ps
      ensures Pool(ps, t).storage in home && Homed(Pool(ps, t), t, home) && PoolOk(Pool(ps, t), t, w) &&
        Pool(ps, t).Keys() == KeysFor(o, t)
    {
      if t != kind {
        assert Pool(rs, t) == Pool(ps, t) && Homed(Pool(rs, t), t, Without(home, kind));
      }
    }
  }

  /** `owner` without the guids accounted to `kind`. */
  ghost function Drop(owner: map<nat, TypeTag>, kind: TypeTag): (o: map<nat, TypeTag>)
    ensures forall g :: g in o <==> g in owner && owner[g] != kind
    ensures forall g :: g in o ==> o[g] == owner[g]
  {
    map g | g in owner && owner[g] != kind :: owner[g]
  }

  /** `owner` restricted to the guids accounted to one of the tags `ts`. */
  ghost function Only(owner: map<nat, TypeTag>, ts: set<TypeTag>): (o: map<nat, TypeTag>)
    ensures forall g :: g in o <==> g in owner && owner[g] in ts
    ensures forall g :: g in o ==> o[g] == owner[g]
  {
    map g | g in owner && owner[g] in ts :: owner[g]
  }

  /** Dropping one tag after another: the guids of the tags left. */
  lemma OnlyDrop(owner: map<nat, TypeTag>, ts: set<TypeTag>, t: TypeTag)
    ensures Drop(Only(owner, ts), t) == Only(owner, ts - {t})
    ensures Only(owner, ts).Keys - Drop(Only(owner, ts), t).Keys == KeysFor(Only(owner, ts), t)
  {
    assert Drop(Only(owner, ts), t).Keys == Only(owner, ts - {t}).Keys;
  }

  /** Every provider of `ps`, its objects owned in `home`, is well formed and holds no live component. */
  ghost predicate Emptied<P>(ps: map<TypeTag, Provider<P>>, home: map<object, TypeTag>)
    reads home.Keys
  {
    forall t {:trigger Pool(ps, t)} :: t in ps ==>
      Pool(ps, t).storage in home && Homed(Pool(ps, t), t, home) && Pool(ps, t).Valid() && Pool(ps, t).Keys() == {}
  }

  /** Putting the provider of `kind` back after `purge` emptied it, with its layers unchanged. */
  lemma PoolsPurged<P>(ps: map<TypeTag, Provider<P>>, home: map<object, TypeTag>, owner: map<nat, TypeTag>,
                       w: Universe<P>, kind: TypeTag)
    requires Pools(ps - {kind}, Without(home, kind), owner, w)
    requires kind in ps && PoolOk(ps[kind], kind, w) && Homed(ps[kind], kind, home) && ps[kind].Keys() == {}
    ensures Pools(ps, home, Drop(owner, kind), w)
  {
    var rs, o := ps - {kind}, Drop(owner, kind);
    forall t | t in ps
      ensures Pool(ps, t).storage in home && Homed(Pool(ps, t), t, home) && PoolOk(Pool(ps, t), t, w) &&
        Pool(ps, t).Keys() == KeysFor(o, t)
    {
      if t != kind {
        assert Pool(rs, t) == Pool(ps, t) && Homed(Pool(rs, t), t, Without(home, kind));
        assert KeysFor(o, t) == KeysFor(owner, t);
      } else {
        assert KeysFor(o, t) == {};
      }
    }
  }

  /**
    A system's `_cleanup`, called on the first of `nodes`: run the cleanup
    of the next node, if any, then destroy this one. `log` lists the
    destroyed nodes' names in the order destroyed.
  */
  method Cleanup<P>(nodes: seq<SystemNode<P>>) returns (log: seq<TypeTag>)
    requires nodes != []
    ensures log == TeardownOrder(nodes)
    decreases |nodes|
  {
    log := [];
    if |nodes| > 1 {
      log := Cleanup(nodes[1..]);
    }
    // `object->~S()` and `free(object)`
    log := log + [nodes[0].name];
  }

  /** `home` with the layers of `ls` it does not know yet given to tag `t`. */
  ghost function Rehome<P>(home: map<object, TypeTag>, ls: seq<array<Record<P>>>, t: TypeTag): (h: map<object, TypeTag>)
    ensures forall o :: o in home ==> o in h && h[o] == home[o]
    ensures forall a :: a in ls ==> a in h && (a !in home ==> h[a] == t)
  {
    map o | o in home.Keys + (set a | a in ls :: a as object) :: if o in home then home[o] else t
  }

  /** The values of `m` at the keys `ts`, in that order. */
  function Arrange<X>(m: map<TypeTag, X>, ts: seq<TypeTag>): (xs: seq<X>)
    requires forall t :: t in ts ==> t in m
    ensures |xs| == |ts| && forall i :: 0 <= i < |ts| ==> xs[i] == m[ts[i]]
    decreases |ts|
  {
    if ts == [] then [] else [m[ts[0]]] + Arrange(m, ts[1..])
  }

  /** One step of `forany_`: the provider with the least remaining tag is walked first, with the userdata so far. */
  lemma ArrangeStep<X, U>(cm: map<TypeTag, seq<X>>, rest: set<TypeTag>, t: TypeTag, sel: X -> bool, cb: (U, X) -> (U, bool), u: U)
    requires rest <= cm.Keys && t in rest && forall x :: x in rest ==> t <= x
    ensures Order.Ordered(rest) == [t] + Order.Ordered(rest - {t})
    ensures Visit.FoldEach(Arrange(cm, Order.Ordered(rest)), sel, cb, u) ==
      var first := Visit.Fold(cm[t], sel, cb, u);
      var more := Visit.FoldEach(Arrange(cm, Order.Ordered(rest - {t})), sel, cb, first.data);
      Visit.Pass(more.data, first.visited + more.visited, first.stopped || more.stopped)
  {
    Order.OrderedHead(rest, t);
    var gs := Arrange(cm, Order.Ordered(rest));
    assert gs[0] == cm[t] && gs[1..] == Arrange(cm, Order.Ordered(rest - {t}));
  }

  /** Every provider of `ps` is well formed, and `cm` lists its live components. */
  ghost predicate Listed<P>(ps: map<TypeTag, Provider<P>>, cm: map<TypeTag, seq<Component<P>>>, home: map<object, TypeTag>)
    reads home.Keys
  {
    forall t {:trigger Pool(ps, t)} :: t in ps ==>
      Pool(ps, t).storage in home && Homed(Pool(ps, t), t, home) && Pool(ps, t).Valid() &&
      t in cm && cm[t] == Pool(ps, t).Components()
  }

  /** The loop of `forany_`: each provider's `forall`, least tag first. */
  method WalkTags<P, U>(ps: map<TypeTag, Provider<P>>, ghost cm: map<TypeTag, seq<Component<P>>>, ghost home: map<object, TypeTag>,
                        guid: nat, cb: (U, Component<P>) -> (U, bool), u: U) returns (r: U)
    requires ps.Keys <= cm.Keys && Listed(ps, cm, home)
    ensures r == Visit.FoldEach(Arrange(cm, Order.Ordered(ps.Keys)), Owns(guid), cb, u).data
  {
    var rest := ps.Keys;
    r := u;
    while rest != {}
      invariant rest <= ps.Keys && Listed(ps, cm, home)
      invariant Visit.FoldEach(Arrange(cm, Order.Ordered(ps.Keys)), Owns(guid), cb, u).data ==
        Visit.FoldEach(Arrange(cm, Order.Ordered(rest)), Owns(guid), cb, r).data
      decreases |rest|
    {
      ghost var least := Order.Least(rest);  // the witness that makes the `:|` below satisfiable
      var t :| t in rest && forall x :: x in rest ==> t <= x;
      ArrangeStep(cm, rest, t, Owns(guid), cb, r);
      var m := Pool(ps, t);
      r := m.ForAll(guid, cb, r);
      rest := rest - {t};
    }
  }

  /** The universe: guid registry, provider map and systems list. */
  class Universe<P> {
    /** `_guid_active`: the guids of live entities and live components. */
    var active: set<nat>
    /** `_providers`, by type tag. */
    var providers: map<TypeTag, Provider<P>>
    /** `_systems`, head (newest) first. */
    var systems: seq<SystemNode<P>>
    /** The type tags of the systems, in the order `system<S>()` created them. */
    ghost var created: seq<TypeTag>
    /** The pools of the providers and their layers, each with the tag of the provider that owns it. */
    ghost var Home: map<object, TypeTag>
    /** The guids of the live components, each with the tag of the provider that holds it. */
    ghost var Owner: map<nat, TypeTag>

    /** Every provider is well formed: see `Pools`. */
    ghost predicate Layout()
      reads this`providers, this`Home, this`Owner, Home.Keys
    {
      this !in Home && Pools(providers, Home, Owner, this)
    }

    /** The guids of each provider's live components. */
    ghost function KeySets(): (m: map<TypeTag, set<nat>>)
      reads this`providers, this`Home, this`Owner, Home.Keys
      requires Layout()
      ensures m.Keys == providers.Keys && forall t :: t in m ==> m[t] == Pool(providers, t).Keys()
    {
      map t | t in providers :: Pool(providers, t).Keys()
    }

    /** No guid belongs to two providers, and every one is active. */
    lemma KeySetsSpec()
      requires Valid()
      ensures Guids.Disjoint(KeySets()) && Guids.Union(KeySets()) <= active
    {
      var m := KeySets();
      assert forall t :: t in m ==> m[t] == KeysFor(Owner, t);
    }

    /** The guids of the live components are exactly the guids the books account to a provider. */
    lemma OwnerIsAllKeys()
      requires Valid()
      ensures AllKeys() == Owner.Keys
    {
      var m := KeySets();
      forall g ensures g in Guids.Union(m) <==> g in Owner {
        if g in Owner {
          var t := Owner[g];
          assert m[t] == Pool(providers, t).Keys() == KeysFor(Owner, t);
        }
        if g in Guids.Union(m) {
          var t :| t in m && g in m[t];
          assert m[t] == Pool(providers, t).Keys() == KeysFor(Owner, t);
        }
      }
    }

    /** The systems list holds the created tags, newest first, each once, each node naming this universe. */
    ghost predicate SystemsOk()
      reads this`systems, this`created
    {
      |systems| == |created| &&
      (forall i :: 0 <= i < |systems| ==> systems[i] == SystemNode(created[|created| - 1 - i], this)) &&
      (forall i, j :: 0 <= i < j < |created| ==> created[i] != created[j])
    }

    /** The guids of all live components. */
    ghost function AllKeys(): set<nat>
      reads this`providers, this`Home, this`Owner, Home.Keys
      requires Layout()
    {
      Guids.Union(KeySets())
    }

    ghost predicate Valid()
      reads this, Home.Keys
    {
      Layout() && Owner.Keys <= active && (forall g :: g in Owner ==> Owner[g] in providers) && 0 !in active && SystemsOk()
    }

    /** The live components of each provider. */
    ghost function ComponentMap(): (m: map<TypeTag, seq<Component<P>>>)
      reads this`providers, this`Home, this`Owner, Home.Keys
      requires Layout()
      ensures m.Keys == providers.Keys
    {
      map t | t in providers :: Pool(providers, t).Components()
    }

    /** What `forany_` walks: every provider's live components, providers in ascending tag order. */
    ghost function Groups(): seq<seq<Component<P>>>
      reads this`providers, this`Home, this`Owner, Home.Keys
      requires Layout()
    {
      Arrange(ComponentMap(), Order.Ordered(providers.Keys))
    }

    /** `universe()`: no guid, no provider, no system. */
    constructor ()
      ensures Valid() && Home == map[] && Owner == map[]
      ensures active == {} && providers == map[] && systems == [] && created == []
    {
      active := {};
      providers := map[];
      systems := [];
      created := [];
      Home := map[];
      Owner := map[];
    }

    /**
      `guid_activate`: count down from |active|+1 while the value is taken,
      then take it. The countdown stops above 0 because a set of n values
      cannot fill 1..n+1.
    */
    method GuidActivate() returns (g: nat)
      requires 0 !in active
      modifies this`active
      ensures g == Guids.NextGuid(old(active)) && g != 0 && g !in old(active)
      ensures active == old(active) + {g}
    {
      var next := |active| + 1;
      Guids.NextGuidSpec(active);
      while next in active
        invariant 0 < next <= |active| + 1
        invariant Guids.CountDown(active, next) == Guids.NextGuid(active)
        decreases next
      {
        next := next - 1;
      }
      g := next;
      active := active + {g};
    }

    /** `guid_release`: the guid must be active, and only it is removed. */
    method GuidRelease(g: nat)
      requires g in active
      modifies this`active
      ensures active == old(active) - {g}
    {
      active := active - {g};
    }

    /** `create`: a new entity of this universe, with a newly activated guid. */
    method Create() returns (e: Entity<P>)
      requires Valid()
      modifies this`active
      ensures Valid()
      ensures e.world == this && e.guid == Guids.NextGuid(old(active)) && e.guid != 0 && e.guid !in old(active)
      ensures active == old(active) + {e.guid}
    {
      var g := GuidActivate();
      e := Entity(this, g);
    }

    /** `installed_` / `installed<T>`: whether a provider exists for the tag. */
    predicate Installed(kind: TypeTag): (b: bool)
      reads this
      ensures b <==> kind in providers
    {
      kind in providers
    }

    /**
      `install<C>`: when the tag has no provider yet, register a new, empty
      one; otherwise change nothing.
    */
    method Install(kind: TypeTag)
      requires Valid()
      modifies this`providers, this`Home
      ensures Valid() && Installed(kind)
      ensures old(Installed(kind)) ==> providers == old(providers) && Home == old(Home)
      ensures !old(Installed(kind)) ==>
        providers == old(providers)[kind := providers[kind]] && fresh(providers[kind]) &&
        Pool(providers, kind).Keys() == {} && providers[kind].storage.View() == []
    {
      if Installed(kind) {
        return;
      }
      var p := new Provider(kind, this);
      Register(kind, p);
    }

    /** Enter the new, empty provider `p` into the map under `kind`. */
    method Register(kind: TypeTag, p: Provider<P>)
      requires Valid() && kind !in providers
      requires PoolOk(p, kind, this) && p.storage !in Home && p.storage.layers == [] && p.Keys() == {}
      modifies this`providers, this`Home
      ensures Valid() && providers == old(providers)[kind := p] && Home == old(Home)[p.storage := kind]
    {
      assert KeysFor(Owner, kind) == {};
      PoolsAdd(providers, Home, Owner, this, kind, p);
      assert this !in Home[p.storage := kind];
      providers, Home := providers[kind := p], Home[p.storage := kind];
      // Asserting `true == P` rather than `P` keeps the solver from splitting P into its
      // conjuncts; together with the split of the universe's updates into small methods
      // (Stage, Account, Allot, Unhook, Dismiss, Drain, Scour, PurgeStep) it keeps proofs cheap.
      assert true == Pools(providers, Home, Owner, this);
      assert true == Valid();
    }

    /**
      The provider's part of `attach`, for provider `m`, while the other
      providers `rs` (owning the objects of `rest`) are set aside: they are
      not touched.
    */
    method Allot(m: Provider<P>, e: Entity<P>, make: (Entity<P>, nat) -> P, ghost rs: map<TypeTag, Provider<P>>,
                 ghost rest: map<object, TypeTag>, ghost owner: map<nat, TypeTag>, ghost home: map<object, TypeTag>)
      returns (c: Component<P>)
      requires Pools(rs, rest, owner, this) && this !in rest
      requires forall o :: o in rest ==> o != m.storage && o !in m.storage.layers
      requires m.Valid() && m.world == this && e.world == this && 0 !in active && m.Keys() <= active
      modifies this`active, m.storage, m.storage.layers
      ensures true == Pools(rs, rest, owner, this)
      ensures unchanged(this`providers, this`Home, this`Owner, this`systems, this`created)
      ensures m.Valid() && forall a :: a in m.storage.layers ==> a in old(m.storage.layers) || fresh(a)
      ensures forall a :: a in m.storage.layers && a in home ==> a in old(m.storage.layers)
      ensures var g := Guids.NextGuid(old(active));
        g != 0 && g !in old(active) && active == old(active) + {g} &&
        c.rec == Record(e, g, m, Some(make(e, g))) && m.Keys() == old(m.Keys()) + {g}
      ensures Attached(old(m.storage.View()), m.storage.View(), m.storage.layers, Record(e, Guids.NextGuid(old(active)), m, None), c)
      ensures m.storage.Holds(c.at, c.slot) && c.at[c.slot] == c.rec
    {
      c := m.Make(e, make);
    }

    /** `Account`, which leaves the records of pool `h` as they were. */
    ghost method AccountKeeping(home: map<object, TypeTag>, owner: map<nat, TypeTag>, h: Hanoi<Record<P>>)
      requires this !in home && Pools(providers, home, owner, this)
      requires owner.Keys <= active && (forall g :: g in owner ==> owner[g] in providers) && 0 !in active && SystemsOk()
      modifies this`Home, this`Owner
      ensures Valid() && Home == home && Owner == owner && h.View() == old(h.View())
    {
      Account(home, owner);
    }

    /** Adopt `home` and `owner`, under which the providers are well formed, as the registry's books. */
    ghost method Account(home: map<object, TypeTag>, owner: map<nat, TypeTag>)
      requires this !in home && Pools(providers, home, owner, this)
      requires owner.Keys <= active && (forall g :: g in owner ==> owner[g] in providers) && 0 !in active && SystemsOk()
      modifies this`Home, this`Owner
      ensures Valid() && Home == home && Owner == owner
    {
      Home, Owner := home, owner;
      assert true == Pools(providers, Home, Owner, this);
      assert true == Valid();
    }

    /**
      `entity::attach<C>`: allocate a record in the provider of `kind`
      (activating a new guid), run the payload constructor in place and
      return the component, whose owner is the entity. The provider must be
      installed: for a missing tag `_providers[key]` yields a null provider.
    */
    method Attach(e: Entity<P>, kind: TypeTag, make: (Entity<P>, nat) -> P) returns (c: Component<P>)
      requires Valid() && e.world == this && kind in providers
      modifies this`active, this`Home, this`Owner, providers[kind].storage, providers[kind].storage.layers
      ensures Valid() && unchanged(this`providers)
      ensures var g := Guids.NextGuid(old(active));
        g != 0 && g !in old(active) && active == old(active) + {g} &&
        c.rec == Record(e, g, providers[kind], Some(make(e, g))) &&
        Pool(providers, kind).Keys() == old(Pool(providers, kind).Keys()) + {g}
      ensures Attached(old(providers[kind].storage.View()), providers[kind].storage.View(), providers[kind].storage.layers,
                       Record(e, Guids.NextGuid(old(active)), providers[kind], None), c)
      ensures providers[kind].storage.Holds(c.at, c.slot) && c.at[c.slot] == c.rec
    {
      ghost var home, owner;
      c, home, owner := Stage(e, kind, make);
      AccountKeeping(home, owner, providers[kind].storage);
    }

    /** `attach` up to the books: the record is built, and `home` and `owner` are the registry's new books. */
    method Stage(e: Entity<P>, kind: TypeTag, make: (Entity<P>, nat) -> P)
      returns (c: Component<P>, ghost home: map<object, TypeTag>, ghost owner: map<nat, TypeTag>)
      requires Valid() && e.world == this && kind in providers
      modifies this`active, providers[kind].storage, providers[kind].storage.layers
      ensures this !in home && Pools(providers, home, owner, this)
      ensures owner.Keys <= active && (forall g :: g in owner ==> owner[g] in providers) && 0 !in active && SystemsOk()
      ensures unchanged(this`providers)
      ensures var g := Guids.NextGuid(old(active));
        g != 0 && g !in old(active) && active == old(active) + {g} &&
        c.rec == Record(e, g, providers[kind], Some(make(e, g))) &&
        Pool(providers, kind).Keys() == old(Pool(providers, kind).Keys()) + {g}
      ensures Attached(old(providers[kind].storage.View()), providers[kind].storage.View(), providers[kind].storage.layers,
                       Record(e, Guids.NextGuid(old(active)), providers[kind], None), c)
      ensures providers[kind].storage.Holds(c.at, c.slot) && c.at[c.slot] == c.rec
    {
      var m := providers[kind];
      ghost var ls0 := m.storage.layers;
      assert Pool(providers, kind) == m;
      assert Homed(m, kind, Home);
      PoolsRestrict(providers, Home, Owner, this, kind);
      c := Allot(m, e, make, providers - {kind}, Without(Home, kind), Owner, Home);
      PoolsJoin(providers, Home, Owner, this, kind, ls0, c.rec.guid);
      BooksAdd(Owner, old(active), providers.Keys, c.rec.guid, kind);
      home, owner := Rehome(Home, m.storage.layers, kind), Owner[c.rec.guid := kind];
    }

    /** `forall_`: the tag must be installed; the walk is that provider's `forall`, and no other provider is visited. */
    method ForAll_<U>(guid: nat, kind: TypeTag, cb: (U, Component<P>) -> (U, bool), u: U) returns (r: U)
      requires Valid() && Installed(kind)
      ensures r == Visit.Fold(Pool(providers, kind).Components(), Owns(guid), cb, u).data
    {
      var m := Pool(providers, kind);
      r := m.ForAll(guid, cb, u);
    }

    /**
      `forany_`: every provider's `forall`, in map order, handing the
      userdata on; a callback returning false ends only the current
      provider's walk.
    */
    method ForAny_<U>(guid: nat, cb: (U, Component<P>) -> (U, bool), u: U) returns (r: U)
      requires Valid()
      ensures Valid() && r == Visit.FoldEach(Groups(), Owns(guid), cb, u).data
    {
      ListedNow();
      label before:
      r := WalkTags(providers, ComponentMap(), Home, guid, cb, u);
      GroupsKept@before();
    }

    /** The walk is a property of the registry and its objects alone: where none of them changed, neither did it. */
    twostate lemma GroupsKept()
      requires old(Layout()) && unchanged(this`providers, this`Home, this`Owner) && unchanged(Home.Keys)
      ensures Layout() && Groups() == old(Groups())
    {
    }

    /** Each installed provider is well formed and its walk is the one `ComponentMap` records. */
    lemma ListedNow()
      requires Layout()
      ensures Listed(providers, ComponentMap(), Home)
    {
      var cm := ComponentMap();
      forall t | t in providers
        ensures Pool(providers, t).storage in Home && Homed(Pool(providers, t), t, Home) &&
          Pool(providers, t).Valid() && t in cm && cm[t] == Pool(providers, t).Components()
      {
        assert PoolOk(Pool(providers, t), t, this);
      }
    }

    /**
      `_component::detach`: the component's record names its manager, which
      runs its `detach` on it: the record is cleared, its slot dies and its
      guid is released. `kind` is the tag of the provider holding it.
    */
    method DetachComponent(c: Component<P>, ghost kind: TypeTag) returns (ghost p: Pos)
      requires Valid() && kind in providers && Pool(providers, kind).storage.Holds(c.at, c.slot)
      modifies this`active, this`Home, this`Owner, c.at
      ensures Valid() && unchanged(this`providers, this`Home)
      ensures var g := old(c.at[c.slot].guid);
        g != 0 && g in old(Owner) && old(Owner)[g] == kind && Owner == old(Owner) - {g} &&
        active == old(active) - {g} && Pool(providers, kind).Keys() == old(Pool(providers, kind).Keys()) - {g}
      ensures ValidPos(old(providers[kind].storage.View()), p) && providers[kind].storage.layers[p.layer] == c.at && p.slot == c.slot
      ensures providers[kind].storage.View() == Place(old(providers[kind].storage.View()), p, Cleared())
      ensures forall k :: 0 <= k < c.at.Length ==> c.at[k] == if k == c.slot then Cleared() else old(c.at[k])
      ensures !providers[kind].storage.Holds(c.at, c.slot)
    {
      ghost var owner;
      owner, p := Unhook(c, kind);
      AccountKeeping(Home, owner, providers[kind].storage);
    }

    /** `detach` up to the books: the provider has let go of the component, and `owner` is the registry's new book of guids. */
    method Unhook(c: Component<P>, ghost kind: TypeTag) returns (ghost owner: map<nat, TypeTag>, ghost p: Pos)
      requires Valid() && kind in providers && Pool(providers, kind).storage.Holds(c.at, c.slot)
      modifies this`active, c.at
      ensures this !in Home && true == Pools(providers, Home, owner, this)
      ensures owner.Keys <= active && (forall g :: g in owner ==> owner[g] in providers) && 0 !in active && SystemsOk()
      ensures unchanged(this`providers, this`Home)
      ensures var g := old(c.at[c.slot].guid);
        g != 0 && g in Owner && Owner[g] == kind && owner == Owner - {g} &&
        active == old(active) - {g} && Pool(providers, kind).Keys() == old(Pool(providers, kind).Keys()) - {g}
      ensures ValidPos(old(providers[kind].storage.View()), p) && providers[kind].storage.layers[p.layer] == c.at && p.slot == c.slot
      ensures providers[kind].storage.View() == Place(old(providers[kind].storage.View()), p, Cleared())
      ensures forall k :: 0 <= k < c.at.Length ==> c.at[k] == if k == c.slot then Cleared() else old(c.at[k])
      ensures !providers[kind].storage.Holds(c.at, c.slot)
    {
      var m := c.at[c.slot].manager;
      ghost var g := c.at[c.slot].guid;
      Pool(providers, kind).HeldSpec(c.at, c.slot);
      assert m == Pool(providers, kind) && Homed(m, kind, Home) && g in KeysFor(Owner, kind);
      PoolsRestrict(providers, Home, Owner, this, kind);
      p := Dismiss(m, c, providers - {kind}, Without(Home, kind), Owner);
      PoolsLeave(providers, Home, Owner, this, kind, g);
      owner := Owner - {g};
    }

    /** The provider's part of `detach`, for provider `m`, while the other providers `rs` (owning the objects of `rest`) are set aside. */
    method Dismiss(m: Provider<P>, c: Component<P>, ghost rs: map<TypeTag, Provider<P>>,
                   ghost rest: map<object, TypeTag>, ghost owner: map<nat, TypeTag>)
      returns (ghost p: Pos)
      requires Pools(rs, rest, owner, this) && this !in rest
      requires forall o :: o in rest ==> o != m.storage && o !in m.storage.layers
      requires m.Valid() && m.world == this && m.storage.Holds(c.at, c.slot) && m.Keys() <= active
      modifies this`active, c.at
      ensures true == Pools(rs, rest, owner, this)
      ensures unchanged(this`providers, this`Home, this`Owner, this`systems, this`created)
      ensures m.Valid() && m.storage.layers == old(m.storage.layers)
      ensures var g := old(c.at[c.slot].guid);
        active == old(active) - {g} && m.Keys() == old(m.Keys()) - {g}
      ensures ValidPos(old(m.storage.View()), p) && m.storage.layers[p.layer] == c.at && p.slot == c.slot
      ensures m.storage.View() == Place(old(m.storage.View()), p, Cleared())
      ensures forall k :: 0 <= k < c.at.Length ==> c.at[k] == if k == c.slot then Cleared() else old(c.at[k])
      ensures !m.storage.Holds(c.at, c.slot)
    {
      ghost var v := m.storage.View();
      p := m.Detach(c);
      assert At(v, p) == old(c.at[c.slot]);
      assert m.storage.View()[p.layer] == c.at[..];
    }

    /** A component the walk of `forany_` lists is live in the pool of some installed provider, which manages it. */
    lemma Locate(c: Component<P>, i: nat) returns (t: TypeTag)
      requires Layout() && i < |Groups()| && c in Groups()[i]
      ensures t in providers && Pool(providers, t).storage.Holds(c.at, c.slot) && c.at[c.slot] == c.rec
      ensures c.rec.manager == Pool(providers, t) && c.rec.owner.world != null && ComponentWorld(c.rec) == this
    {
      t := Order.Ordered(providers.Keys)[i];
      Pool(providers, t).ComponentsSpec();
    }

    /**
      One pass of `entity::remove`'s do-while: visit the entity's components
      with a callback that captures one and stops, then detach the captured
      component, if any. The callback is the corrected one, which keeps the
      first capture (see `Visit.CaptureFirst`).
    */
    method Sweep(e: Entity<P>) returns (found: Option<Component<P>>)
      requires Valid()
      modifies this`active, this`Home, this`Owner, Home.Keys
      ensures Valid() && unchanged(this`providers, this`Home)
      ensures found.None? ==> Visit.FilterEach(Groups(), Owns(e.guid)) == [] && unchanged(this`active, this`Owner) && unchanged(Home.Keys)
      ensures found.Some? ==> var g := found.value.rec.guid;
        found.value.rec.owner.guid == e.guid && g in old(Owner) && Owner == old(Owner) - {g} && active == old(active) - {g}
      ensures found.Some? ==> var c := found.value;
        c.at in old(Home) && c.slot < c.at.Length && IsLive(c.rec) &&
        forall a: array<Record<P>>, k :: a in old(Home) && 0 <= k < a.Length ==>
          if a == c.at && k == c.slot then old(a[k]) == c.rec && a[k] == Cleared() else a[k] == old(a[k])
      ensures forall t :: t in providers ==> providers[t].storage.layers == old(providers[t].storage.layers)
    {
      ghost var kind;
      found, kind := Seek(e);
      if found.Some? {
        assert Homed(Pool(providers, kind), kind, Home);
        ghost var p := DetachComponent(found.value, kind);
        forall a: array<Record<P>>, k | a in old(Home) && 0 <= k < a.Length && a != found.value.at
          ensures a[k] == old(a[k])
        {
        }
      }
    }

    /** The visit of a pass of `remove`: the first component of the entity in map order, and the tag of its provider. */
    method Seek(e: Entity<P>) returns (found: Option<Component<P>>, ghost kind: TypeTag)
      requires Valid()
      ensures Valid()
      ensures found.None? ==> Visit.FilterEach(Groups(), Owns(e.guid)) == []
      ensures found.Some? ==> var c := found.value;
        c.rec.owner.guid == e.guid && kind in providers && Pool(providers, kind).storage.Holds(c.at, c.slot) && c.at[c.slot] == c.rec
      ensures found.Some? ==> found.value.at in Home
    {
      var s := ForAny_(e.guid, Visit.CaptureFirst, Visit.Capture(None, false));
      Visit.CaptureFirstSpec(Groups(), Owns(e.guid), Visit.Capture(None, false));
      if s.attached.None? {
        Visit.FirstEachEmpty(Groups(), Owns(e.guid));
        return None, 0;
      }
      var c := s.attached.value;
      Visit.FirstEachIn(Groups(), Owns(e.guid), c);
      ghost var i :| 0 <= i < |Groups()| && c in Groups()[i] && Owns(e.guid)(c);
      kind := Locate(c, i);
      assert Homed(Pool(providers, kind), kind, Home);
      found := Some(c);
    }

    /**
      `entity::remove`: detach the entity's components one pass at a time
      until a pass finds none. Only component guids are released, each of a
      component the entity owned when it was detached; the entity's own guid
      stays active. `detached` maps each released guid to its component.
    */
    method Remove(e: Entity<P>) returns (ghost detached: map<nat, Component<P>>)
      requires Valid() && e.world == this
      modifies this`active, this`Home, this`Owner, Home.Keys
      ensures Valid() && unchanged(this`providers, this`Home)
      ensures Visit.FilterEach(Groups(), Owns(e.guid)) == []
      ensures Owner.Keys <= old(Owner.Keys) && active == old(active) - (old(Owner.Keys) - Owner.Keys)
      ensures active - Owner.Keys == old(active - Owner.Keys)
      ensures detached.Keys == old(Owner.Keys) - Owner.Keys
      ensures DetachedFrom(e, detached)
      ensures Swept<P>(old(Home.Keys), e.guid)
      ensures forall t :: t in providers ==> providers[t].storage.layers == old(providers[t].storage.layers)
    {
      ghost var k0, a0 := Owner.Keys, active;
      Guids.NoneReleased(a0, k0);
      detached := Passes(e, k0, a0);
      Guids.ReleasedOnly(a0, k0, Owner.Keys);
    }

    /** The loop of `remove`: a pass, then another as long as the last one found a component. */
    method Passes(e: Entity<P>, ghost k0: set<nat>, ghost a0: set<nat>) returns (ghost detached: map<nat, Component<P>>)
      requires Removing(e, k0, a0, map[])
      modifies this`active, this`Home, this`Owner, Home.Keys
      ensures Removing(e, k0, a0, detached) && unchanged(this`providers, this`Home) && Gone(e)
      ensures Swept<P>(old(Home.Keys), e.guid)
      ensures forall t :: t in providers ==> providers[t].storage.layers == old(providers[t].storage.layers)
    {
      var found;
      found, detached := Pass(e, k0, a0, map[]);
      while found.Some?
        invariant true == Removing(e, k0, a0, detached) && unchanged(this`providers, this`Home)
        invariant found.None? ==> Gone(e)
        invariant Swept<P>(old(Home.Keys), e.guid)
        invariant forall t :: t in providers ==> providers[t].storage.layers == old(providers[t].storage.layers)
        decreases |Owner.Keys| + (if found.Some? then 1 else 0)
      {
        label pass:
        found, detached := Pass(e, k0, a0, detached);
        forall a: array<Record<P>>, k | a in old(Home.Keys) && 0 <= k < a.Length
          ensures a[k] == old(a[k]) || (old(IsLive(a[k])) && old(a[k].owner.guid) == e.guid && a[k] == Cleared())
        {
          assert a in old@pass(Home.Keys);
        }
      }
    }

    /** No component of `e` is left in any provider. */
    ghost predicate Gone(e: Entity<P>)
      reads this, Home.Keys
    {
      Layout() && Visit.FilterEach(Groups(), Owns(e.guid)) == []
    }

    /** Each guid of `detached` is the guid of the component it maps to, and that component belonged to `e`. */
    static ghost predicate DetachedFrom(e: Entity<P>, detached: map<nat, Component<P>>) {
      forall g :: g in detached ==> detached[g].rec.guid == g && detached[g].rec.owner.guid == e.guid
    }

    /**
      Part-way through `remove`: of the guids `k0` of the live components at
      the start, the ones gone are exactly the ones released from `a0`, the
      active guids at the start, and each belonged to a component of `e`.
    */
    ghost predicate Removing(e: Entity<P>, k0: set<nat>, a0: set<nat>, detached: map<nat, Component<P>>)
      reads this, Home.Keys
    {
      Valid() && Owner.Keys <= k0 && active == a0 - (k0 - Owner.Keys) && detached.Keys == k0 - Owner.Keys &&
      DetachedFrom(e, detached)
    }

    /** One pass of `remove`, with the components it detached so far. */
    method Pass(e: Entity<P>, ghost k0: set<nat>, ghost a0: set<nat>, ghost detached: map<nat, Component<P>>)
      returns (found: Option<Component<P>>, ghost detached': map<nat, Component<P>>)
      requires Removing(e, k0, a0, detached)
      modifies this`active, this`Home, this`Owner, Home.Keys
      ensures Removing(e, k0, a0, detached') && unchanged(this`providers, this`Home)
      ensures found.None? ==> Gone(e) && Owner == old(Owner)
      ensures found.Some? ==> |Owner.Keys| < old(|Owner.Keys|)
      ensures Swept<P>(old(Home.Keys), e.guid)
      ensures forall t :: t in providers ==> providers[t].storage.layers == old(providers[t].storage.layers)
    {
      found := Sweep(e);
      detached' := if found.Some? then detached[found.value.rec.guid := found.value] else detached;
    }

    /**
      `system<S>()`: walk the list for a node named `name` and return it;
      otherwise prepend a new node naming this universe, run the `_system`
      constructor on it, and return it.
    */
    method System(name: TypeTag) returns (s: SystemNode<P>)
      requires Valid()
      modifies this`systems, this`created
      ensures Valid() && s == SystemNode(name, this) && s in systems
      ensures name in old(created) ==> systems == old(systems) && created == old(created)
      ensures name !in old(created) ==> systems == [s] + old(systems) && created == old(created) + [name]
    {
      var n := 0;
      while n < |systems|
        invariant 0 <= n <= |systems|
        invariant forall i :: 0 <= i < n ==> systems[i].name != name
      {
        if systems[n].name == name {
          assert created[|created| - 1 - n] == name;
          return systems[n];
        }
        n := n + 1;
      }
      assert name !in created by {
        forall k | 0 <= k < |created| ensures created[k] != name {
          assert systems[|created| - 1 - k].name == created[k];
        }
      }
      s := SystemConstruct(SystemNode(name, this));
      Prepend(s);
    }

    /** Link the new node `s` in at the head of the list. */
    method Prepend(s: SystemNode<P>)
      requires Valid() && s.world == this && s.name !in created
      modifies this`systems, this`created
      ensures Valid() && systems == [s] + old(systems) && created == old(created) + [s.name]
    {
      systems, created := [s] + systems, created + [s.name];
      assert true == SystemsOk() by {
        forall i | 0 <= i < |systems| ensures systems[i] == SystemNode(created[|created| - 1 - i], this) {
          if i > 0 {
            assert systems[i] == old(systems)[i - 1];
          }
        }
      }
      assert true == Pools(providers, Home, Owner, this);
      assert true == Valid();
    }

    /**
      `purge` of the provider of `t`, as the destructor runs it: its guids
      leave the books and the active set.
    */
    method PurgeOne(t: TypeTag)
      requires Valid() && t in providers
      modifies this`active, this`Home, this`Owner, providers[t].storage.layers
      ensures Valid() && unchanged(this`providers, this`Home)
      ensures Owner == Drop(old(Owner), t) && active == old(active) - KeysFor(old(Owner), t)
      ensures Pool(providers, t).Keys() == {}
    {
      ghost var owner := Drain(t);
      Account(Home, owner);
    }

    /** `purge` up to the books. */
    method Drain(t: TypeTag) returns (ghost owner: map<nat, TypeTag>)
      requires Valid() && t in providers
      modifies this`active, providers[t].storage.layers
      ensures this !in Home && Pools(providers, Home, owner, this)
      ensures owner.Keys <= active && (forall g :: g in owner ==> owner[g] in providers) && 0 !in active && SystemsOk()
      ensures unchanged(this`providers, this`Home)
      ensures owner == Drop(Owner, t) && active == old(active) - KeysFor(Owner, t) && Pool(providers, t).Keys() == {}
    {
      var m := Pool(providers, t);
      assert Homed(m, t, Home);
      PoolsRestrict(providers, Home, Owner, this, t);
      Scour(m, providers - {t}, Without(Home, t), Owner);
      PoolsPurged(providers, Home, Owner, this, t);
      owner := Drop(Owner, t);
    }

    /** The provider's `purge`, for provider `m`, while the other providers `rs` (owning the objects of `rest`) are set aside. */
    method Scour(m: Provider<P>, ghost rs: map<TypeTag, Provider<P>>, ghost rest: map<object, TypeTag>,
                 ghost owner: map<nat, TypeTag>)
      requires Pools(rs, rest, owner, this) && this !in rest
      requires forall o :: o in rest ==> o != m.storage && o !in m.storage.layers
      requires m.Valid() && m.world == this && m.Keys() <= active
      modifies this`active, m.storage.layers
      ensures true == Pools(rs, rest, owner, this)
      ensures unchanged(this`providers, this`Home, this`Owner, this`systems, this`created)
      ensures m.Valid() && m.storage.layers == old(m.storage.layers)
      ensures m.Keys() == {} && active == old(active) - old(m.Keys())
    {
      m.Purge();
    }

    /** The destructor's `_providers.clear()`, once every provider is empty. */
    method Vacate()
      requires Valid() && Owner == map[]
      modifies this`providers
      ensures Valid() && providers == map[]
      ensures Emptied(old(providers), Home)
    {
      ghost var ps := providers;
      assert Emptied(ps, Home) by {
        forall t | t in ps ensures Pool(ps, t).storage in Home && Homed(Pool(ps, t), t, Home) && Pool(ps, t).Valid() && Pool(ps, t).Keys() == {} {
          assert KeysFor(Owner, t) == {};
        }
      }
      providers := map[];
      assert true == Pools(providers, Home, Owner, this);
      assert true == Valid();
    }

    /**
      `~universe`: purge every provider in map order, clear the provider
      map, then run the systems' cleanup chain from the head when the list
      is not empty. `log` lists the systems in the order destroyed: the
      order of creation.
    */
    method Dispose() returns (log: seq<TypeTag>)
      requires Valid()
      modifies this`active, this`Home, this`Owner, this`providers, Home.Keys
      ensures Valid() && providers == map[] && Owner == map[]
      ensures active == old(active) - old(Owner.Keys)
      ensures Emptied(old(providers), Home)
      ensures log == old(created) && forall i, j :: 0 <= i < j < |log| ==> log[i] != log[j]
    {
      PurgeAll();
      Vacate();
      log := [];
      if systems != [] {
        log := Cleanup(systems);
      }
      TeardownInCreationOrder(systems, created);
    }

    /** The destructor's loop: `purge` every provider, in map order. */
    method PurgeAll()
      requires Valid()
      modifies this`active, this`Home, this`Owner, Home.Keys
      ensures Valid() && unchanged(this`providers, this`Home, this`systems, this`created)
      ensures Owner == map[] && active == old(active) - old(Owner.Keys)
    {
      ghost var o0, a0 := Owner, active;
      var rest := providers.Keys;
      assert Owner == Only(o0, rest);
      while rest != {}
        invariant Purging(o0, a0, rest) && unchanged(this`providers, this`Home)
        invariant systems == old(systems) && created == old(created)
        decreases |rest|
      {
        ghost var least := Order.Least(rest);  // the witness that makes the `:|` below satisfiable
        var t :| t in rest && forall x :: x in rest ==> t <= x;
        PurgeStep(o0, a0, rest, t);
        rest := rest - {t};
      }
      assert Owner == map[];
    }

    /** Part-way through the destructor's loop: the guids left are those of the tags `rest` not yet purged. */
    ghost predicate Purging(o0: map<nat, TypeTag>, a0: set<nat>, rest: set<TypeTag>)
      reads this, Home.Keys
    {
      Valid() && rest <= providers.Keys && Owner == Only(o0, rest) && active == a0 - (o0.Keys - Owner.Keys)
    }

    /** One round of the destructor's loop. */
    method PurgeStep(ghost o0: map<nat, TypeTag>, ghost a0: set<nat>, ghost rest: set<TypeTag>, t: TypeTag)
      requires Purging(o0, a0, rest) && t in rest
      modifies this`active, this`Home, this`Owner, Home.Keys
      ensures Purging(o0, a0, rest - {t}) && unchanged(this`providers, this`Home)
      ensures systems == old(systems) && created == old(created)
    {
      OnlyDrop(o0, rest, t);
      assert Homed(Pool(providers, t), t, Home);
      PurgeOne(t);
    }
  }
}
