# whippet, modelled in Dafny

whippet is a small entity/component runtime. A `universe` hands out guids
from one registry to entities and to components alike. It keeps one
provider per component type, keyed by type tag in an ordered map, and a
singly linked list of per-type singleton systems. Each provider stores its
components' records in a `hanoi` pool: a chain of fixed-size layers, newest
first, whose slots never move. A slot is live when its record's guid is not 0.
An entity attaches components, visits them, counts them and removes them.
Destroying the universe purges every provider and then tears down the
systems. `pal::adler` is the Adler-32 checksum the runtime ships with.

The model has eight modules, one per part of the runtime:

- `Adler` (`adler.dfy`): the checksum, as pure functions. It is checked
  against the definition in section 2.2 of RFC 1950.
- `Slab` (`slab.dfy`): the value-level meaning of a hanoi pool, one sequence of
  elements per layer. It states the scan order, the first dead slot, growth,
  weeding, and the key sets of the live elements.
- `Hanoi` (`hanoi.dfy`): `hanoi<E>` as a class over a sequence of arrays, one
  array per layer. An element's address is its array and its slot index. Each
  method is proved against the `Slab` function of the pool's contents.
- `Guids` (`guids.dfy`): the countdown of `guid_activate` and what it returns.
- `Visit` (`visit.dfy`): visitation with a callback. The callback threads the
  userdata through the walk and stops it early. The module also states the
  counting callback of `component_count` and the capture callback of
  `entity::remove`.
- `Order` (`order.dfy`): the ascending key order of the provider map.
- `Whippet` (`whippet.dfy`): entities, component records, providers, the
  universe and the systems list.
- `Porcelain` (`porcelain.dfy`): `porcelain::component_count`.

The universe carries two ghost books. `Home` gives each provider's pool, and
each of its layers, the tag of the provider that owns it. `Owner` gives each
live component guid the tag of the provider holding it. The universe's
invariant says:

- every provider is well formed and holds exactly the guids `Owner` accounts
  to its tag;
- no two providers share a pool, a layer or a guid;
- every component guid is active and 0 never is;
- the systems list holds each created tag once, newest first.

Callbacks are function values `(U, Component) -> (U, bool)`. The returned
boolean is the source's "go on" result. A type tag (`std::type_index`) is a
`nat`, ordered as the provider map orders it.

The handles map onto plain Dafny as follows:

- `entity` is a datatype of a universe reference and a guid. Its default
  constructor is `Entity(null, 0)`, and its two-argument constructor and its
  assignment are datatype construction and value copying.
- `guid()` and `owner()` of an entity or a component are the fields of
  `Entity` and `Record`.
- `entity::world` is `Whippet.EntityWorld`, which needs a bound universe.
  `_component::world` is `Whippet.ComponentWorld`, the owner's world.
- A system node's `world()` is its `world` field.

## Model

| member | source | states |
|---|---|---|
| Adler.Step | src/pal.cpp:14-18 | One character folded in gives a' = (a + c) mod 65521 and b' = (b + a') mod 65521, so both sums stay below the modulus |
| Adler.Fold | src/pal.cpp:40-43 | Folding characters one at a time from a reduced state keeps both sums below 65521 |
| Adler.CStr | src/pal.cpp:35-38 | A C string's characters are the prefix before the first NUL; they hold no NUL, and the NUL follows them |
| Adler.FoldStr | src/pal.cpp:35-38 | `<< text` keeps a reduced state reduced |
| Adler.FoldStrIsFold | src/pal.cpp:35-43 | `<< text` equals single-character `<<` over each character before the first NUL, in order |
| Adler.FoldAppend | src/pal.cpp:40-43 | Folding a concatenation folds the first part, then the second part from the state it left |
| Adler.Packed | src/pal.cpp:20-23 | `(b << 16) \| a` on 32 bits equals b * 65536 + a and fits in 32 bits, because both sums are below 2^16 |
| Adler.PackHalves | src/pal.cpp:20-23 | For halves below 2^16, the shift and bitwise-or of the packing are exact arithmetic |
| Adler.EmptyHashIsOne | src/pal.cpp:8-12 | The initial state a = 1, b = 0 makes the hash of the empty string 1 |
| Adler.FoldMatchesRfc | src/pal.cpp:14-18 | Folding any bytes from the initial state gives A = 1 + the byte sum and B = the sum of all A values, both mod 65521, as section 2.2 of RFC 1950 defines them |
| Adler.SumOfText | src/pal.cpp:45-48 | `sum(text)` is the packed value of the initial state folded over the text's characters |
| Adler.SumOfState | src/pal.cpp:50-53 | `sum(adler)` is that state's packed value b * 65536 + a |
| Adler.Compare | src/pal.cpp:55-66 | Each of the six comparison operators holds exactly when the same operator holds between this hash and the text's hash |
| Adler.FoldLenIsPrefix | src/pal.cpp:25-28 | `operator()(l, t)` as intended folds exactly the first l characters, and l = 0 leaves the state unchanged |
| Adler.FoldLenAsWrittenFoldsSuffixes | src/pal.cpp:25-28 | As written, each round of `operator()(l, t)` folds the whole C string at t and then recurses on t + 1 |
| Adler.FoldLenAsWrittenOverreads | src/pal.cpp:25-28 | As written, `operator()(1, "ab")` folds both characters and gives (196, 294) instead of (98, 98) |
| Slab.NewLayerSize | inc/hanoi.hpp:209-215 | A new layer has 14 slots when the pool has none, otherwise exactly the smaller of the head's size plus 3 and the limit 143 |
| Slab.ScanFromMembers | inc/hanoi.hpp:108-114 | From slot (i, k) on, the layer iterator yields exactly the valid slots at or after it whose liveness is the one asked for |
| Slab.ScanFromAscending | inc/hanoi.hpp:108-114 | The layer iterator yields slots head layer first and by ascending slot index within a layer |
| Slab.ScanSpec | inc/hanoi.hpp:108-114 | The whole iteration yields exactly the slots of the asked liveness, in ascending scan order |
| Slab.LiveSetSpec | inc/hanoi.hpp:44-47 | A slot is in the live set exactly when it is a valid slot whose element `inuse` accepts |
| Slab.LiveCountIsScanLength | inc/hanoi.hpp:108-114 | Live iteration yields each live slot once: it is as long as the live set |
| Slab.ScanValues | inc/hanoi.hpp:108-114 | The elements that live iteration yields are the live elements, layer by layer from the head |
| Slab.LiveCount | inc/hanoi.hpp:108-114 | The number of live slots equals the number of live elements that iteration yields |
| Slab.EmptyIffNoLive | inc/hanoi.hpp:154-157 | `begin() == end()` exactly when no slot is live |
| Slab.FirstLiveSpec | inc/hanoi.hpp:245-250 | `begin()` refers to a live slot, and no live slot precedes it in scan order |
| Slab.FirstDeadSpec | inc/hanoi.hpp:188-194 | The slot emplace reuses is dead and every slot before it is live; there is none exactly when every slot is live |
| Slab.PlaceAt | inc/hanoi.hpp:194-200 | Writing one slot changes no other slot and no layer's size |
| Slab.PlaceLive | inc/hanoi.hpp:194-200 | Filling a dead slot with a live element adds exactly that slot to the live set, so the live count rises by one |
| Slab.PlaceDead | inc/hanoi.hpp:231-241 | Destroying a live element removes exactly its slot from the live set, so the live count falls by one |
| Slab.GrownSpec | inc/hanoi.hpp:206-223 | Growth prepends one all-dead layer of the policy size and keeps the other layers and their order; the first dead slot is then (0, 0) and the live elements are unchanged |
| Slab.GrownLive | inc/hanoi.hpp:218-222 | A slot is live after growth exactly when the slot one layer up was live before, and it holds the same element |
| Slab.EmplacedSpec | inc/hanoi.hpp:185-227 | Emplace stores the element in the first dead slot, changes no other slot and raises the live count by one; it grows by one layer only when every slot was live |
| Slab.WeededSpec | inc/hanoi.hpp:79-92 | Weeding keeps exactly the layers that hold a live slot, in their order, so the live elements are unchanged |
| Slab.WeedAllDead | inc/hanoi.hpp:79-92 | Weeding a pool with no live slot removes every layer |
| Slab.WeedNoLiveLayer | inc/hanoi.hpp:79-92 | Weeding layers none of which has a live slot removes all of them |
| Slab.PlaceLiveKeys | inc/whippet.inline.hpp:104-109 | Filling a dead slot adds exactly the new element's guid to the pool's guids |
| Slab.PlaceLiveDistinct | inc/whippet.inline.hpp:104-109 | Filling a dead slot with an element whose guid is unused keeps the live guids distinct |
| Slab.PlaceDeadKeys | inc/whippet.inline.hpp:112-131 | Destroying a live element removes exactly its guid, given distinct guids |
| Slab.PlaceDeadDistinct | inc/whippet.inline.hpp:112-131 | Destroying a live element keeps the remaining guids distinct |
| Slab.GrownKeys | inc/hanoi.hpp:218-222 | Growth adds no live element, so the guids are unchanged |
| Slab.GrownDistinct | inc/hanoi.hpp:218-222 | Growth keeps distinct guids distinct |
| Slab.PlaceDeadWhere | inc/hanoi.hpp:231-241 | Destroying a live element removes it, and only it, from every filtered live set that held it |
| Slab.EmplacedKeys | inc/whippet.inline.hpp:104-109 | Emplacing adds exactly the new element's guid, and an unused guid keeps the guids distinct |
| Slab.PlaceKeepsAll | inc/hanoi.hpp:194-200 | Writing an element that is dead or satisfies a property keeps every live element satisfying it |
| Slab.EmplacedKeepsAll | inc/hanoi.hpp:185-227 | Emplacing an element that satisfies a property keeps every live element satisfying it |
| Slab.GrownKeepsAll | inc/hanoi.hpp:218-222 | The layer that growth adds is all dead, so every live element still satisfies what it did |
| Slab.PlaceSameKey | inc/whippet.inline.hpp:13 | Constructing the payload in place over a live record with the same guid keeps the live set, the guids and their distinctness |
| Hanoi.Snapshot | inc/hanoi.hpp:67-76 | The value of a layer chain has one sequence per layer, equal to that layer's slots |
| Hanoi.Hanoi.constructor | inc/hanoi.hpp:143 | A new pool has no layer |
| Hanoi.Hanoi.LayerIterator | inc/hanoi.hpp:97-116 | The generator yields exactly the slots of the asked liveness, head layer first and by slot index |
| Hanoi.Hanoi.Walk | inc/hanoi.hpp:110-113 | The outer loop over the layers yields the scan of the whole chain |
| Hanoi.Hanoi.LayerSlots | inc/hanoi.hpp:111-113 | The inner loop yields the scan of one layer |
| Hanoi.Hanoi.Begin | inc/hanoi.hpp:154 | `begin()` is the first live slot, or the end when there is none |
| Hanoi.Hanoi.IsEmpty | inc/hanoi.hpp:157 | `empty()` holds exactly when no slot is live |
| Hanoi.Hanoi.EmplaceUnspecified | inc/hanoi.hpp:185-227 | The pool afterwards is the emplaced value of the pool before; it keeps its layers when a dead slot existed, and otherwise prepends exactly one fresh layer |
| Hanoi.Hanoi.Grow | inc/hanoi.hpp:206-223 | One fresh all-dead layer of the policy size is prepended, and the old layers follow unchanged |
| Hanoi.Hanoi.EraseAt | inc/hanoi.hpp:229-241 | `erase(iterator)` clears a live slot and changes nothing else; on a dead slot it changes nothing |
| Hanoi.Hanoi.Store | inc/whippet.inline.hpp:13 | Writing through an element reference changes exactly that slot |
| Hanoi.Hanoi.Find | inc/hanoi.hpp:164-171 | The search finds the live slot at the given address, and finds none exactly when no live slot has that address |
| Hanoi.Hanoi.Erase | inc/hanoi.hpp:160-174 | `erase(E&)` clears the live element at that address; an element that is not found changes nothing |
| Hanoi.Hanoi.LayerHasLive | inc/hanoi.hpp:86-88 | The weed scan reports exactly whether the layer has a live slot |
| Hanoi.Hanoi.WeedFrom | inc/hanoi.hpp:79-92 | Weeding from a layer on keeps exactly the layers with a live slot, in order, with distinct arrays taken from that suffix |
| Hanoi.Hanoi.Weed | inc/hanoi.hpp:120 | `weed()` leaves the weeded value of the pool and only layers it already had |
| Hanoi.Hanoi.KeptLayers | inc/hanoi.hpp:79-92 | The layers weed keeps still meet the layer size bounds |
| Hanoi.Hanoi.EraseBegin | inc/hanoi.hpp:144 | `erase(begin())` on a pool that is not empty lowers the live count |
| Hanoi.Hanoi.Dispose | inc/hanoi.hpp:144 | The destructor leaves no live slot and keeps the layers |
| Guids.CountDown | src/whippet-universe.cpp:18-19 | The countdown never rises above its start |
| Guids.CountDownSpec | src/whippet-universe.cpp:16-19 | The countdown stops at 0 or at a free value, and every value it skipped was taken |
| Guids.RangeSpec | src/whippet-universe.cpp:16 | The values 1..n, as a set |
| Guids.RangeCard | src/whippet-universe.cpp:16 | 1..n has n elements |
| Guids.LargerHasOutside | src/whippet-universe.cpp:21 | A larger set has an element outside a smaller one |
| Guids.Pigeonhole | src/whippet-universe.cpp:21 | A set of n active guids leaves a value of 1..n+1 free |
| Guids.NextGuidSpec | src/whippet-universe.cpp:14-26 | `guid_activate` returns the largest free value of 1..\|active\|+1, which is never 0 |
| Guids.ActivationsDistinct | src/whippet-universe.cpp:18-23 | Activations with no release between them hand out distinct, previously inactive, non-zero guids |
| Guids.FreshActivations | src/whippet-universe.cpp:16-23 | With exactly 1..k active, successive activations return k+1, k+2, and so on |
| Guids.NextAfterRange | src/whippet-universe.cpp:16-19 | With exactly 1..k active, the next guid is k+1 and the registry becomes 1..k+1 |
| Guids.ReleaseThenActivate | src/whippet-universe.cpp:16-19 | With {2, 3} active after guid 1 was released, the next activation returns 1 |
| Guids.LargestNotSmallest | src/whippet-universe.cpp:16-19 | With {1, 3} active the countdown returns 2, the largest free value and not the smallest |
| Visit.Filter | inc/whippet.inline.hpp:135-136 | The walk considers only items of the pool that the selection accepts |
| Visit.FoldStep | inc/whippet.inline.hpp:135-138 | One step of a provider's loop: an item that is not selected is skipped, a callback that returns false ends the walk, and one that returns true goes on |
| Visit.FoldVisitsPrefix | inc/whippet.inline.hpp:133-139 | The callback sees a prefix of the selected items, all of them unless the walk was cut short |
| Visit.FoldAllContinue | inc/whippet.inline.hpp:133-139 | A callback that always goes on sees every selected item, and the walk is not cut short |
| Visit.FoldAllStop | inc/whippet.inline.hpp:133-139 | A callback that always stops sees exactly the first selected item, if there is one |
| Visit.FoldEachVisits | src/whippet-universe.cpp:44-48 | With a stopping callback, `forany_` sees the first selected item of every provider: a stop ends only the current provider's walk |
| Visit.FirstEach | src/whippet-universe.cpp:44-48 | At most one captured item per provider |
| Visit.FilterHas | inc/whippet.inline.hpp:135-136 | An item is considered exactly when it is in the pool and selected |
| Visit.FirstEachIn | src/whippet-entity.cpp:35-40 | A captured component is a selected component of some provider |
| Visit.FirstEachNone | src/whippet-entity.cpp:43-45 | No provider has anything to capture exactly when no component of any provider is selected |
| Visit.FoldEachAllContinue | src/whippet-porcelain.cpp:19-25 | A callback that always goes on makes `forany_` see every selected component of every provider |
| Visit.CountIfBound | src/whippet-porcelain.cpp:19-27 | A filtered count never exceeds the number of items, and equals it for an accept-all filter |
| Visit.CountIfAppend | src/whippet-porcelain.cpp:19-25 | Counts add up over concatenation |
| Visit.CountFold | src/whippet-porcelain.cpp:19-25 | One provider's walk with the counting callback adds the number of its selected items the filter accepts |
| Visit.CountFoldEach | src/whippet-porcelain.cpp:14-25 | `forany_` with the counting callback from 0 counts the entity's components that the filter accepts |
| Visit.CountBounds | src/whippet-porcelain.cpp:19-27 | The count is at most the number of the entity's components, and equals it when the filter accepts everything |
| Visit.RemoveAsWrittenTrips | src/whippet-entity.cpp:35-40 | As written, the callback of `remove` fails its assertion for an entity with a component in each of two providers |
| Visit.AsWrittenTripsIffTwo | src/whippet-entity.cpp:35-40 | As written, the callback fails its assertion exactly when two or more providers hold a component of the entity |
| Visit.CaptureFirstSpec | src/whippet-entity.cpp:31-45 | The corrected callback never fails, and captures the entity's first component in provider order, or nothing when it has none |
| Visit.AsFirstEachHead | src/whippet-universe.cpp:44-48 | The first capture comes from the first provider that has a selected component |
| Visit.FirstEachEmpty | src/whippet-entity.cpp:43-45 | A pass captures nothing exactly when the entity owns no component at all |
| Order.Least | src/whippet-universe.cpp:46 | The least remaining tag is a member of the set and no other member is smaller |
| Order.Ordered | src/whippet-universe.cpp:46 | The map-order listing holds exactly the providers' tags |
| Order.OrderedHead | src/whippet-universe.cpp:46 | Map iteration starts at the least tag and goes on over the rest |
| Order.OrderedAscending | src/whippet-universe.cpp:46 | Map order is strictly ascending, so each tag is listed once |
| Whippet.IsFresh | src/whippet-component.cpp:31-34 | A record is fresh exactly when its guid is 0, the value `guid_activate` never hands out |
| Whippet.EntityWorld | src/whippet-entity.cpp:48-52 | An entity's world is the universe it is bound to, which must exist |
| Whippet.ComponentWorld | src/whippet-component.cpp:41-44 | A component's world is its owner entity's world, so the owner must be bound |
| Whippet.Construct | src/whippet-component.cpp:4-9 | The `_component` constructor needs a non-fresh record, keeps the owner, guid and manager that were set before it ran, and leaves the record live with the payload built from them |
| Whippet.Detached | src/whippet-component.cpp:11-18 | After destruction and `detach`, a record is fresh, and so dead, with a default owner, no manager and no payload |
| Whippet.EmplacedOk | inc/whippet.inline.hpp:104-109 | Emplacing a live record of this provider with a new guid keeps guids distinct and records owned here, and adds exactly that guid |
| Whippet.RebuiltOk | inc/whippet.inline.hpp:13 | Constructing the payload in place keeps the live set, the guids and the record invariant |
| Whippet.ClearedOk | inc/whippet.inline.hpp:112-131 | Clearing a live record removes exactly its slot and its guid, and keeps the record invariant |
| Whippet.ComponentsOf | inc/whippet.inline.hpp:135 | One component per live position |
| Whippet.FoldComponents | inc/whippet.inline.hpp:133-139 | The provider's loop produces the userdata of the selected walk over its live components |
| Whippet.Provider.ComponentsSpec | inc/whippet.inline.hpp:133-139 | Every component the walk lists is live in this pool, is managed by this provider, has an owner in this universe, and carries one of its guids |
| Whippet.Provider.HeldSpec | inc/whippet.inline.hpp:78-91 | A live record names this provider as manager and an owner in this universe |
| Whippet.Provider.constructor | inc/whippet.inline.hpp:101 | A new provider has an empty pool and no guid |
| Whippet.Provider.Alloc | inc/whippet.inline.hpp:104-109 | `alloc` activates the next guid and emplaces a record that already carries the owner, that guid and this provider, before any payload. The pool afterwards is exactly the emplaced value of the pool before: the first dead slot is filled, or one new layer is prepended, and nothing else changes |
| Whippet.Provider.Activate | inc/whippet.inline.hpp:106 | `owner.world().guid_activate()` inside `alloc` returns the largest free guid, non-zero and not active before, adds exactly it, and leaves the pool as it was |
| Whippet.Provider.Emplace | inc/whippet.inline.hpp:106 | Emplacing the new record leaves exactly the emplaced value of the pool before, adds exactly its guid and keeps the record invariant |
| Whippet.Provider.Build | inc/whippet.inline.hpp:13 | Placement-new of the payload rewrites only the record's own slot, with the record constructed from what was there, and changes no guid and no liveness |
| Whippet.Provider.Make | inc/whippet.inline.hpp:12-13 | `alloc` then placement-new: the pool is the emplaced value of the pool before with the new slot then holding the constructed record (owner, new guid, this manager, payload made from them), and the component is that slot |
| Whippet.Provider.Detach | inc/whippet.inline.hpp:112-131 | `detach` finds the live slot at the component's address and overwrites it, and no other slot, with the cleared record; exactly its guid leaves the provider and the active set |
| Whippet.Provider.Destroy | src/whippet-component.cpp:11-18 | The `_component` destructor releases exactly the record's guid in the owner's universe and leaves the pool's contents and guids as they were |
| Whippet.Provider.Clear | inc/whippet.inline.hpp:119-126 | Clearing the record and erasing the already dead slot removes exactly that slot and guid |
| Whippet.Provider.ForAll | inc/whippet.inline.hpp:133-161 | `forall` (and `forany`) walks the live components in pool order, calls back only on those the guid owns, and stops at the first false |
| Whippet.Provider.DetachHead | inc/whippet.inline.hpp:167-171 | Detaching the component at `begin()` lowers the live count and releases only guids of this provider |
| Whippet.Provider.PurgeRound | inc/whippet.inline.hpp:165-172 | One round of `purge` lowers the live count and reports whether the pool is now empty |
| Whippet.Provider.Purge | inc/whippet.inline.hpp:163-179 | `purge` leaves no live slot and no guid, and releases exactly the provider's guids, so the destructor's emptiness assertion holds |
| Whippet.SystemConstruct | src/whippet-system.cpp:4-10 | The `_system` constructor preserves the name and world that `system<S>()` set before it ran |
| Whippet.TeardownOrder | inc/whippet.inline.hpp:210-220 | The cleanup chain destroys every node of the list once |
| Whippet.TeardownInCreationOrder | inc/whippet.inline.hpp:204-222 | A list built by prepending is torn down oldest first, in creation order |
| Whippet.KeysFor | inc/whippet.hpp:181-182 | The guids the books account to a provider tag |
| Whippet.PoolsAdd | inc/whippet.inline.hpp:182 | Registering a new, empty provider keeps every provider well formed and apart |
| Whippet.PoolsRestrict | inc/whippet.inline.hpp:11 | Setting one provider aside leaves the others well formed, and none of their objects is that provider's |
| Whippet.PoolsJoin | inc/whippet.inline.hpp:11-13 | After `attach`, the provider with one more guid and perhaps new layers rejoins the registry, which stays well formed |
| Whippet.PoolsLeave | inc/whippet.inline.hpp:112-131 | After `detach`, the provider with one guid fewer rejoins the registry, which stays well formed |
| Whippet.Drop | src/whippet-universe.cpp:58-59 | The books without the guids of one tag |
| Whippet.Only | src/whippet-universe.cpp:58-59 | The books restricted to the tags not yet purged |
| Whippet.OnlyDrop | src/whippet-universe.cpp:58-59 | Purging one more tag leaves the guids of the remaining tags, and drops exactly that tag's guids |
| Whippet.PoolsPurged | src/whippet-universe.cpp:58-59 | After `purge`, the empty provider rejoins the registry, and the books drop its tag's guids |
| Whippet.Cleanup | inc/whippet.inline.hpp:210-220 | `_cleanup` on the head runs the cleanup of each successor before destroying itself, so nodes are destroyed from the tail back to the head |
| Whippet.Arrange | src/whippet-universe.cpp:46-47 | The providers' component lists in the given tag order |
| Whippet.ArrangeStep | src/whippet-universe.cpp:46-47 | One step of `forany_`: the provider with the least tag is walked first, and the userdata is handed on to the rest |
| Whippet.WalkTags | src/whippet-universe.cpp:44-48 | The loop of `forany_` produces the userdata of the walk over every provider in ascending tag order |
| Whippet.Universe.KeySets | inc/whippet.hpp:181-182 | Each provider's tag maps to that provider's guids |
| Whippet.Universe.KeySetsSpec | inc/whippet.hpp:181-182 | No guid belongs to two providers, and every component guid is active |
| Whippet.Universe.OwnerIsAllKeys | inc/whippet.hpp:181-182 | The books account exactly the guids of the live components |
| Whippet.Universe.ComponentMap | inc/whippet.hpp:182 | One list of live components per installed tag |
| Whippet.Universe.constructor | src/whippet-universe.cpp:4-7 | A new universe has no guid, no provider and no system |
| Whippet.Universe.GuidActivate | src/whippet-universe.cpp:14-26 | `guid_activate` returns the largest free value of 1..\|active\|+1, which is non-zero and was not active, and adds exactly it |
| Whippet.Universe.GuidRelease | src/whippet-universe.cpp:28-36 | `guid_release` needs an active guid and removes exactly it |
| Whippet.Universe.Create | src/whippet-universe.cpp:9-12 | `create` returns an entity of this universe with the newly activated guid |
| Whippet.Universe.Installed | src/whippet-universe.cpp:50-53 | A tag is installed exactly when the provider map has an entry for it |
| Whippet.Universe.Install | inc/whippet.inline.hpp:39-45 | `install` registers one new, empty provider for a new tag, and changes nothing for a tag that is already installed |
| Whippet.Universe.Register | inc/whippet.inline.hpp:182 | The new provider is entered under its tag and the invariant still holds |
| Whippet.Universe.Allot | inc/whippet.inline.hpp:11-13 | The provider's part of `attach`: its pool becomes the emplaced pool with the constructed record in the new slot, and the other providers are left alone |
| Whippet.Universe.Account | inc/whippet.hpp:181-182 | The updated books satisfy the universe's invariant |
| Whippet.Universe.Attach | inc/whippet.inline.hpp:6-16 | `attach` activates the next guid and returns a live component whose owner is the attaching entity, held by the tag's provider. That provider gains exactly that guid, and its pool is the emplaced pool with the constructed record in the new slot |
| Whippet.Universe.Stage | inc/whippet.inline.hpp:6-16 | `attach` up to the books: the pool is the emplaced pool with the constructed record in the new slot, and the new books account the new guid to the tag |
| Whippet.Universe.ForAll_ | src/whippet-universe.cpp:38-42 | `forall_` needs an installed tag and walks that provider's components only |
| Whippet.Universe.ForAny_ | src/whippet-universe.cpp:44-48 | `forany_` walks every provider's components in ascending tag order and hands the userdata on; a callback returning false ends only that provider's walk |
| Whippet.Universe.DetachComponent | src/whippet-component.cpp:20-24 | `_component::detach` goes through the record's manager. The record's slot, and no other slot of any array, is overwritten with the cleared record, so the slot dies; exactly its guid leaves the books and the active set |
| Whippet.Universe.Unhook | src/whippet-component.cpp:20-24 | `detach` up to the books: the manager is the provider holding the record, only the record's slot is overwritten with the cleared record, and the books lose exactly its guid |
| Whippet.Universe.Dismiss | inc/whippet.inline.hpp:112-131 | The provider's `detach` overwrites only the component's slot with the cleared record, releases exactly its guid, and leaves the other providers alone |
| Whippet.Universe.Locate | src/whippet-entity.cpp:35-44 | A component that `forany_` lists is live in an installed provider, is managed by it, and belongs to this universe |
| Whippet.Universe.Sweep | src/whippet-entity.cpp:32-45 | One pass of `remove` either finds no component of the entity and changes no slot, guid or book, or detaches one live component of the entity: its slot alone is cleared in every pool, and only its guid is released |
| Whippet.Universe.Seek | src/whippet-entity.cpp:33-40 | The visit of a pass captures a component of the entity, held by an installed provider, or reports that the entity has none |
| Whippet.Universe.Remove | src/whippet-entity.cpp:27-46 | `remove` leaves the entity owning no component. Every slot of every pool either keeps its record or held a live component of the entity and is now cleared, no layer is added or dropped, only guids of the entity's components are released, and the entity's own guid stays active |
| Whippet.Universe.Pass | src/whippet-entity.cpp:32-45 | A pass clears only live slots of the entity's components, and one that finds a component lowers the number of live components, so the loop ends |
| Whippet.Universe.Passes | src/whippet-entity.cpp:32-45 | The `do … while (attached)` loop of `remove` keeps the removal books, clears only live slots of the entity's components, and stops only after a pass that finds no component of the entity, which is then left owning none |
| Whippet.Universe.System | inc/whippet.inline.hpp:192-225 | `system<S>()` returns the node of that name; it adds nothing when one exists, and otherwise prepends exactly one node naming this universe |
| Whippet.Universe.Prepend | inc/whippet.inline.hpp:204-222 | The new node becomes the head and the list keeps one node per created name |
| Whippet.Universe.PurgeOne | src/whippet-universe.cpp:58-59 | Purging one provider empties it, and exactly its guids leave the books and the active set |
| Whippet.Universe.Drain | src/whippet-universe.cpp:58-59 | Purging up to the books: the new books drop exactly that tag's guids |
| Whippet.Universe.Scour | inc/whippet.inline.hpp:163-173 | The provider's `purge` empties it, releases exactly its guids, and leaves the others alone |
| Whippet.Universe.Vacate | src/whippet-universe.cpp:62 | Clearing the map, once every provider is empty, leaves no provider, and each former provider was empty |
| Whippet.Universe.Dispose | src/whippet-universe.cpp:55-67 | The destructor purges every provider and releases exactly the component guids. It leaves the provider map empty, with every former provider empty, and destroys the systems once each, in creation order |
| Whippet.Universe.PurgeAll | src/whippet-universe.cpp:58-59 | After the purge loop, no component guid is left and exactly those guids were released |
| Whippet.Universe.PurgeStep | src/whippet-universe.cpp:58-59 | One round of the purge loop purges one more tag and releases exactly its guids |
| Porcelain.ComponentCount | src/whippet-porcelain.cpp:6-28 | The count is the number of the entity's components the filter accepts. It is at most the number of the entity's components, and exactly that number for an accept-all filter |
| Porcelain.CountVisitsAll | src/whippet-porcelain.cpp:19-25 | The counting callback never cuts the visit short: it sees every component of the entity |

## Left out

- Threads and the event manager of `inc/pal.inc.event_manager.hpp`, which are concurrency. The `pal.hpp` plumbing (logging, `exit`, the container wrappers, `qpack`) is left out too. Assertions are preconditions, and `warn` changes nothing.
- Raw memory is not modelled: placement new, `reinterpret_cast`, `malloc`/`free`, byte buffers, alignment. A slot holds a `Record` value, and a payload not yet constructed or already destroyed is `None`.
- The iterator generator of `generator.hpp` is not part of this model. Iteration is the sequence of live slots that `Slab.Scan` defines.
- The `whippet__util` block and `src/whippet-util.cpp` are left out, because they are compiled out.
- Members that are declared but have no body are not modelled: `universe::weed` and `universe::visit`, `_provider::as`, `_provider::is`, `_provider::visit` and `_provider::weed`, and `_system::as`. `entity::visit`, which `remove` and `component_count` call, is taken to be `forany`, the only visitation over all providers that has a body.
- `std::type_index` is a `nat`. The provider map's order is ascending `nat`.
- Adler.Step: characters are bytes 0..255. The sign of a plain `char` is not modelled.
- Adler.Packed: `uint32_t` and `size_t` widths are not modelled elsewhere, because the sums stay below 2^16 and no count comes near 2^32. The packing's 32-bit shift is written out.
- Whippet.Universe.GuidActivate: the 32-bit `next` is not modelled; the model assumes fewer than 2^32 - 1 active guids. At that many, `1 + size` wraps to 0 in the source; 0 is never active, so the search stops at once and the assertion `0 != next` fails, while the model's unbounded count goes on to 2^32.
- Whippet.Universe.Attach: the caller must have installed the tag. The source would dereference the null provider that `_providers[key]` creates for a missing tag.
- Whippet.Provider.Detach: the caller must pass a component live in this provider. The source's "couldn't find component" assertion is that precondition.
- Whippet.Universe.DetachComponent: the provider holding the component is passed as a ghost tag. The method calls the `detach` of the record's own manager, and it is proved to be that provider.
- Whippet.Universe.Remove: the model uses the corrected capture callback. The as-written callback is modelled and shown to fail (see Findings).
- Whippet.Universe.Dispose: the systems' own destructors and `free` are recorded only as the log of destroyed names. Destroying a system leaves nothing else observable.
- Whippet.SystemConstruct: `_next` and `_cleanup` have no fields. The link is the node's position in `Universe.systems` and the closure is `Whippet.Cleanup`, so "preserved" is stated for the name and the world.
- The entity constructors and the entity's assignment operator are datatype construction and value copy. Nothing else is left to prove.

## Findings

| source | as written | input that shows it | evidently intended | confidence | as-written member | corrected member |
|---|---|---|---|---|---|---|
| src/pal.cpp:25-28 | `(*this) << t` picks the `const char*` overload, so every round folds the whole C string at `t` and then recurses on `t + 1` | `operator()(1, "ab")` folds "ab" (a = 196, b = 294) instead of "a" (a = 98, b = 98) | `(*this) << *t`: fold one character per round, so exactly `l` characters | not executed; high | Adler.FoldLenAsWrittenOverreads | Adler.FoldLenIsPrefix |
| src/whippet-entity.cpp:35-40 | the callback asserts that nothing was captured yet, but `forany_` goes on to the next provider after a callback returns false | an entity with a component in each of two providers: the second provider's walk calls the callback again, and the assertion fails | keep the first capture and stop, so each pass detaches one component | not executed; high | Visit.AsWrittenTripsIffTwo | Visit.CaptureFirstSpec |
