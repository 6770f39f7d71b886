/**
  Callback visitation as values. A provider's `forall` walks its live
  components in iteration order, invokes the callback on those whose owner
  guid matches, and stops at the first callback that returns false; the
  universe's `forany_` runs one such walk per provider, handing the same
  userdata from one to the next, and never stops across providers. The
  userdata the source passes by address is threaded through as a value.
*/
module Visit {
  import Slab

  /** The outcome of a walk: the userdata after it, the items the callback saw, and whether it was cut short. */
  datatype Pass<U, X> = Pass(data: U, visited: seq<X>, stopped: bool)

  /** The items a walk considers: those `sel` accepts, in order. */
  function Filter<X>(items: seq<X>, sel: X -> bool): (r: seq<X>)
    ensures |r| <= |items|
    ensures forall x :: x in r ==> x in items && sel(x)
    decreases |items|
  {
    if items == [] then []
    else (if sel(items[0]) then [items[0]] else []) + Filter(items[1..], sel)
  }

  /** One provider's `forall`: invoke `cb` on each accepted item until it returns false. */
  function Fold<U, X>(items: seq<X>, sel: X -> bool, cb: (U, X) -> (U, bool), u: U): Pass<U, X>
    decreases |items|
  {
    if items == [] then Pass(u, [], false)
    else if !sel(items[0]) then Fold(items[1..], sel, cb, u)
    else
      var (u', go) := cb(u, items[0]);
      if !go then Pass(u', [items[0]], true)
      else
        var rest := Fold(items[1..], sel, cb, u');
        Pass(rest.data, [items[0]] + rest.visited, rest.stopped)
  }

  /** The universe's `forany_`: one walk per provider in map order, userdata handed on, no stop across walks. */
  function FoldEach<U, X>(groups: seq<seq<X>>, sel: X -> bool, cb: (U, X) -> (U, bool), u: U): Pass<U, X>
    decreases |groups|
  {
    if groups == [] then Pass(u, [], false)
    else
      var first := Fold(groups[0], sel, cb, u);
      var rest := FoldEach(groups[1..], sel, cb, first.data);
      Pass(rest.data, first.visited + rest.visited, first.stopped || rest.stopped)
  }

  /** The accepted items of every group, group by group. */
  function FilterEach<X>(groups: seq<seq<X>>, sel: X -> bool): seq<X>
    decreases |groups|
  {
    if groups == [] then [] else Filter(groups[0], sel) + FilterEach(groups[1..], sel)
  }

  /** The walk stepped one item forward, as the loop over a provider's storage does it. */
  lemma FoldStep<U, X>(items: seq<X>, n: nat, sel: X -> bool, cb: (U, X) -> (U, bool), u: U)
    requires n < |items|
    ensures Fold(items[n..], sel, cb, u) ==
      if !sel(items[n]) then Fold(items[n + 1..], sel, cb, u)
      else
        var (u', go) := cb(u, items[n]);
        if !go then Pass(u', [items[n]], true)
        else
          var rest := Fold(items[n + 1..], sel, cb, u');
          Pass(rest.data, [items[n]] + rest.visited, rest.stopped)
  {
    assert items[n..][0] == items[n] && items[n..][1..] == items[n + 1..];
  }

  /**
    The callback sees accepted items only, in order, with none skipped: what
    it sees is a prefix of the accepted items, and all of them unless the walk
    was cut short, in which case it saw at least one.
  */
  lemma {:induction false} FoldVisitsPrefix<U, X>(items: seq<X>, sel: X -> bool, cb: (U, X) -> (U, bool), u: U)
    ensures Fold(items, sel, cb, u).visited <= Filter(items, sel)
    ensures !Fold(items, sel, cb, u).stopped ==> Fold(items, sel, cb, u).visited == Filter(items, sel)
    ensures Fold(items, sel, cb, u).stopped ==> |Fold(items, sel, cb, u).visited| > 0
    decreases |items|
  {
    if items != [] {
      if !sel(items[0]) {
        FoldVisitsPrefix(items[1..], sel, cb, u);
      } else {
        var (u', go) := cb(u, items[0]);
        FoldVisitsPrefix(items[1..], sel, cb, u');
      }
    }
  }

  /** When the callback always continues, it sees every accepted item and the walk is never cut short. */
  lemma {:induction false} FoldAllContinue<U, X>(items: seq<X>, sel: X -> bool, cb: (U, X) -> (U, bool), u: U)
    requires forall d, x :: cb(d, x).1
    ensures Fold(items, sel, cb, u).visited == Filter(items, sel)
    ensures !Fold(items, sel, cb, u).stopped
    decreases |items|
  {
    if items != [] {
      FoldAllContinue(items[1..], sel, cb, if sel(items[0]) then cb(u, items[0]).0 else u);
    }
  }

  /** When the callback always stops, it sees exactly the first accepted item, if any. */
  lemma {:induction false} FoldAllStop<U, X>(items: seq<X>, sel: X -> bool, cb: (U, X) -> (U, bool), u: U)
    requires forall d, x :: !cb(d, x).1
    ensures var f := Filter(items, sel);
      Fold(items, sel, cb, u).visited == (if f == [] then [] else [f[0]]) &&
      (Fold(items, sel, cb, u).stopped <==> f != []) &&
      (f == [] ==> Fold(items, sel, cb, u).data == u) &&
      (f != [] ==> Fold(items, sel, cb, u).data == cb(u, f[0]).0)
    decreases |items|
  {
    if items != [] && !sel(items[0]) {
      FoldAllStop(items[1..], sel, cb, u);
    }
  }

  /** `forany_` sees, group after group, exactly what each group's walk sees; a stop in one group does not end the others. */
  lemma {:induction false} FoldEachVisits<U, X>(groups: seq<seq<X>>, sel: X -> bool, cb: (U, X) -> (U, bool), u: U)
    requires forall d, x :: !cb(d, x).1
    ensures FoldEach(groups, sel, cb, u).visited == FirstEach(groups, sel)
    decreases |groups|
  {
    if groups != [] {
      FoldAllStop(groups[0], sel, cb, u);
      FoldEachVisits(groups[1..], sel, cb, Fold(groups[0], sel, cb, u).data);
    }
  }

  /** The first accepted item of each group that has one. */
  function FirstEach<X>(groups: seq<seq<X>>, sel: X -> bool): (r: seq<X>)
    ensures |r| <= |groups|
    decreases |groups|
  {
    if groups == [] then []
    else
      var f := Filter(groups[0], sel);
      (if f == [] then [] else [f[0]]) + FirstEach(groups[1..], sel)
  }

  /** An item is accepted by a walk exactly when it is in the items and `sel` holds for it. */
  lemma {:induction false} FilterHas<X>(items: seq<X>, sel: X -> bool, x: X)
    ensures x in Filter(items, sel) <==> x in items && sel(x)
    decreases |items|
  {
    if items != [] {
      FilterHas(items[1..], sel, x);
      assert x in items <==> x == items[0] || x in items[1..];
    }
  }

  /** The first accepted item of some group is an accepted item of that group. */
  lemma {:induction false} FirstEachIn<X>(groups: seq<seq<X>>, sel: X -> bool, x: X)
    requires x in FirstEach(groups, sel)
    ensures exists i :: 0 <= i < |groups| && x in groups[i] && sel(x)
    decreases |groups|
  {
    var f := Filter(groups[0], sel);
    if f != [] && x == f[0] {
      assert x in groups[0] && sel(x);
    } else {
      FirstEachIn(groups[1..], sel, x);
      var i :| 0 <= i < |groups[1..]| && x in groups[1..][i] && sel(x);
      assert x in groups[i + 1];
    }
  }

  /** No group has an item to capture exactly when `sel` holds for no item of any group. */
  lemma {:induction false} FirstEachNone<X>(groups: seq<seq<X>>, sel: X -> bool)
    ensures FirstEach(groups, sel) == [] <==> forall i, x :: 0 <= i < |groups| && x in groups[i] ==> !sel(x)
    decreases |groups|
  {
    if groups != [] {
      FirstEachNone(groups[1..], sel);
      forall x | x in groups[0] && sel(x) ensures Filter(groups[0], sel) != [] {
        FilterHas(groups[0], sel, x);
      }
      forall i, x | 0 < i < |groups| && x in groups[i] ensures x in groups[1..][i - 1] {
      }
      var f := Filter(groups[0], sel);
      assert FirstEach(groups, sel) == (if f == [] then [] else [f[0]]) + FirstEach(groups[1..], sel);
      if f != [] {
        assert f[0] in groups[0] && sel(f[0]);
      }
    }
  }

  /** When the callback always continues, `forany_` sees every accepted item of every group. */
  lemma {:induction false} FoldEachAllContinue<U, X>(groups: seq<seq<X>>, sel: X -> bool, cb: (U, X) -> (U, bool), u: U)
    requires forall d, x :: cb(d, x).1
    ensures FoldEach(groups, sel, cb, u).visited == FilterEach(groups, sel)
    ensures !FoldEach(groups, sel, cb, u).stopped
    decreases |groups|
  {
    if groups != [] {
      FoldAllContinue(groups[0], sel, cb, u);
      FoldEachAllContinue(groups[1..], sel, cb, Fold(groups[0], sel, cb, u).data);
    }
  }

  // ==== counting (`porcelain::component_count`)

  /** The counting callback: add one when `filter` accepts, and always go on. */
  function Counter<X>(filter: X -> bool): (cb: (nat, X) -> (nat, bool))
  {
    (n: nat, x: X) => (if filter(x) then n + 1 else n, true)
  }

  /** How many items `filter` accepts. */
  function CountIf<X>(items: seq<X>, filter: X -> bool): nat
    decreases |items|
  {
    if items == [] then 0 else (if filter(items[0]) then 1 else 0) + CountIf(items[1..], filter)
  }

  lemma {:induction false} CountIfBound<X>(items: seq<X>, filter: X -> bool)
    ensures CountIf(items, filter) <= |items|
    ensures (forall x :: filter(x)) ==> CountIf(items, filter) == |items|
    decreases |items|
  {
    if items != [] {
      CountIfBound(items[1..], filter);
    }
  }

  lemma {:induction false} CountIfAppend<X>(a: seq<X>, b: seq<X>, filter: X -> bool)
    ensures CountIf(a + b, filter) == CountIf(a, filter) + CountIf(b, filter)
    decreases |a|
  {
    if a == [] {
      assert a + b == b;
    } else {
      CountIfAppend(a[1..], b, filter);
      assert (a + b)[0] == a[0] && (a + b)[1..] == a[1..] + b;
    }
  }

  /** One walk with the counting callback adds the number of visited items the filter accepts. */
  lemma {:induction false} CountFold<X>(items: seq<X>, sel: X -> bool, filter: X -> bool, n: nat)
    ensures Fold(items, sel, Counter(filter), n).data == n + CountIf(Filter(items, sel), filter)
    decreases |items|
  {
    if items != [] {
      var cb := Counter(filter);
      if sel(items[0]) {
        var f := Filter(items[1..], sel);
        CountFold(items[1..], sel, filter, cb(n, items[0]).0);
        assert Filter(items, sel) == [items[0]] + f;
        assert ([items[0]] + f)[1..] == f;
      } else {
        CountFold(items[1..], sel, filter, n);
        assert Filter(items, sel) == [] + Filter(items[1..], sel) == Filter(items[1..], sel);
      }
    }
  }

  /**
    `component_count`: starting from 0, the count is the number of the
    entity's components, over all providers, that the filter accepts.
  */
  lemma {:induction false} CountFoldEach<X>(groups: seq<seq<X>>, sel: X -> bool, filter: X -> bool, n: nat)
    ensures FoldEach(groups, sel, Counter(filter), n).data == n + CountIf(FilterEach(groups, sel), filter)
    decreases |groups|
  {
    if groups != [] {
      CountFold(groups[0], sel, filter, n);
      var m := Fold(groups[0], sel, Counter(filter), n).data;
      CountFoldEach(groups[1..], sel, filter, m);
      CountIfAppend(Filter(groups[0], sel), FilterEach(groups[1..], sel), filter);
    }
  }

  /** The count never exceeds the number of the entity's components, and with accept-all it equals it. */
  lemma CountBounds<X>(groups: seq<seq<X>>, sel: X -> bool, filter: X -> bool)
    ensures FoldEach<nat, X>(groups, sel, Counter(filter), 0).data <= |FilterEach(groups, sel)|
    ensures (forall x :: filter(x)) ==> FoldEach<nat, X>(groups, sel, Counter(filter), 0).data == |FilterEach(groups, sel)|
  {
    CountFoldEach(groups, sel, filter, 0);
    CountIfBound(FilterEach(groups, sel), filter);
  }

  // ==== the capture callback of `entity::remove`

  /** What `remove`'s callback leaves in its userdata: the captured component, and whether its assertion failed. */
  datatype Capture<X> = Capture(attached: Slab.Option<X>, tripped: bool)

  /**
    The callback as written: assert nothing was captured yet, capture, stop.
    The failed assertion is recorded in `tripped` rather than aborting.
  */
  function CaptureAsWritten<X>(s: Capture<X>, c: X): (Capture<X>, bool) {
    (Capture(Slab.Some(c), s.tripped || s.attached.Some?), false)
  }

  /** The callback as intended: keep the first capture, stop. */
  function CaptureFirst<X>(s: Capture<X>, c: X): (Capture<X>, bool) {
    (if s.attached.Some? then s else Capture(Slab.Some(c), s.tripped), false)
  }

  /**
    Counterexample: an entity with one component in each of two providers.
    `forany_` runs the callback once per provider, so the second call finds
    the first capture and the assertion fails.
  */
  lemma RemoveAsWrittenTrips()
    ensures FoldEach([[1], [2]], (x: int) => true, CaptureAsWritten, Capture(Slab.None, false)).data.tripped
  {
    var sel := (x: int) => true;
    var c0: Capture<int> := Capture(Slab.None, false);
    assert Fold([1], sel, CaptureAsWritten, c0) == Pass(Capture(Slab.Some(1), false), [1], true);
    var c1 := Capture(Slab.Some(1), false);
    assert [[1], [2]][1..] == [[2]];
    assert Fold([2], sel, CaptureAsWritten, c1) == Pass(Capture(Slab.Some(2), true), [2], true);
    assert [[2]][1..] == [];
  }

  /** In general: the as-written callback trips exactly when two or more providers hold a component of the entity. */
  lemma {:induction false} AsWrittenTripsIffTwo<X>(groups: seq<seq<X>>, sel: X -> bool, s: Capture<X>)
    ensures var r := FoldEach(groups, sel, CaptureAsWritten, s).data;
      (r.tripped <==> s.tripped || |FirstEach(groups, sel)| + (if s.attached.Some? then 1 else 0) >= 2) &&
      (r.attached.Some? <==> s.attached.Some? || FirstEach(groups, sel) != [])
    decreases |groups|
  {
    if groups != [] {
      FoldAllStop(groups[0], sel, CaptureAsWritten, s);
      AsWrittenTripsIffTwo(groups[1..], sel, Fold(groups[0], sel, CaptureAsWritten, s).data);
    }
  }

  /**
    The corrected callback never trips, and captures the entity's first
    component over all providers in map order, or nothing when it has none.
  */
  lemma {:induction false} CaptureFirstSpec<X>(groups: seq<seq<X>>, sel: X -> bool, s: Capture<X>)
    requires !s.tripped
    ensures var r := FoldEach(groups, sel, CaptureFirst, s).data;
      !r.tripped &&
      (s.attached.Some? ==> r == s) &&
      (s.attached.None? ==> (r.attached.None? <==> FirstEach(groups, sel) == [])) &&
      (s.attached.None? && FirstEach(groups, sel) != [] ==> r.attached == Slab.Some(FirstEach(groups, sel)[0]))
    decreases |groups|
  {
    if groups != [] {
      FoldAllStop(groups[0], sel, CaptureFirst, s);
      AsFirstEachHead(groups, sel);
      CaptureFirstSpec(groups[1..], sel, Fold(groups[0], sel, CaptureFirst, s).data);
    }
  }

  lemma AsFirstEachHead<X>(groups: seq<seq<X>>, sel: X -> bool)
    requires groups != []
    ensures Filter(groups[0], sel) != [] ==> FirstEach(groups, sel)[0] == Filter(groups[0], sel)[0]
    ensures Filter(groups[0], sel) == [] ==> FirstEach(groups, sel) == FirstEach(groups[1..], sel)
  {
  }

  /** The entity owns a component somewhere exactly when some provider's walk finds one. */
  lemma {:induction false} FirstEachEmpty<X>(groups: seq<seq<X>>, sel: X -> bool)
    ensures FirstEach(groups, sel) == [] <==> FilterEach(groups, sel) == []
    decreases |groups|
  {
    if groups != [] {
      FirstEachEmpty(groups[1..], sel);
    }
  }
}
