/**
  `porcelain::component_count`: the convenience layer over the universe's
  visitation. The count lives in the userdata of a callback that never
  stops the walk.
*/
module Porcelain {
  import opened Whippet
  import Visit

  /**
    `component_count(entity, filter)`: start a counter at 0 and visit every
    component of the entity, across all providers, adding one for each the
    filter accepts. The result is the number of the entity's components
    the filter accepts, at most the number of its components, and that
    number exactly when the filter accepts everything.
  */
  method ComponentCount<P>(e: Entity<P>, filter: Component<P> -> bool) returns (count: nat)
    requires e.world != null && e.world.Valid()
    ensures count == Visit.CountIf(Visit.FilterEach(e.world.Groups(), Owns(e.guid)), filter)
    ensures count <= |Visit.FilterEach(e.world.Groups(), Owns(e.guid))|
    ensures (forall c :: filter(c)) ==> count == |Visit.FilterEach(e.world.Groups(), Owns(e.guid))|
  {
    var w := EntityWorld(e);
    count := w.ForAny_(e.guid, Visit.Counter(filter), 0);
    Visit.CountFoldEach(w.Groups(), Owns(e.guid), filter, 0);
    Visit.CountBounds(w.Groups(), Owns(e.guid), filter);
  }

  /** The counting walk is never cut short: it visits every component of the entity. */
  lemma CountVisitsAll<P>(w: Universe<P>, guid: nat, filter: Component<P> -> bool)
    requires w.Layout()
    ensures var p := Visit.FoldEach<nat, Component<P>>(w.Groups(), Owns(guid), Visit.Counter(filter), 0);
      !p.stopped && p.visited == Visit.FilterEach(w.Groups(), Owns(guid))
  {
    Visit.FoldEachAllContinue(w.Groups(), Owns(guid), Visit.Counter(filter), 0);
  }
}
