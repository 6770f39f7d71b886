/**
  The iteration order of the provider map (`pal::map`, a `std::map` keyed by
  type tag): ascending by key.
*/
module Order {

  /** A least key of a non-empty set, found by induction on its size. */
  lemma {:induction false} LeastOf(s: set<nat>) returns (m: nat)
    requires s != {}
    ensures m in s && forall x :: x in s ==> m <= x
    decreases |s|
  {
    var y :| y in s;
    var rest := s - {y};
    if rest == {} {
      m := y;
      forall x | x in s ensures m <= x {
        assert x !in rest;
      }
    } else {
      var r := LeastOf(rest);
      m := if y < r then y else r;
      forall x | x in s ensures m <= x {
        if x != y {
          assert x in rest;
        }
      }
    }
  }

  /** Every non-empty set of keys has a least one. */
  lemma HasLeast(s: set<nat>)
    requires s != {}
    ensures exists m :: m in s && forall x :: x in s ==> m <= x
  {
    var m := LeastOf(s);
  }

  /** The least key. */
  ghost function Least(s: set<nat>): (m: nat)
    requires s != {}
    ensures m in s && forall x :: x in s ==> m <= x
  {
    HasLeast(s);
    var m :| m in s && forall x :: x in s ==> m <= x;
    m
  }

  /** The keys in map order. */
  ghost function Ordered(s: set<nat>): (ks: seq<nat>)
    ensures forall x :: x in ks <==> x in s
    decreases |s|
  {
    if s == {} then [] else [Least(s)] + Ordered(s - {Least(s)})
  }

  /** Taking the least remaining key, as a map iterator does, is one step of the order. */
  lemma OrderedHead(s: set<nat>, t: nat)
    requires t in s && forall x :: x in s ==> t <= x
    ensures Ordered(s) == [t] + Ordered(s - {t})
  {
    assert Least(s) <= t && t <= Least(s);
  }

  /** The order is strictly ascending, so it lists each key once. */
  lemma {:induction false} OrderedAscending(s: set<nat>)
    ensures forall i, j :: 0 <= i < j < |Ordered(s)| ==> Ordered(s)[i] < Ordered(s)[j]
    decreases |s|
  {
    if s != {} {
      var m := Least(s);
      var rest := Ordered(s - {m});
      OrderedAscending(s - {m});
      var ks := Ordered(s);
      assert ks == [m] + rest;
      forall i, j | 0 <= i < j < |ks| ensures ks[i] < ks[j] {
        assert ks[j] == rest[j - 1] && rest[j - 1] in rest;
        if i > 0 {
          assert ks[i] == rest[i - 1];
        }
      }
    }
  }
}
