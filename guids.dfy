/**
  The guid registry of a universe, as values: the set of active guids and the
  choice `guid_activate` makes. One registry serves entities and components
  alike; guid 0 is never handed out and stands for "no guid".
*/
module Guids {

  /**
    What `guid_activate` may return for `active`: a free value in
    1..|active|+1 above which every value up to |active|+1 is taken, so the
    largest free value there (not the smallest).
  */
  ghost predicate IsNextGuid(active: set<nat>, g: nat) {
    1 <= g <= |active| + 1 && g !in active &&
    forall h :: g < h <= |active| + 1 ==> h in active
  }

  /** The countdown of `guid_activate`: from `n` down to the first value not in `active` (0 if none). */
  function CountDown(active: set<nat>, n: nat): (g: nat)
    ensures g <= n
    decreases n
  {
    if n == 0 || n !in active then n else CountDown(active, n - 1)
  }

  /** The guid `guid_activate` returns. */
  function NextGuid(active: set<nat>): nat {
    CountDown(active, |active| + 1)
  }

  /** The countdown stops at a free value and skips only taken ones. */
  lemma {:induction false} CountDownSpec(active: set<nat>, n: nat)
    ensures CountDown(active, n) == 0 || CountDown(active, n) !in active
    ensures forall h :: CountDown(active, n) < h <= n ==> h in active
    decreases n
  {
    if n > 0 && n in active {
      CountDownSpec(active, n - 1);
    }
  }

  /** The values 1..n. */
  function Range(n: nat): set<nat>
    decreases n
  {
    if n == 0 then {} else Range(n - 1) + {n}
  }

  lemma {:induction false} RangeSpec(n: nat)
    ensures forall x :: x in Range(n) <==> 1 <= x <= n
    decreases n
  {
    if n > 0 {
      RangeSpec(n - 1);
    }
  }

  lemma {:induction false} RangeCard(n: nat)
    ensures |Range(n)| == n
    decreases n
  {
    if n > 0 {
      RangeCard(n - 1);
      RangeSpec(n - 1);
    }
  }

  /** A set larger than another has an element outside it. */
  lemma {:induction false} LargerHasOutside(a: set<nat>, b: set<nat>)
    requires |a| > |b|
    ensures exists x :: x in a && x !in b
    decreases |a|
  {
    var x :| x in a;
    if x in b {
      LargerHasOutside(a - {x}, b - {x});
      var y :| y in a - {x} && y !in b - {x};
      assert y in a && y !in b;
    }
  }

  /** Pigeonhole: |active| values cannot fill 1..|active|+1. */
  lemma Pigeonhole(active: set<nat>)
    ensures exists g :: 1 <= g <= |active| + 1 && g !in active
  {
    RangeCard(|active| + 1);
    RangeSpec(|active| + 1);
    LargerHasOutside(Range(|active| + 1), active);
  }

  /**
    The countdown never reaches 0, and what it returns is the one value
    `IsNextGuid` allows: the largest free value in range.
  */
  lemma NextGuidSpec(active: set<nat>)
    ensures NextGuid(active) != 0
    ensures forall g :: IsNextGuid(active, g) <==> g == NextGuid(active)
  {
    var n := |active| + 1;
    CountDownSpec(active, n);
    Pigeonhole(active);
    var g :| 1 <= g <= n && g !in active;
    assert g <= CountDown(active, n);
  }

  /** `n` activations in a row, with no release between them: the guids handed out and the final set. */
  function Activations(active: set<nat>, n: nat): (r: (seq<nat>, set<nat>))
    decreases n
  {
    if n == 0 then ([], active)
    else
      var g := NextGuid(active);
      var (gs, last) := Activations(active + {g}, n - 1);
      ([g] + gs, last)
  }

  /**
    Guids activated without an intervening release are pairwise distinct, were
    all free before, are never 0, and are exactly what the set gained.
  */
  lemma {:induction false} ActivationsDistinct(active: set<nat>, n: nat)
    ensures var (gs, last) := Activations(active, n);
      |gs| == n &&
      (forall i, j :: 0 <= i < j < n ==> gs[i] != gs[j]) &&
      (forall i :: 0 <= i < n ==> gs[i] != 0 && gs[i] !in active) &&
      (forall x :: x in last <==> x in active || x in gs)
    decreases n
  {
    if n > 0 {
      var g := NextGuid(active);
      NextGuidSpec(active);
      assert IsNextGuid(active, g);
      ActivationsDistinct(active + {g}, n - 1);
      var (rest, last) := Activations(active + {g}, n - 1);
      var gs := [g] + rest;
      assert Activations(active, n) == (gs, last);
      forall i, j | 0 <= i < j < n ensures gs[i] != gs[j] {
        assert gs[j] == rest[j - 1];
        if i > 0 {
          assert gs[i] == rest[i - 1];
        }
      }
      forall i | 0 <= i < n ensures gs[i] != 0 && gs[i] !in active {
        if i > 0 {
          assert gs[i] == rest[i - 1];
        }
      }
      forall x ensures x in last <==> x in active || x in gs {
        assert x in gs <==> x == g || x in rest;
      }
    }
  }

  /** From a registry holding exactly 1..k, activations hand out k+1, k+2, ... in order. */
  lemma {:induction false} FreshActivations(k: nat, n: nat)
    ensures |Activations(Range(k), n).0| == n
    ensures forall i :: 0 <= i < n ==> Activations(Range(k), n).0[i] == k + 1 + i
    decreases n
  {
    if n > 0 {
      var g := NextGuid(Range(k));
      NextAfterRange(k);
      var rest := Activations(Range(k) + {g}, n - 1).0;
      assert Activations(Range(k), n).0 == [g] + rest;
      FreshActivations(k + 1, n - 1);
      forall i | 0 <= i < n ensures ([g] + rest)[i] == k + 1 + i {
        if i > 0 {
          assert ([g] + rest)[i] == rest[i - 1];
        }
      }
    }
  }

  /** With exactly 1..k active, the countdown returns its starting value k+1 at once. */
  lemma NextAfterRange(k: nat)
    ensures NextGuid(Range(k)) == k + 1
    ensures Range(k) + {NextGuid(Range(k))} == Range(k + 1)
  {
    RangeCard(k);
    RangeSpec(k);
    assert k + 1 !in Range(k);
  }

  /** Scenario: after guid 1 of {1, 2, 3} is released, the next activation returns 1 again. */
  lemma ReleaseThenActivate()
    ensures NextGuid({2, 3}) == 1
  {
    assert |{2, 3}| == 2;
  }

  /** Scenario: with {1, 3} active the countdown starts at 3 and stops at 2. */
  lemma LargestNotSmallest()
    ensures NextGuid({1, 3}) == 2
  {
    assert |{1, 3}| == 2;
  }

  /**
    One release step of a drain: `ks0` were the keys at the start and `a0`
    the active set then; when `g`, one of the keys still held, is released,
    the active set is still the start set minus the keys already released.
  */
  lemma DrainStep(ks0: set<nat>, a0: set<nat>, ks: set<nat>, active: set<nat>, g: nat)
    requires ks <= ks0 && active == a0 - (ks0 - ks) && g in ks
    ensures ks - {g} <= ks0 && active - {g} == a0 - (ks0 - (ks - {g}))
  {
  }

  // ==== the guids of all components, over the providers' key sets

  /** The guids held by some provider. */
  ghost function Union(m: map<nat, set<nat>>): set<nat> {
    set t, g | t in m && g in m[t] :: g
  }

  /** No guid is held by two providers. */
  ghost predicate Disjoint(m: map<nat, set<nat>>) {
    forall t, u :: t in m && u in m && t != u ==> m[t] !! m[u]
  }

  /** Before any release, none of the guids `k0` is gone and the active guids are as they were. */
  lemma NoneReleased(a0: set<nat>, k0: set<nat>)
    ensures k0 - k0 == {} && a0 - (k0 - k0) == a0
  {
  }

  /** Releasing some of the guids `k0` leaves the active guids outside them as they were. */
  lemma ReleasedOnly(a0: set<nat>, k0: set<nat>, k: set<nat>)
    requires k <= k0
    ensures (a0 - (k0 - k)) - k == a0 - k0
  {
  }
}
