/**
 * The choice a backtracking regex makes among the ways a pattern can match.
 * Every pattern of the server-log parser starts with a greedy `.*` and then a
 * greedy capture group, so of all the positions at which the pattern's fixed
 * text can be placed, the one reported is the greatest in lexicographic order:
 * the latest start of the fixed text first, then the longest first capture,
 * then the longest second capture.
 */
module Search {
  import opened Wrappers

  /** The largest `k <= n` with `p(k)`. */
  function LastTrue(n: nat, p: nat -> bool): (r: Option<nat>)
    ensures r.Some? ==> r.value <= n && p(r.value)
    ensures r.Some? ==> forall k: nat :: r.value < k <= n ==> !p(k)
    ensures r.None? ==> forall k: nat :: k <= n ==> !p(k)
  {
    if p(n) then Some(n) else if n == 0 then None else LastTrue(n - 1, p)
  }

  /** `(i, k)` is tried no earlier than `(i', k')` by a matcher that prefers larger values. */
  predicate NoLater2(i: nat, k: nat, i': nat, k': nat) {
    i < i' || (i == i' && k <= k')
  }

  predicate NoLater3(i: nat, k: nat, j: nat, i': nat, k': nat, j': nat) {
    i < i' || (i == i' && NoLater2(k, j, k', j'))
  }

  /** Fixes the first coordinate of a pair predicate. */
  function Row(at: (nat, nat) -> bool, i: nat): nat -> bool {
    (k: nat) => at(i, k)
  }

  /** Fixes the first coordinate of a triple predicate. */
  function Plane(at: (nat, nat, nat) -> bool, i: nat): (nat, nat) -> bool {
    (k: nat, j: nat) => at(i, k, j)
  }

  /** Whether some pair with first coordinate `i` satisfies `at`. */
  function RowHit(n: nat, at: (nat, nat) -> bool): nat -> bool {
    (i: nat) => LastTrue(n, Row(at, i)).Some?
  }

  /** Whether some triple with first coordinate `i` satisfies `at`. */
  function PlaneHit(n: nat, at: (nat, nat, nat) -> bool): nat -> bool {
    (i: nat) => Best2(n, Plane(at, i)).Some?
  }

  /** The lexicographically greatest pair below `n` satisfying `at`. */
  function Best2(n: nat, at: (nat, nat) -> bool): (r: Option<(nat, nat)>)
    ensures r.Some? ==> r.value.0 <= n && r.value.1 <= n && at(r.value.0, r.value.1)
    ensures r.Some? ==> forall i: nat, k: nat :: i <= n && k <= n && at(i, k) ==> NoLater2(i, k, r.value.0, r.value.1)
    ensures r.None? ==> forall i: nat, k: nat :: i <= n && k <= n ==> !at(i, k)
  {
    var outer := LastTrue(n, RowHit(n, at));
    if outer.None? then
      assert forall i: nat, k: nat :: i <= n && k <= n ==> !at(i, k) by {
        forall i: nat, k: nat | i <= n && k <= n ensures !at(i, k) {
          assert !RowHit(n, at)(i);
          assert !Row(at, i)(k);
        }
      }
      None
    else
      var i0 := outer.value;
      var inner := LastTrue(n, Row(at, i0));
      assert Row(at, i0)(inner.value);
      assert forall i: nat, k: nat :: i <= n && k <= n && at(i, k) ==> NoLater2(i, k, i0, inner.value) by {
        forall i: nat, k: nat | i <= n && k <= n && at(i, k) ensures NoLater2(i, k, i0, inner.value) {
          assert Row(at, i)(k);
          assert RowHit(n, at)(i);
        }
      }
      Some((i0, inner.value))
  }

  /** The lexicographically greatest triple below `n` satisfying `at`. */
  function Best3(n: nat, at: (nat, nat, nat) -> bool): (r: Option<(nat, nat, nat)>)
    ensures r.Some? ==> r.value.0 <= n && r.value.1 <= n && r.value.2 <= n && at(r.value.0, r.value.1, r.value.2)
    ensures r.Some? ==> forall i: nat, k: nat, j: nat :: i <= n && k <= n && j <= n && at(i, k, j) ==>
      NoLater3(i, k, j, r.value.0, r.value.1, r.value.2)
    ensures r.None? ==> forall i: nat, k: nat, j: nat :: i <= n && k <= n && j <= n ==> !at(i, k, j)
  {
    var outer := LastTrue(n, PlaneHit(n, at));
    if outer.None? then
      assert forall i: nat, k: nat, j: nat :: i <= n && k <= n && j <= n ==> !at(i, k, j) by {
        forall i: nat, k: nat, j: nat | i <= n && k <= n && j <= n ensures !at(i, k, j) {
          assert !PlaneHit(n, at)(i);
          assert !Plane(at, i)(k, j);
        }
      }
      None
    else
      var i0 := outer.value;
      var inner := Best2(n, Plane(at, i0));
      assert Plane(at, i0)(inner.value.0, inner.value.1);
      assert forall i: nat, k: nat, j: nat :: i <= n && k <= n && j <= n && at(i, k, j) ==>
          NoLater3(i, k, j, i0, inner.value.0, inner.value.1) by {
        forall i: nat, k: nat, j: nat | i <= n && k <= n && j <= n && at(i, k, j)
          ensures NoLater3(i, k, j, i0, inner.value.0, inner.value.1)
        {
          assert Plane(at, i)(k, j);
          assert PlaneHit(n, at)(i);
        }
      }
      Some((i0, inner.value.0, inner.value.1))
  }
}
