/**
 * The grid's sparse boolean stores (`{ [id]: bool }` objects): device and
 * module selection and the three kinds of expansion. A missing entry reads
 * as false, exactly as `!!store[id]` does.
 */
module Flags {

  type Store = map<nat, bool>

  /** `!!store[id]`. */
  predicate IsOn(m: Store, id: nat)
  {
    id in m && m[id]
  }

  /**
   * `{ ...prev, [id]: !prev[id] }`: the entry for `id` is flipped and is now
   * explicit; every other entry is kept as it was.
   */
  function Toggled(m: Store, id: nat): (r: Store)
    ensures IsOn(r, id) == !IsOn(m, id)
    ensures r.Keys == m.Keys + {id}
    ensures forall k :: k in m && k != id ==> r[k] == m[k]
    ensures forall k :: k != id ==> IsOn(r, k) == IsOn(m, k)
  {
    m[id := !IsOn(m, id)]
  }

  /** Flipping one entry twice gives back what every id reads as. */
  lemma ToggleTwice(m: Store, id: nat, k: nat)
    ensures IsOn(Toggled(Toggled(m, id), id), k) == IsOn(m, k)
  {
  }

  /** `{ ...prev, [id]: v }`. */
  function Assigned(m: Store, id: nat, v: bool): (r: Store)
    ensures IsOn(r, id) == v
    ensures r.Keys == m.Keys + {id}
    ensures forall k :: k in m && k != id ==> r[k] == m[k]
    ensures forall k :: k != id ==> IsOn(r, k) == IsOn(m, k)
  {
    m[id := v]
  }

  /**
   * The select-all handlers: copy the store and set `updated[id] = checked`
   * for each id of the list in turn. Exactly the listed ids now read as
   * `checked`; every other entry, present or absent, is untouched.
   */
  method SetEntries(m: Store, ids: seq<nat>, checked: bool) returns (updated: Store)
    ensures updated.Keys == m.Keys + set i | 0 <= i < |ids| :: ids[i]
    ensures forall i :: 0 <= i < |ids| ==> updated[ids[i]] == checked
    ensures forall k :: k in m && k !in ids ==> updated[k] == m[k]
  {
    updated := m;
    var n := 0;
    while n < |ids|
      invariant 0 <= n <= |ids|
      invariant updated.Keys == m.Keys + set i | 0 <= i < n :: ids[i]
      invariant forall i :: 0 <= i < n ==> updated[ids[i]] == checked
      invariant forall k :: k in m && k !in ids[..n] ==> updated[k] == m[k]
    {
      updated := updated[ids[n] := checked];
      assert ids[..n + 1] == ids[..n] + [ids[n]];
      n := n + 1;
    }
    assert ids[..n] == ids;
  }

  /**
   * The select-all header box: checked iff the list is non-empty and every
   * listed id is selected.
   */
  predicate AllOn(m: Store, ids: seq<nat>)
  {
    |ids| > 0 && forall i :: 0 <= i < |ids| ==> IsOn(m, ids[i])
  }

  /**
   * After the select-all handler has run with `checked` over `ids`, the
   * header box reads `checked` (when the list is non-empty), and whatever
   * is not listed reads as before.
   */
  lemma HeaderAfterSetEntries(m: Store, ids: seq<nat>, checked: bool, updated: Store)
    requires updated.Keys == m.Keys + set i | 0 <= i < |ids| :: ids[i]
    requires forall i :: 0 <= i < |ids| ==> updated[ids[i]] == checked
    requires forall k :: k in m && k !in ids ==> updated[k] == m[k]
    ensures AllOn(updated, ids) <==> checked && |ids| > 0
    ensures forall k :: k !in ids ==> IsOn(updated, k) == IsOn(m, k)
  {
    forall k | k !in ids
      ensures IsOn(updated, k) == IsOn(m, k)
    {
      assert k !in set i | 0 <= i < |ids| :: ids[i];
    }
    if |ids| > 0 && !checked {
      assert !IsOn(updated, ids[0]);
    }
  }

  /**
   * A header checkbox over `ids`: the box flips, every listed id takes the
   * box's new state, and ids that are not listed keep theirs.
   */
  method SelectAll(m: Store, ids: seq<nat>) returns (updated: Store, checked: bool)
    ensures checked == !AllOn(m, ids)
    ensures forall i :: 0 <= i < |ids| ==> IsOn(updated, ids[i]) == checked
    ensures forall k :: k !in ids ==> IsOn(updated, k) == IsOn(m, k)
    ensures |ids| > 0 ==> AllOn(updated, ids) == checked
  {
    checked := !AllOn(m, ids);
    updated := SetEntries(m, ids, checked);
    HeaderAfterSetEntries(m, ids, checked, updated);
  }

  /** Every non-empty set of ids has a least element. */
  lemma HasMinimum(s: set<nat>)
    requires s != {}
    ensures exists x :: x in s && forall y :: y in s ==> x <= y
  {
    var x :| x in s;
    MinimumBelow(s, x);
  }

  /** Descend from any member to a smaller one until none is smaller. */
  lemma {:induction false} MinimumBelow(s: set<nat>, x: nat)
    requires x in s
    ensures exists m :: m in s && forall y :: y in s ==> m <= y
    decreases x
  {
    if forall y :: y in s ==> x <= y {
      assert x in s && forall y :: y in s ==> x <= y;
    } else {
      var y :| y in s && y < x;
      MinimumBelow(s, y);
    }
  }

  function MinOf(s: set<nat>): (x: nat)
    requires s != {}
    ensures x in s && forall y :: y in s ==> x <= y
  {
    HasMinimum(s);
    var x :| x in s && forall y :: y in s ==> x <= y;
    x
  }

  /** The ids of a set in ascending order. */
  function Ascending(s: set<nat>): (r: seq<nat>)
    ensures forall i, j :: 0 <= i < j < |r| ==> r[i] < r[j]
    ensures forall k :: k in r <==> k in s
    ensures |r| == |s|
    decreases s
  {
    if s == {} then []
    else
      var x := MinOf(s);
      var rest := Ascending(s - {x});
      assert forall k :: k in rest ==> x < k;
      [x] + rest
  }

  /**
   * `Object.keys(store).filter(id => store[id]).map(Number)`: the ids that
   * read as true. JavaScript lists array-index keys (integers below 2^32 - 1)
   * of an object in ascending numeric order; ids are taken to be of that
   * size, so the result is ascending and free of repeats.
   */
  function TrueKeys(m: Store): (r: seq<nat>)
    ensures forall i, j :: 0 <= i < j < |r| ==> r[i] < r[j]
    ensures forall k :: k in r <==> IsOn(m, k)
    ensures |r| == |TrueSet(m)|
  {
    Ascending(TrueSet(m))
  }

  /** The ids that read as true, as a set. */
  function TrueSet(m: Store): (s: set<nat>)
    ensures forall k :: k in s <==> IsOn(m, k)
  {
    set k | k in m && m[k]
  }

  /** `Object.values(store).filter(Boolean).length`: how many entries read as true. */
  function TrueCount(m: Store): (n: nat)
    ensures n == |TrueSet(m)|
    ensures n == 0 <==> forall k :: !IsOn(m, k)
  {
    var r := TrueKeys(m);
    assert r != [] ==> IsOn(m, r[0]);
    |r|
  }
}
