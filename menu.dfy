/** `Menu`: a list of items, some hidden, one of them selected and
    highlighted; turning the dial moves the selection around the list,
    skipping hidden items. */
module Menus {
  import opened CArith
  import opened Effects

  /** The index one step lands on: the first step adds `delta`, every
      later one moves by one in the direction of `delta`; the index is
      wrapped into `[0, n)` as the source's two while loops do. */
  function Pos(prev: int, delta: int, k: nat, n: int): (p: int)
    requires n > 0
    ensures 0 <= p < n
  {
    if delta < 0 then (prev + delta - k) % n else (prev + delta + k) % n
  }

  /** Where `Menu::rotate`'s do-while loop stops: at the first index that is
      not hidden, or back at the previous selection. `k` counts the steps
      after the first; the walk never takes more than `n` of them. */
  function Walk(hidden: seq<bool>, prev: int, delta: int, k: nat): (r: int)
    requires |hidden| > 0 && k < |hidden|
    ensures 0 <= r < |hidden|
    decreases |hidden| - k
  {
    var p := Pos(prev, delta, k, |hidden|);
    if !hidden[p] || p == prev || k == |hidden| - 1 then p
    else Walk(hidden, prev, delta, k + 1)
  }

  /** The step on which the walk reaches index `j`: every index is reached
      within `n` steps. */
  function HitStep(prev: int, delta: int, j: int, n: int): (h: nat)
    requires n > 0 && 0 <= j < n
    ensures h < n && Pos(prev, delta, h, n) == j
  {
    var a := prev + delta;
    if delta < 0 then
      BackTo(a, j, n);
      (a - j) % n
    else
      ForwardTo(a, j, n);
      (j - a) % n
  }

  lemma BackTo(a: int, j: int, n: int)
    requires n > 0 && 0 <= j < n
    ensures (a - (a - j) % n) % n == j
  {
    var y := a - j;
    var q, r := y / n, y % n;
    assert y == q * n + r;
    assert a - r == j + q * n;
    ModUnique(j + q * n, q, j, n);
  }

  lemma ForwardTo(a: int, j: int, n: int)
    requires n > 0 && 0 <= j < n
    ensures (a + (j - a) % n) % n == j
  {
    ModAddMod(j - a, a, n);
    assert (j - a) % n + a == a + (j - a) % n;
    assert j - a + a == j;
    ModUnique(j, 0, j, n);
  }

  /** The two while loops of `rotate` that bring the index back into
      `[0, n)`: the result is the Euclidean residue. */
  method WrapIndex(x: int, n: int) returns (r: int)
    requires n > 0
    ensures r == x % n
  {
    r := x;
    ghost var q := 0;
    while r < 0
      invariant r == x + q * n
      decreases -r
    {
      MulSucc(q, n);
      r, q := r + n, q + 1;
    }
    while r >= n
      invariant r == x + q * n && r >= 0
      decreases r
    {
      MulSucc(q - 1, n);
      r, q := r - n, q - 1;
    }
    NegMul(q, n);
    ModUnique(x, -q, r, n);
  }

  /** One more step of the loop lands where `Pos` says. */
  lemma PosNext(prev: int, delta: int, k: nat, n: int, before: int, step: int)
    requires n > 0
    requires k == 0 ==> before == prev && step == delta
    requires k > 0 ==> before == Pos(prev, delta, k - 1, n) && step == (if delta < 0 then -1 else 1)
    ensures (before + step) % n == Pos(prev, delta, k, n)
  {
    if k > 0 {
      var x := if delta < 0 then prev + delta - (k - 1) else prev + delta + (k - 1);
      ModAddMod(x, step, n);
    }
  }

  predicate Stop(hidden: seq<bool>, prev: int, p: int)
    requires 0 <= p < |hidden|
  {
    !hidden[p] || p == prev
  }

  /** Where the walk stops is a stop: an item that is not hidden, or the
      previous selection. */
  lemma {:induction false} WalkStops(hidden: seq<bool>, prev: int, delta: int, k: nat, j: int)
    requires |hidden| > 0 && 0 <= j < |hidden| && Stop(hidden, prev, j)
    requires k <= HitStep(prev, delta, j, |hidden|)
    ensures Stop(hidden, prev, Walk(hidden, prev, delta, k))
    decreases |hidden| - k
  {
    var n := |hidden|;
    var p := Pos(prev, delta, k, n);
    if !Stop(hidden, prev, p) {
      assert k != HitStep(prev, delta, j, n);
      WalkStops(hidden, prev, delta, k + 1, j);
    }
  }

  /** The walk reaches a visible item `j` when it cannot meet the previous
      selection before `j`. */
  lemma {:induction false} WalkReaches(hidden: seq<bool>, prev: int, delta: int, k: nat, j: int)
    requires |hidden| > 0 && 0 <= j < |hidden| && !hidden[j]
    requires k <= HitStep(prev, delta, j, |hidden|)
    requires forall i :: k <= i <= HitStep(prev, delta, j, |hidden|) ==> Pos(prev, delta, i, |hidden|) != prev
    ensures !hidden[Walk(hidden, prev, delta, k)]
    decreases |hidden| - k
  {
    var n := |hidden|;
    var p := Pos(prev, delta, k, n);
    if hidden[p] {
      assert k != HitStep(prev, delta, j, n);
      WalkReaches(hidden, prev, delta, k + 1, j);
    }
  }

  /** With single steps, the walk comes back to the previous selection
      only on its last step. */
  lemma PosBack(prev: int, delta: int, k: nat, n: int)
    requires n > 0 && 0 <= prev < n && (delta == 1 || delta == -1) && k < n
    ensures Pos(prev, delta, k, n) == prev <==> k == n - 1
  {
    var x := if delta < 0 then prev - 1 - k else prev + 1 + k;
    if delta < 0 {
      if x >= 0 { ModUnique(x, 0, x, n); } else { ModUnique(x, -1, x + n, n); }
    } else {
      if x < n { ModUnique(x, 0, x, n); } else { ModUnique(x, 1, x - n, n); }
    }
  }

  /** `rotate` lands on a visible item whenever there is one, provided
      nothing was selected, the previous item is visible, or the step is
      a single one. */
  lemma WalkVisible(hidden: seq<bool>, prev: int, delta: int, v: int)
    requires |hidden| > 0 && -1 <= prev < |hidden|
    requires 0 <= v < |hidden| && !hidden[v]
    requires prev == -1 || !hidden[prev] || delta == 1 || delta == -1
    ensures !hidden[Walk(hidden, prev, delta, 0)]
  {
    var n := |hidden|;
    if prev == -1 {
      WalkReaches(hidden, prev, delta, 0, v);
    } else if !hidden[prev] {
      WalkStops(hidden, prev, delta, 0, prev);
    } else {
      var h := HitStep(prev, delta, v, n);
      PosBack(prev, delta, h, n);
      forall i | 0 <= i <= h
        ensures Pos(prev, delta, i, n) != prev
      {
        PosBack(prev, delta, i, n);
      }
      WalkReaches(hidden, prev, delta, 0, v);
    }
  }

  /** A step of more than one can return to a hidden previous selection
      while another item is visible: three items, the middle one visible,
      the first selected, a step of two. */
  lemma WalkReturnsToHidden()
    ensures Walk([true, false, true], 0, 2, 0) == 0
  {
  }

  /** Moving by one from a visible item goes to the next visible item
      around the list, or stays when no other item is visible. */
  lemma {:induction false} WalkNext(hidden: seq<bool>, prev: int, k: nat)
    requires |hidden| > 0 && 0 <= prev < |hidden| && k < |hidden|
    requires forall i :: 0 <= i < k ==> hidden[Pos(prev, 1, i, |hidden|)]
    ensures var r := Walk(hidden, prev, 1, k);
            exists m :: k <= m < |hidden| && r == Pos(prev, 1, m, |hidden|)
              && (forall i :: 0 <= i < m ==> hidden[Pos(prev, 1, i, |hidden|)])
              && (!hidden[r] || m == |hidden| - 1)
    decreases |hidden| - k
  {
    var n := |hidden|;
    var p := Pos(prev, 1, k, n);
    PosBack(prev, 1, k, n);
    if !(!hidden[p] || p == prev || k == n - 1) {
      WalkNext(hidden, prev, k + 1);
    }
  }

  /** With every item hidden, `rotate` by any step comes back to the
      previous selection. */
  lemma WalkAllHidden(hidden: seq<bool>, prev: int, delta: int)
    requires 0 <= prev < |hidden|
    requires forall i :: 0 <= i < |hidden| ==> hidden[i]
    ensures Walk(hidden, prev, delta, 0) == prev
  {
    WalkStops(hidden, prev, delta, 0, prev);
  }

  /** The number of visible items of a menu. */
  function VisibleCount(hidden: seq<bool>): nat
  {
    multiset(hidden)[false]
  }

  /** The number of visible items among the `len` indices after `s`,
      going forward around the list. */
  function VisibleAfter(hidden: seq<bool>, s: int, len: nat): (c: nat)
    requires |hidden| > 0
    ensures c <= len
  {
    if len == 0 then 0
    else VisibleAfter(hidden, s, len - 1) + (if HiddenAt(hidden, s, len) then 0 else 1)
  }

  /** Whether the item `e` places after `s`, around the list, is hidden. */
  predicate HiddenAt(hidden: seq<bool>, s: int, e: int)
    requires |hidden| > 0
  {
    hidden[(s + e) % |hidden|]
  }

  lemma {:induction false} VisibleAfterHead(hidden: seq<bool>, s: int, len: nat)
    requires 0 <= s < |hidden| && len <= |hidden| - 1 - s
    ensures VisibleAfter(hidden, s, len) == VisibleCount(hidden[s + 1..s + 1 + len])
  {
    if len > 0 {
      VisibleAfterHead(hidden, s, len - 1);
      ModUnique(s + len, 0, s + len, |hidden|);
      assert hidden[s + 1..s + 1 + len] == hidden[s + 1..s + len] + [hidden[s + len]];
    }
  }

  lemma {:induction false} VisibleAfterTail(hidden: seq<bool>, s: int, j: nat)
    requires 0 <= s < |hidden| && j <= s + 1
    ensures VisibleAfter(hidden, s, |hidden| - 1 - s + j)
            == VisibleCount(hidden[s + 1..]) + VisibleCount(hidden[..j])
  {
    var n := |hidden|;
    if j == 0 {
      VisibleAfterHead(hidden, s, n - 1 - s);
      assert hidden[s + 1..s + 1 + (n - 1 - s)] == hidden[s + 1..];
      assert hidden[..0] == [];
    } else {
      VisibleAfterTail(hidden, s, j - 1);
      ModUnique(s + (n - 1 - s + j), 1, j - 1, n);
      assert hidden[..j] == hidden[..j - 1] + [hidden[j - 1]];
    }
  }

  /** Going once around the list from any index counts every visible item. */
  lemma VisibleAround(hidden: seq<bool>, s: int)
    requires 0 <= s < |hidden|
    ensures VisibleAfter(hidden, s, |hidden|) == VisibleCount(hidden)
  {
    VisibleAfterTail(hidden, s, s + 1);
    assert hidden == hidden[..s + 1] + hidden[s + 1..];
  }

  lemma {:induction false} VisibleAfterFlat(hidden: seq<bool>, s: int, a: nat, b: nat)
    requires |hidden| > 0 && a <= b
    requires forall e :: a < e <= b ==> HiddenAt(hidden, s, e)
    ensures VisibleAfter(hidden, s, b) == VisibleAfter(hidden, s, a)
    decreases b
  {
    if b > a {
      VisibleAfterFlat(hidden, s, a, b - 1);
    }
  }

  lemma {:induction false} VisibleAfterMono(hidden: seq<bool>, s: int, a: nat, b: nat)
    requires |hidden| > 0 && a <= b
    ensures VisibleAfter(hidden, s, a) <= VisibleAfter(hidden, s, b)
    decreases b
  {
    if b > a {
      VisibleAfterMono(hidden, s, a, b - 1);
    }
  }

  /** The selection after `k` calls of `rotate(1)`. */
  function WalkN(hidden: seq<bool>, prev: int, k: nat): (r: int)
    requires 0 <= prev < |hidden|
    ensures 0 <= r < |hidden|
  {
    if k == 0 then prev else Walk(hidden, WalkN(hidden, prev, k - 1), 1, 0)
  }

  /** From a visible item, `k` calls of `rotate(1)` (no more than there are
      visible items) land on the visible item at distance `d` from the
      start, where the count of visible items after the start reaches `k`. */
  lemma {:induction false} WalkNOffset(hidden: seq<bool>, s: int, k: nat) returns (d: nat)
    requires 0 <= s < |hidden| && !hidden[s]
    requires k <= VisibleAfter(hidden, s, |hidden|)
    ensures d <= |hidden| && WalkN(hidden, s, k) == (s + d) % |hidden|
    ensures VisibleAfter(hidden, s, d) == k && (k == 0 <==> d == 0)
    ensures !hidden[WalkN(hidden, s, k)]
  {
    var n := |hidden|;
    if k == 0 {
      d := 0;
      ModUnique(s, 0, s, n);
    } else {
      var d0 := WalkNOffset(hidden, s, k - 1);
      var m := WalkFrom(hidden, s, d0, WalkN(hidden, s, k - 1));
      if d0 + 1 + m > n {
        VisibleAfterFlat(hidden, s, d0, n);
        assert false;
      }
      d := d0 + 1 + m;
      VisibleAfterFlat(hidden, s, d0, d0 + m);
    }
  }

  /** One call of `rotate(1)` at distance `d0` from `s` passes `m` hidden
      items and lands on the visible item after them. */
  lemma WalkFrom(hidden: seq<bool>, s: int, d0: nat, p: int) returns (m: nat)
    requires 0 <= s < |hidden| && 0 <= p < |hidden|
    requires p == (s + d0) % |hidden| && !hidden[p]
    ensures m < |hidden| && Walk(hidden, p, 1, 0) == (s + (d0 + 1 + m)) % |hidden|
    ensures !hidden[Walk(hidden, p, 1, 0)]
    ensures forall e :: d0 < e <= d0 + m ==> HiddenAt(hidden, s, e)
  {
    var n := |hidden|;
    WalkNext(hidden, p, 0);
    var r := Walk(hidden, p, 1, 0);
    m :| 0 <= m < n && r == Pos(p, 1, m, n)
      && (forall i :: 0 <= i < m ==> hidden[Pos(p, 1, i, n)])
      && (!hidden[r] || m == n - 1);
    ModAddMod(s + d0, 1 + m, n);
    if m == n - 1 {
      PosBack(p, 1, m, n);
    }
    forall e | d0 < e <= d0 + m
      ensures HiddenAt(hidden, s, e)
    {
      ModAddMod(s + d0, e - d0, n);
      assert Pos(p, 1, e - d0 - 1, n) == (s + e) % n;
    }
  }

  /** Repeated `rotate(1)` from a visible item lands on a visible item every
      time and comes back to the start after exactly as many calls as there
      are visible items, and not before. */
  lemma WalkCycle(hidden: seq<bool>, s: int)
    requires 0 <= s < |hidden| && !hidden[s]
    ensures WalkN(hidden, s, VisibleCount(hidden)) == s
    ensures forall k :: 0 < k < VisibleCount(hidden) ==> WalkN(hidden, s, k) != s
    ensures forall k :: 0 <= k <= VisibleCount(hidden) ==> !hidden[WalkN(hidden, s, k)]
  {
    var n := |hidden|;
    var v := VisibleCount(hidden);
    VisibleAround(hidden, s);
    forall k | 0 <= k <= v
      ensures !hidden[WalkN(hidden, s, k)] && (0 < k < v ==> WalkN(hidden, s, k) != s)
    {
      var d := WalkNOffset(hidden, s, k);
      if 0 < k < v {
        if s + d < n {
          ModUnique(s + d, 0, s + d, n);
        } else {
          ModUnique(s + d, 1, s + d - n, n);
        }
      }
    }
    var d := WalkNOffset(hidden, s, v);
    ModUnique(s + n, 1, s, n);
    if d < n {
      VisibleAfterMono(hidden, s, d, n - 1);
      assert false;
    }
  }

  function Unhighlight(highlighted: seq<bool>, sel: int): (h: seq<bool>)
    requires -1 <= sel < |highlighted|
    ensures |h| == |highlighted|
    ensures forall i :: 0 <= i < |h| ==> h[i] == (highlighted[i] && i != sel)
  {
    if sel != -1 then highlighted[sel := false] else highlighted
  }

  /** A menu: per item whether it is hidden and whether it is shown
      highlighted, the selected index (-1 for none), the item count the
      source keeps beside the list, and the displays it requested. */
  class Menu {
    var hidden: seq<bool>
    var highlighted: seq<bool>
    var selected: int
    var numItems: int
    var log: seq<Effect>

    predicate Valid()
      reads this
    {
      |hidden| == numItems && |highlighted| == numItems
    }

    /** A menu holding the given items, none highlighted. */
    constructor (items: seq<bool>, selected: int)
      ensures Valid() && hidden == items && this.selected == selected && log == []
      ensures forall i :: 0 <= i < |highlighted| ==> !highlighted[i]
    {
      hidden := items;
      highlighted := seq(|items|, i => false);
      this.selected := selected;
      numItems := |items|;
      log := [];
    }

    /** `Menu::removeAllItems`: the list and the count are both emptied;
      the selection index is left as it was. */
    method RemoveAllItems()
      modifies this`hidden, this`highlighted, this`numItems
      ensures Valid() && hidden == [] && highlighted == [] && numItems == 0
    {
      hidden := [];
      highlighted := [];
      numItems := 0;
    }

    /** `Menu::rotate`. The source's loop ends only when some item is
      visible or there is a previous selection to come back to, so those
      are required. */
    method Rotate(delta: int)
      requires Valid() && numItems > 0 && -1 <= selected < numItems
      requires selected == -1 ==> exists i :: 0 <= i < numItems && !hidden[i]
      modifies this`selected, this`highlighted, this`log
      ensures Valid()
      ensures selected == Walk(hidden, old(selected), delta, 0)
      ensures highlighted == Unhighlight(old(highlighted), old(selected))[selected := true]
      ensures log == old(log) + [ReDisplay]
    {
      if selected != -1 {
        highlighted := highlighted[selected := false];
      }
      var previous := selected;
      var n := numItems;
      var sel, step, d0 := selected, delta, delta;
      ghost var j: int;
      if previous != -1 {
        j := previous;
      } else {
        j :| 0 <= j < n && !hidden[j];
      }
      ghost var hit := HitStep(previous, d0, j, n);
      ghost var k: nat := 0;
      ghost var h0 := highlighted;
      while true
        invariant highlighted == h0 && log == old(log)
        invariant k <= hit
        invariant step == if k == 0 then d0 else (if d0 < 0 then -1 else 1)
        invariant k > 0 ==> sel == Pos(previous, d0, k - 1, n)
        invariant k == 0 ==> sel == previous
        invariant Walk(hidden, previous, d0, 0) == Walk(hidden, previous, d0, k)
        decreases n - k
      {
        ghost var before := sel;
        sel := sel + step;
        sel := WrapIndex(sel, n);
        PosNext(previous, d0, k, n, before, step);
        if !hidden[sel] {
          break;
        }
        step := if step < 0 then -1 else 1;
        if sel == previous {
          break;
        }
        assert k != hit;
        k := k + 1;
      }
      selected := sel;
      highlighted := highlighted[selected := true];
      log := log + [ReDisplay];
    }
  }
}
