/** The vertical menu of the seven-inch display: items stacked in an area,
    equally high, and a touch in the area invoking the item under it. */
module VMenus {
  import opened CArith
  import opened Effects
  import opened Points
  import Areas

  /** Where `addItem` puts item `i`: on the area's vertical axis, in the
      area's centre-origin, y-up coordinates, the first item at the top and
      each next one an item height lower. */
  function ItemY(h: int, itemHeight: int, i: nat): int
  {
    if i == 0 then TDiv(h - itemHeight, 2) else ItemY(h, itemHeight, i - 1) - itemHeight
  }

  /** Item `i` is `i` item heights below the first. */
  lemma {:induction false} ItemYClosed(h: int, itemHeight: int, i: nat)
    ensures ItemY(h, itemHeight, i) == TDiv(h - itemHeight, 2) - i * itemHeight
  {
    if i > 0 {
      ItemYClosed(h, itemHeight, i - 1);
      MulSucc(i - 1, itemHeight);
    }
  }

  /** The item `is_touched` picks for a touch at row `y` of the area. */
  function TouchedItem(y: int, itemHeight: int): int
    requires itemHeight > 0
  {
    TDiv(y, itemHeight)
  }

  /** When the area's height is a multiple of the item count, every row of
      the area picks an existing item. */
  lemma TouchedItemInRange(h: int, n: int, y: int)
    requires n > 0 && h >= n && h % n == 0 && 0 <= y < h
    ensures 0 <= TouchedItem(y, h / n) < n
  {
    var ih := h / n;
    EuclidNat(h, n);
    assert h == ih * n;
    assert ih > 0;
    EuclidNat(y, ih);
    var q := y / ih;
    assert q * ih <= y;
    MulLtCancel(q, n, ih);
    assert TDiv(y, ih) == q;
  }

  /** Without that, the last rows pick one item past the end: ten rows,
      three items of height three, a touch on the last row. */
  lemma TouchedItemPastEnd()
    ensures 10 / 3 == 3 && TouchedItem(9, 10 / 3) == 3
  {
  }

  /** Touching an item where it is drawn invokes that item, once an item
      is at least two rows high. */
  lemma ItemCenterSelectsItem(h: int, n: int, i: nat)
    requires n > 0 && h >= 0 && h / n >= 2 && 0 <= i < n
    ensures var ih := h / n;
            var ly := TDiv(h, 2) - ItemY(h, ih, i);
            0 <= ly < h && TouchedItem(ly, ih) == i
  {
    var ih := h / n;
    EuclidNat(h, n);
    MulLeR(1, n, ih);
    HalfDifference(h, ih);
    var c := h / 2 - (h - ih) / 2;
    var ly := c + i * ih;
    ItemYClosed(h, ih, i);
    assert TDiv(h, 2) - ItemY(h, ih, i) == ly;
    MulSucc(i, ih);
    MulLeR(i + 1, n, ih);
    ModUnique(ly, i, c, ih);
  }

  /** The top item's offset from the top edge is less than one item. */
  lemma HalfDifference(h: int, ih: int)
    requires 2 <= ih <= h
    ensures TDiv(h, 2) == h / 2 && TDiv(h - ih, 2) == (h - ih) / 2
    ensures 0 <= h / 2 - (h - ih) / 2 < ih
  {
  }

  /** `VMenu`: its area, the items' height, the scene each item opens,
      their positions, and the items invoked by touches. */
  class VMenu {
    const area: Areas.Area
    var itemHeight: int
    var items: seq<SceneId>
    var positions: seq<Point>
    var invoked: seq<nat>

    predicate Valid()
      reads this
    {
      area.h >= 0 && |positions| == |items|
    }

    constructor (area: Areas.Area)
      requires area.h >= 0
      ensures Valid() && this.area == area && items == [] && positions == [] && invoked == []
    {
      this.area := area;
      itemHeight := 0;
      items := [];
      positions := [];
      invoked := [];
    }

    /** `addItem`: the item is appended, the height shared out among all
      items, and every item placed again from the top. */
    method AddItem(item: SceneId)
      requires Valid()
      modifies this`items, this`itemHeight, this`positions
      ensures Valid() && items == old(items) + [item]
      ensures itemHeight == area.h / |items|
      ensures forall i :: 0 <= i < |positions| ==> positions[i] == Point(0, ItemY(area.h, itemHeight, i))
    {
      items := items + [item];
      var h, ih := area.h, area.h / |items|;
      itemHeight := ih;
      var centerY := TDiv(h - ih, 2);
      var ps: seq<Point> := [];
      var i := 0;
      while i < |items|
        invariant 0 <= i <= |items| && |ps| == i
        invariant centerY == ItemY(h, ih, i)
        invariant forall j :: 0 <= j < i ==> ps[j] == Point(0, ItemY(h, ih, j))
      {
        ps := ps + [Point(0, centerY)];
        centerY := centerY - ih;
        i := i + 1;
      }
      positions := ps;
    }

    /** `is_touched`: outside the area nothing happens; inside, the item
      under the touch is invoked. The source indexes its items without a
      check, so the height must be a multiple of the item count. */
    method IsTouched(x: int, y: int) returns (touched: bool)
      requires Valid() && |items| > 0 && area.h >= |items| && area.h % |items| == 0
      requires itemHeight == area.h / |items|
      modifies this`invoked
      ensures touched <==> Areas.IsInside(area, Point(x, y), Point(0, 0)).0
      ensures !touched ==> invoked == old(invoked)
      ensures touched ==> invoked == old(invoked) + [TouchedItem(y - area.y, itemHeight)]
      ensures touched ==> TouchedItem(y - area.y, itemHeight) < |items|
    {
      var r := Areas.IsInside(area, Point(x, y), Point(0, 0));
      if !r.0 {
        return false;
      }
      var local := r.1;
      TouchedItemInRange(area.h, |items|, local.y);
      var itemNum := TDiv(local.y, itemHeight);
      invoked := invoked + [itemNum];
      return true;
    }
  }
}
