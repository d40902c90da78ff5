/** The keyboard-selectable grid hook: items laid out in rows whose width
    depends on the window width, and a selection moved by the arrow keys,
    Enter, Backspace, select-all and clicks. An item is represented by its
    `_id`. */
module UseGrid {
  import opened Wrappers
  import opened Seqs

  /** A layout step: windows wider than `width` get `columns` columns. */
  datatype Threshold = Threshold(width: int, columns: int)

  /** The thresholds the hook uses when none are given. */
  const DefaultThresholds: seq<Threshold> := [Threshold(0, 1)]

  /** The row size lodash's `chunk` uses: a size below 1 gives no rows. */
  function ChunkSize(columns: int): (r: nat)
    ensures r >= 1 <==> columns >= 1
    ensures r >= 1 ==> r == columns
  {
    if columns < 1 then 0 else columns
  }

  datatype Layout = Layout(rows: seq<seq<string>>, threshold: Threshold)

  /** `getRows`: the first threshold the window is wider than, or the last
      one when there is none, and the items chunked by its column count.
      With no thresholds at all the source reads a field of `undefined` and
      throws; that is `None`. */
  method GetRows(items: seq<string>, thresholds: seq<Threshold>, windowWidth: int) returns (r: Option<Layout>)
    ensures r.Some? <==> thresholds != []
    ensures r.Some? ==> r.value.rows == Chunk(items, ChunkSize(r.value.threshold.columns))
    ensures r.Some? ==>
              exists i :: 0 <= i < |thresholds| && r.value.threshold == thresholds[i] &&
                (forall j :: 0 <= j < i ==> windowWidth <= thresholds[j].width) &&
                (windowWidth > thresholds[i].width || i == |thresholds| - 1)
  {
    if thresholds == [] {
      return None;
    }
    var threshold := thresholds[|thresholds| - 1];
    ghost var chosen := |thresholds| - 1;
    var i := 0;
    while i < |thresholds|
      invariant 0 <= i <= |thresholds|
      invariant forall j :: 0 <= j < i ==> windowWidth <= thresholds[j].width
      invariant chosen == |thresholds| - 1 && threshold == thresholds[chosen]
    {
      if windowWidth > thresholds[i].width {
        threshold := thresholds[i];
        chosen := i;
        break;
      }
      i := i + 1;
    }
    assert 0 <= chosen < |thresholds| && threshold == thresholds[chosen];
    assert forall j :: 0 <= j < chosen ==> windowWidth <= thresholds[j].width;
    return Some(Layout(Chunk(items, ChunkSize(threshold.columns)), threshold));
  }

  /** The search of `locateSelection` from row `i` on: the column and row of
      the first row holding `target`, or `(0, 0)`. */
  function SearchRows(rows: seq<seq<string>>, target: string, i: nat): (r: (int, int))
    requires i <= |rows|
    ensures r.0 >= 0 && r.1 >= 0
    ensures (forall k :: i <= k < |rows| ==> target !in rows[k]) ==> r == (0, 0)
    ensures (exists k :: i <= k < |rows| && target in rows[k]) ==>
              && i <= r.1 < |rows|
              && target in rows[r.1]
              && (forall k :: i <= k < r.1 ==> target !in rows[k])
              && r.0 == IndexOf(rows[r.1], target)
    decreases |rows| - i
  {
    if i == |rows| then (0, 0)
    else if target in rows[i] then (IndexOf(rows[i], target), i)
    else SearchRows(rows, target, i + 1)
  }

  /** Where `locateSelection` places the selection: `(x, y)` is the column
      and row of the first row holding the first selected id, and `(0, 0)`
      when nothing is selected or the id is in no row. */
  function Locate(items: seq<string>, selection: seq<string>, rows: seq<seq<string>>): (r: (int, int))
    ensures r.0 >= 0 && r.1 >= 0
    ensures |selection| == 0 ==> r == (0, 0)
    ensures |selection| > 0 && (forall k :: 0 <= k < |rows| ==> selection[0] !in rows[k]) ==> r == (0, 0)
    ensures |selection| > 0 && (exists k :: 0 <= k < |rows| && selection[0] in rows[k]) ==>
              && r.1 < |rows|
              && selection[0] in rows[r.1]
              && (forall k :: 0 <= k < r.1 ==> selection[0] !in rows[k])
              && r.0 == IndexOf(rows[r.1], selection[0])
  {
    if |selection| == 0 then (0, 0) else SearchRows(rows, selection[0], 0)
  }

  /** `locateSelection`, as the loop the source runs. With an empty
      selection `selection[0]` is `undefined`, which no row holds. */
  method LocateSelection(items: seq<string>, selection: seq<string>, rows: seq<seq<string>>) returns (x: int, y: int)
    ensures (x, y) == Locate(items, selection, rows)
  {
    if |selection| == 0 && |items| > 0 {
      return 0, 0;
    }
    x, y := 0, 0;
    var i := 0;
    while i < |rows|
      invariant 0 <= i <= |rows|
      invariant x == 0 && y == 0
      invariant |selection| > 0 ==> Locate(items, selection, rows) == SearchRows(rows, selection[0], i)
      invariant |selection| == 0 ==> Locate(items, selection, rows) == (0, 0)
    {
      var found := if |selection| == 0 then -1 else IndexOf(rows[i], selection[0]);
      if found >= 0 {
        x, y := found, i;
        break;
      }
      i := i + 1;
    }
  }

  /** JavaScript's `%`, whose result takes the sign of the dividend. */
  function JsRem(a: int, b: int): (r: int)
    requires b != 0
    ensures a >= 0 ==> r == a % (if b < 0 then -b else b)
    ensures a < 0 ==> r == -((-a) % (if b < 0 then -b else b))
  {
    var m := if b < 0 then -b else b;
    if a >= 0 then a % m else -((-a) % m)
  }

  function Max(a: int, b: int): int { if a >= b then a else b }
  function Min(a: int, b: int): int { if a <= b then a else b }

  /** The row Up moves to and the index it selects. */
  function UpRow(y: int): (r: int)
    ensures r >= 0
    ensures y >= 1 ==> r == y - 1
  {
    Max(0, y - 1)
  }

  function UpIndex(columns: int, x: int, y: int): int { columns * UpRow(y) + x }

  /** The row Down moves to and the index it selects. */
  function DownRow(rowCount: int, y: int): (r: int)
    ensures r <= rowCount - 1
    ensures y + 1 <= rowCount - 1 ==> r == y + 1
  {
    Min(rowCount - 1, y + 1)
  }

  function DownIndex(itemCount: int, columns: int, x: int, y: int, rowCount: int): (r: int)
    ensures r <= itemCount - 1
  {
    Min(itemCount - 1, columns * DownRow(rowCount, y) + x)
  }

  /** The index Left selects, through JavaScript's `%`. */
  function LeftIndex(columns: int, x: int, y: int): (r: int)
    requires columns != 0
    ensures r >= 0
  {
    var newX := JsRem(x - 1, columns);
    var newY := if newX == columns - 1 then y - 1 else y;
    Max(0, columns * newY + newX)
  }

  /** The index Right selects. */
  function RightIndex(itemCount: int, columns: int, x: int, y: int): (r: int)
    requires columns != 0
    ensures r <= itemCount - 1
  {
    var newX := JsRem(x + 1, columns);
    var newY := if newX == 0 then y + 1 else y;
    Min(itemCount - 1, columns * newY + newX)
  }

  /** `lodash.without(selection, id)`. */
  function Without(selection: seq<string>, id: string): (r: seq<string>)
    ensures forall s :: s in r <==> s in selection && s != id
    ensures forall s :: multiset(r)[s] == if s == id then 0 else multiset(selection)[s]
    ensures IsSubseq(r, selection)
  {
    var keep := s => s != id;
    FilterIsSubseq(selection, keep);
    assert forall s :: multiset(Filter(selection, keep))[s] == if s == id then 0 else multiset(selection)[s] by {
      forall s
        ensures multiset(Filter(selection, keep))[s] == if s == id then 0 else multiset(selection)[s]
      {
        FilterMultiset(selection, keep, s);
      }
    }
    Filter(selection, keep)
  }

  /** What a meta-click does to the selection. */
  function Toggle(selection: seq<string>, id: string): (r: seq<string>)
    ensures id in r <==> id !in selection
    ensures forall s :: s != id ==> (s in r <==> s in selection)
  {
    if id in selection then Without(selection, id) else selection + [id]
  }

  /** Meta-clicking an unselected item twice restores the selection. */
  lemma ToggleTwice(selection: seq<string>, id: string)
    requires id !in selection
    ensures Toggle(Toggle(selection, id), id) == selection
  {
    assert id in selection + [id];
    FilterConcat(selection, [id], s => s != id);
    FilterAll(selection, s => s != id);
    assert Filter([id], s => s != id) == [];
  }

  /** In a grid chunked from non-empty items, the located position is a
      cell of the grid, and a found selection is the item at that cell. */
  lemma LocateInGrid(items: seq<string>, selection: seq<string>, columns: int)
    requires columns >= 1 && |items| > 0
    ensures var rows := Chunk(items, columns);
            var p := Locate(items, selection, rows);
            && 0 <= p.1 < |rows| && 0 <= p.0 < |rows[p.1]| && p.0 < columns
            && columns * p.1 + p.0 < |items|
            && (|selection| > 0 && selection[0] in items ==> items[columns * p.1 + p.0] == selection[0])
  {
    var rows := Chunk(items, columns);
    var p := Locate(items, selection, rows);
    var x, y := p.0, p.1;
    ChunkEmpty(items, columns);
    ChunkRowSizes(items, columns);
    var found := |selection| > 0 && exists k :: 0 <= k < |rows| && selection[0] in rows[k];
    if found {
      assert y < |rows| && selection[0] in rows[y] && x == IndexOf(rows[y], selection[0]);
      assert rows[y][x] == selection[0];
    } else {
      assert p == (0, 0);
      assert |rows[0]| >= 1;
    }
    assert 0 <= y < |rows| && 0 <= x < |rows[y]| && |rows[y]| <= columns;
    ChunkIndex(items, columns, y, x);
    assert columns * y == y * columns;
    if |selection| > 0 && selection[0] in items {
      ChunkHolds(items, columns, selection[0]);
    }
  }

  /** Every item lies in some row of the chunked grid. */
  lemma ChunkHolds(items: seq<string>, columns: int, v: string)
    requires columns >= 1 && v in items
    ensures exists k :: 0 <= k < |Chunk(items, columns)| && v in Chunk(items, columns)[k]
  {
    var i :| 0 <= i < |items| && items[i] == v;
    ChunkAt(items, columns, i);
    assert v in Chunk(items, columns)[i / columns];
  }

  /** Up from a cell of a chunked grid stays inside the items and, below the
      first row, selects the cell directly above. */
  lemma UpInGrid(items: seq<string>, columns: int, x: int, y: int)
    requires columns >= 1 && 0 <= x < columns && 0 <= y && columns * y + x < |items|
    ensures 0 <= UpIndex(columns, x, y) < |items|
    ensures y > 0 ==> var rows := Chunk(items, columns);
              y - 1 < |rows| && x < |rows[y - 1]| && items[UpIndex(columns, x, y)] == rows[y - 1][x]
  {
    if y > 0 {
      var i := columns * (y - 1) + x;
      assert i == (y - 1) * columns + x;
      assert columns * (y - 1) == columns * y - columns;
      assert 0 <= i < |items| by {
        MulAtLeast(y, columns);
        assert (y - 1) * columns >= 0;
      }
      ChunkAt(items, columns, i);
      DivModUnique(i, columns, y - 1, x);
    }
  }

  /** Down never leaves the items when there is at least one row. */
  lemma DownInGrid(itemCount: int, columns: int, x: int, y: int, rowCount: int)
    requires columns >= 1 && 0 <= x && 0 <= y && rowCount >= 1 && itemCount >= 1
    ensures 0 <= DownIndex(itemCount, columns, x, y, rowCount) < itemCount
  {
    assert DownRow(rowCount, y) >= 0;
    assert columns * DownRow(rowCount, y) >= 0;
  }

  /** Left selects the previous item in reading order, and the first item
      stays put. JavaScript's `(0 - 1) % c` is `-1` (or `-0` when `c` is 1),
      which is what makes this hold. */
  lemma LeftIsPrevious(columns: int, x: int, y: int)
    requires columns >= 1 && 0 <= x < columns
    ensures LeftIndex(columns, x, y) == Max(0, columns * y + x - 1)
  {
    if x >= 1 {
      DivModUnique(x - 1, columns, 0, x - 1);
      assert JsRem(x - 1, columns) == x - 1;
    } else if columns == 1 {
      assert JsRem(-1, 1) == 0;
      assert columns * (y - 1) == columns * y - 1;
    } else {
      DivModUnique(1, columns, 0, 1);
      assert JsRem(-1, columns) == -1;
    }
  }

  /** Right selects the next item in reading order, and the last item stays
      put. */
  lemma RightIsNext(itemCount: int, columns: int, x: int, y: int)
    requires columns >= 1 && 0 <= x < columns
    ensures RightIndex(itemCount, columns, x, y) == Min(itemCount - 1, columns * y + x + 1)
  {
    if x + 1 < columns {
      DivModUnique(x + 1, columns, 0, x + 1);
      assert JsRem(x + 1, columns) == x + 1;
    } else {
      DivModUnique(columns, columns, 1, 0);
      assert JsRem(x + 1, columns) == 0;
      assert columns * (y + 1) == columns * y + columns;
    }
  }

  /** The hook's state. `rows` and `threshold` are what the last layout
      computed; the hook recomputes them after every change of `items`
      (`SetItems`) and on every window resize.

      The key handlers are closures that an effect with dependencies
      `[items, rows, selection]` binds again whenever one of those changes.
      They read the `hasFocus` of the render in which they were bound, kept
      here as `boundFocus`. Every `setSelection` passes a new array and every
      layout a new `rows` array, so `boundFocus` catches up with `hasFocus`
      exactly at those points; focusing alone does not rebind the handlers. */
  class Grid {
    var items: seq<string>
    var thresholds: seq<Threshold>
    var hasFocus: bool
    var boundFocus: bool
    var selection: seq<string>
    var rows: seq<seq<string>>
    var threshold: Threshold

    ghost predicate Valid()
      reads this
    {
      thresholds != []
    }

    /** The rows are the items chunked by the current column count. */
    ghost predicate LaidOut()
      reads this
    {
      rows == Chunk(items, ChunkSize(threshold.columns))
    }

    /** The hook's first render: no focus, the initial selection, no rows
        yet, and the first threshold. */
    constructor(items: seq<string>, thresholds: seq<Threshold>, initialSelection: seq<string>)
      requires thresholds != []
      ensures Valid()
      ensures this.items == items && this.thresholds == thresholds
      ensures !hasFocus && !boundFocus && selection == initialSelection && rows == [] && threshold == thresholds[0]
    {
      this.items := items;
      this.thresholds := thresholds;
      hasFocus := false;
      boundFocus := false;
      selection := initialSelection;
      rows := [];
      threshold := thresholds[0];
    }

    /** `recompute`: lay the items out for the given window width. */
    method Recompute(windowWidth: int)
      requires Valid()
      modifies this
      ensures Valid() && LaidOut()
      ensures items == old(items) && thresholds == old(thresholds)
      ensures hasFocus == old(hasFocus) && selection == old(selection)
      ensures boundFocus == hasFocus
      ensures exists i :: 0 <= i < |thresholds| && threshold == thresholds[i] &&
                (forall j :: 0 <= j < i ==> windowWidth <= thresholds[j].width) &&
                (windowWidth > thresholds[i].width || i == |thresholds| - 1)
    {
      var layout := GetRows(items, thresholds, windowWidth);
      rows := layout.value.rows;
      threshold := layout.value.threshold;
      boundFocus := hasFocus;
    }

    /** A new `items` prop: the `[items]` effect lays the new items out, and
        the key handlers, which depend on `items`, are bound again.
        Selection and focus are hook state and survive the change. */
    method SetItems(newItems: seq<string>, windowWidth: int)
      requires Valid()
      modifies this
      ensures Valid() && LaidOut()
      ensures items == newItems && thresholds == old(thresholds)
      ensures hasFocus == old(hasFocus) && selection == old(selection)
      ensures boundFocus == hasFocus
      ensures exists i :: 0 <= i < |thresholds| && threshold == thresholds[i] &&
                (forall j :: 0 <= j < i ==> windowWidth <= thresholds[j].width) &&
                (windowWidth > thresholds[i].width || i == |thresholds| - 1)
    {
      items := newItems;
      Recompute(windowWidth);
    }

    /** Up: move one row up, reporting a top overflow at column `x` when
        already on the first row. `ok` is false when the target index has no
        item: the source then throws reading its `_id`, and the selection
        stays. */
    method OnUp() returns (topOverflow: Option<int>, ok: bool)
      modifies this
      ensures items == old(items) && thresholds == old(thresholds) && hasFocus == old(hasFocus)
      ensures rows == old(rows) && threshold == old(threshold)
      ensures boundFocus == if old(boundFocus) && ok then hasFocus else old(boundFocus)
      ensures !old(boundFocus) ==> selection == old(selection) && topOverflow.None? && ok
      ensures old(boundFocus) ==>
                var p := Locate(items, old(selection), rows);
                var index := UpIndex(threshold.columns, p.0, p.1);
                && (topOverflow.Some? <==> p.1 == 0)
                && (topOverflow.Some? ==> topOverflow.value == p.0)
                && (ok <==> 0 <= index < |items|)
                && selection == (if ok then [items[index]] else old(selection))
    {
      if !boundFocus {
        return None, true;
      }
      var x, y := LocateSelection(items, selection, rows);
      var newY := Max(0, y - 1);
      topOverflow := if y == newY then Some(x) else None;
      var index := threshold.columns * newY + x;
      ok := 0 <= index < |items|;
      if ok {
        selection := [items[index]];
        boundFocus := hasFocus;
      }
    }

    /** Down: move one row down, reporting a bottom overflow at column `x`
        when already on the last row; the index is capped at the last
        item. */
    method OnDown() returns (bottomOverflow: Option<int>, ok: bool)
      modifies this
      ensures items == old(items) && thresholds == old(thresholds) && hasFocus == old(hasFocus)
      ensures rows == old(rows) && threshold == old(threshold)
      ensures boundFocus == if old(boundFocus) && ok then hasFocus else old(boundFocus)
      ensures !old(boundFocus) ==> selection == old(selection) && bottomOverflow.None? && ok
      ensures old(boundFocus) ==>
                var p := Locate(items, old(selection), rows);
                var index := DownIndex(|items|, threshold.columns, p.0, p.1, |rows|);
                && (bottomOverflow.Some? <==> p.1 == DownRow(|rows|, p.1))
                && (bottomOverflow.Some? ==> bottomOverflow.value == p.0)
                && (ok <==> 0 <= index < |items|)
                && selection == (if ok then [items[index]] else old(selection))
    {
      if !boundFocus {
        return None, true;
      }
      var x, y := LocateSelection(items, selection, rows);
      var newY := Min(|rows| - 1, y + 1);
      bottomOverflow := if y == newY then Some(x) else None;
      var index := Min(|items| - 1, threshold.columns * newY + x);
      ok := 0 <= index < |items|;
      if ok {
        selection := [items[index]];
        boundFocus := hasFocus;
      }
    }

    /** Left: the previous item in reading order. With zero columns the
        source computes `NaN` and throws. */
    method OnLeft() returns (ok: bool)
      modifies this
      ensures items == old(items) && thresholds == old(thresholds) && hasFocus == old(hasFocus)
      ensures rows == old(rows) && threshold == old(threshold)
      ensures boundFocus == if old(boundFocus) && ok then hasFocus else old(boundFocus)
      ensures !old(boundFocus) ==> selection == old(selection) && ok
      ensures old(boundFocus) ==>
                var p := Locate(items, old(selection), rows);
                && (ok <==> threshold.columns != 0 && 0 <= LeftIndex(threshold.columns, p.0, p.1) < |items|)
                && selection == (if ok then [items[LeftIndex(threshold.columns, p.0, p.1)]] else old(selection))
    {
      if !boundFocus {
        return true;
      }
      var x, y := LocateSelection(items, selection, rows);
      if threshold.columns == 0 {
        return false;
      }
      var newX := JsRem(x - 1, threshold.columns);
      var newY := if newX == threshold.columns - 1 then y - 1 else y;
      var index := Max(0, threshold.columns * newY + newX);
      ok := 0 <= index < |items|;
      if ok {
        selection := [items[index]];
        boundFocus := hasFocus;
      }
    }

    /** Right: the next item in reading order, capped at the last item. */
    method OnRight() returns (ok: bool)
      modifies this
      ensures items == old(items) && thresholds == old(thresholds) && hasFocus == old(hasFocus)
      ensures rows == old(rows) && threshold == old(threshold)
      ensures boundFocus == if old(boundFocus) && ok then hasFocus else old(boundFocus)
      ensures !old(boundFocus) ==> selection == old(selection) && ok
      ensures old(boundFocus) ==>
                var p := Locate(items, old(selection), rows);
                && (ok <==> threshold.columns != 0 && 0 <= RightIndex(|items|, threshold.columns, p.0, p.1) < |items|)
                && selection == (if ok then [items[RightIndex(|items|, threshold.columns, p.0, p.1)]] else old(selection))
    {
      if !boundFocus {
        return true;
      }
      var x, y := LocateSelection(items, selection, rows);
      if threshold.columns == 0 {
        return false;
      }
      var newX := JsRem(x + 1, threshold.columns);
      var newY := if newX == 0 then y + 1 else y;
      var index := Min(|items| - 1, threshold.columns * newY + newX);
      ok := 0 <= index < |items|;
      if ok {
        selection := [items[index]];
        boundFocus := hasFocus;
      }
    }

    /** Enter: the selection handed to the `onEnter` callback, if the
        handlers were bound while focused. */
    method OnEnter() returns (handed: Option<seq<string>>)
      ensures handed == if boundFocus then Some(selection) else None
    {
      handed := if boundFocus then Some(selection) else None;
    }

    /** Backspace: the selection handed to the `onBackspace` callback, if
        the handlers were bound while focused. */
    method OnBackspace() returns (handed: Option<seq<string>>)
      ensures handed == if boundFocus then Some(selection) else None
    {
      handed := if boundFocus then Some(selection) else None;
    }

    /** Select all: every item, if the handlers were bound while focused. */
    method OnAll()
      modifies this
      ensures items == old(items) && thresholds == old(thresholds) && hasFocus == old(hasFocus)
      ensures rows == old(rows) && threshold == old(threshold)
      ensures boundFocus == if old(boundFocus) then hasFocus else old(boundFocus)
      ensures selection == if old(boundFocus) then items else old(selection)
    {
      if boundFocus {
        selection := items;
        boundFocus := hasFocus;
      }
    }

    /** A click focuses the grid; a meta-click toggles the item in the
        selection, a plain click selects only it. */
    method OnItemClick(id: string, metaKey: bool)
      modifies this
      ensures items == old(items) && thresholds == old(thresholds)
      ensures rows == old(rows) && threshold == old(threshold)
      ensures hasFocus && boundFocus
      ensures metaKey ==> selection == Toggle(old(selection), id)
      ensures !metaKey ==> selection == [id]
    {
      hasFocus := true;
      boundFocus := true;
      if metaKey {
        if IndexOf(selection, id) > -1 {
          selection := Without(selection, id);
        } else {
          selection := selection + [id];
        }
        return;
      }
      selection := [id];
    }

    /** `requestFocus`: focus the grid and select the first item when it has
        a non-empty id. */
    method RequestFocus()
      modifies this
      ensures items == old(items) && thresholds == old(thresholds)
      ensures rows == old(rows) && threshold == old(threshold)
      ensures hasFocus
      ensures selection == if |items| > 0 && items[0] != "" then [items[0]] else old(selection)
      ensures boundFocus == if |items| > 0 && items[0] != "" then true else old(boundFocus)
    {
      hasFocus := true;
      if |items| > 0 && items[0] != "" {
        selection := [items[0]];
        boundFocus := true;
      }
    }
  }

  /** In a laid-out grid with items and at least one column, no arrow key
      throws: every handler's target index names an item. */
  lemma ArrowsStayInGrid(items: seq<string>, selection: seq<string>, columns: int)
    requires columns >= 1 && |items| > 0
    ensures var rows := Chunk(items, columns);
            var p := Locate(items, selection, rows);
            && 0 <= UpIndex(columns, p.0, p.1) < |items|
            && 0 <= DownIndex(|items|, columns, p.0, p.1, |rows|) < |items|
            && 0 <= LeftIndex(columns, p.0, p.1) < |items|
            && 0 <= RightIndex(|items|, columns, p.0, p.1) < |items|
  {
    var rows := Chunk(items, columns);
    var p := Locate(items, selection, rows);
    LocateInGrid(items, selection, columns);
    CellTargetsInRange(|items|, columns, p.0, p.1, |rows|);
  }

  /** The arithmetic behind the arrow keys: from any cell before the end of
      the items, every target index names an item. */
  lemma CellTargetsInRange(itemCount: int, columns: int, x: int, y: int, rowCount: int)
    requires columns >= 1 && 0 <= x < columns && 0 <= y < rowCount && columns * y + x < itemCount
    ensures 0 <= UpIndex(columns, x, y) < itemCount
    ensures 0 <= DownIndex(itemCount, columns, x, y, rowCount) < itemCount
    ensures 0 <= LeftIndex(columns, x, y) < itemCount
    ensures 0 <= RightIndex(itemCount, columns, x, y) < itemCount
  {
    UpBound(itemCount, columns, x, y);
    MulNonNegative(columns, y);
    DownInGrid(itemCount, columns, x, y, rowCount);
    LeftIsPrevious(columns, x, y);
    RightIsNext(itemCount, columns, x, y);
  }

  lemma UpBound(itemCount: int, columns: int, x: int, y: int)
    requires columns >= 1 && 0 <= x && 0 <= y && columns * y + x < itemCount
    ensures 0 <= UpIndex(columns, x, y) < itemCount
  {
    if y > 0 {
      MulNonNegative(columns, y - 1);
      assert columns * (y - 1) == columns * y - columns;
    }
  }

  lemma MulNonNegative(a: int, b: int)
    requires a >= 0 && b >= 0
    ensures a * b >= 0
  {
  }
}
