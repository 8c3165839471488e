/** The grid workspace switcher popup: the layout callbacks the host calls
    (preferred height, preferred width, allocate) and the redisplay that
    rebuilds the indicator list. Each method does its work step by step, as
    the popup does, and is proved against the specification functions of
    Sizing, Allocation and Indicators. */
module Popup {
  import opened Sizing
  import opened Allocation
  import opened Indicators

  class GridSwitcherPopup {
    /** Size of one workspace cell, set by the size negotiation. */
    var childWidth: real
    var childHeight: real
    /** Gap between adjacent cells, taken from the theme. */
    var itemSpacing: real
    /** The indicator list's children, one per workspace. */
    var list: seq<Indicator>

    constructor (spacing: real)
      ensures itemSpacing == spacing && childWidth == 0.0 && childHeight == 0.0 && list == []
    {
      itemSpacing := spacing;
      childWidth, childHeight := 0.0, 0.0;
      list := [];
    }

    /** The width request: derive the cell width from the current cell
        height, shrink both on horizontal overflow, report the width. */
    method GetPreferredWidth(monitor: Monitor, chrome: Chrome, ncols: nat) returns (alloc: SizeRequest)
      requires ValidMonitor(monitor) && ncols >= 1
      modifies this`childWidth, this`childHeight
      ensures var r := FitWidth(old(childHeight), itemSpacing, monitor, HorizontalPadding(chrome), ncols);
        childWidth == r.childWidth && childHeight == r.childHeight
        && alloc == SizeRequest(r.width, r.width)
    {
      ghost var r := FitWidth(childHeight, itemSpacing, monitor, HorizontalPadding(chrome), ncols);
      childWidth := childHeight * monitor.width / monitor.height;
      assert childWidth == TimesAspect(childHeight, monitor);
      var width := childWidth * (ncols as real) + itemSpacing * ((ncols - 1) as real);
      assert width == Extent(childWidth, itemSpacing, ncols);
      var padding := chrome.popup.horizontal + chrome.list.horizontal + chrome.container.horizontal;
      assert padding == HorizontalPadding(chrome);
      if width + padding > monitor.width {
        assert Overflows(childHeight, itemSpacing, monitor, padding, ncols);
        childWidth := (monitor.width - padding - itemSpacing * ((ncols - 1) as real)) / (ncols as real);
        childHeight := childWidth * monitor.height / monitor.width;
        width := monitor.width - padding;
      } else {
        assert !Overflows(childHeight, itemSpacing, monitor, padding, ncols);
      }
      assert childWidth == r.childWidth && childHeight == r.childHeight && width == r.width;
      alloc := SizeRequest(width, width);
    }

    /** The height request: sum the aspect-scaled natural heights of
        children 0, ncols, 2 * ncols, ... below the workspace count, add the
        row gaps, clamp to the available height, run the width
        pass, and on overflow recompute (and if need be clamp) the height.
        `naturalHeights[i]` is the natural height of the list's child `i`. */
    method GetPreferredHeight(monitor: Monitor, chrome: Chrome, nrows: nat, ncols: nat,
                              nWorkspaces: nat, naturalHeights: seq<real>) returns (alloc: SizeRequest)
      requires ValidMonitor(monitor) && nrows >= 1 && ncols >= 1
      requires nWorkspaces <= |naturalHeights|
      modifies this`childWidth, this`childHeight
      ensures var r := FitHeight(naturalHeights, nWorkspaces, nrows, ncols, itemSpacing, monitor, chrome);
        childWidth == r.childWidth && childHeight == r.childHeight
        && alloc == SizeRequest(r.height, r.height)
    {
      var spacing := itemSpacing * ((nrows - 1) as real);
      var availHeight, height := ClampedGridHeight(monitor, chrome, nrows, ncols, nWorkspaces, naturalHeights);
      childHeight := (height - spacing) / (nrows as real);

      // the width pass may shrink the cells
      var firstPass := childHeight;
      var ignored := GetPreferredWidth(monitor, chrome, ncols);
      height := ReconcileHeight(firstPass, height, availHeight, spacing, nrows);
      alloc := SizeRequest(height, height);
    }

    /** The first part of the height request: the available height (the
        monitor less the panel and the paddings) and the natural grid height
        (row heights plus gaps), clamped to the available height. */
    method ClampedGridHeight(monitor: Monitor, chrome: Chrome, nrows: nat, ncols: nat,
                             nWorkspaces: nat, naturalHeights: seq<real>) returns (availHeight: real, height: real)
      requires ValidMonitor(monitor) && nrows >= 1 && ncols >= 1
      requires nWorkspaces <= |naturalHeights|
      ensures availHeight == AvailHeight(monitor, chrome)
      ensures height == FirstPassHeight(naturalHeights, nWorkspaces, nrows, ncols, itemSpacing, monitor, chrome)
      ensures height <= availHeight
    {
      var spacing := itemSpacing * ((nrows - 1) as real);
      availHeight := monitor.height;
      availHeight := availHeight - chrome.panelHeight;
      availHeight := availHeight - chrome.popup.vertical;
      availHeight := availHeight - chrome.container.vertical;
      availHeight := availHeight - chrome.list.vertical;

      height := SumRowHeights(monitor, ncols, nWorkspaces, naturalHeights);
      height := height + spacing;
      height := if height < availHeight then height else availHeight;
    }

    /** The end of the height request: if the width pass changed the cell
        height, recompute the grid height from it and, should that exceed
        the available height, clamp the cell height. */
    method ReconcileHeight(firstPass: real, height: real, availHeight: real, spacing: real, nrows: nat)
      returns (newHeight: real)
      requires nrows >= 1
      modifies this`childHeight
      ensures HeightFit(childWidth, childHeight, newHeight)
              == Reconcile(firstPass, height, childWidth, old(childHeight), availHeight, spacing, nrows)
    {
      newHeight := height;
      if firstPass != childHeight {
        // the cells overflowed horizontally and the width pass shrank them
        newHeight := childHeight * (nrows as real) + spacing;
        if newHeight > availHeight {
          childHeight := (availHeight - spacing) / (nrows as real);
        }
      }
    }

    /** The loop of the height request: the aspect-scaled natural heights of
        children 0, ncols, 2 * ncols, ... below `nWorkspaces`, added up. */
    method SumRowHeights(monitor: Monitor, ncols: nat, nWorkspaces: nat, naturalHeights: seq<real>) returns (height: real)
      requires ValidMonitor(monitor) && ncols >= 1
      requires nWorkspaces <= |naturalHeights|
      ensures height == ScaledRowHeights(naturalHeights, nWorkspaces, ncols, 0, monitor)
    {
      height := 0.0;
      var i := 0;
      while i < nWorkspaces
        invariant height + ScaledRowHeights(naturalHeights, nWorkspaces, ncols, i, monitor)
                  == ScaledRowHeights(naturalHeights, nWorkspaces, ncols, 0, monitor)
        decreases nWorkspaces - i
      {
        height := height + naturalHeights[i] * monitor.width / monitor.height;
        i := i + ncols;
      }
    }

    /** The allocation: walk the grid row by row and hand each child its box.
        `boxes[i]` is the box given to the list's child `i`. */
    method Allocate(origin: Box, nrows: nat, ncols: nat) returns (boxes: seq<Box>)
      requires nrows * ncols <= |list|
      ensures |boxes| == nrows * ncols
      ensures forall i :: 0 <= i < |boxes| ==>
        boxes[i] == CellBox(origin, childWidth, childHeight, itemSpacing, ncols, i)
    {
      var childBox := Box(0.0, 0.0, 0.0, 0.0);
      var x, y := origin.x1, origin.y1;
      var prevX, prevY := x, y;
      var i := 0;
      boxes := [];
      var row := 0;
      while row < nrows
        invariant 0 <= row <= nrows
        invariant i == |boxes| == row * ncols
        invariant forall j :: 0 <= j < |boxes| ==>
          boxes[j] == CellBox(origin, childWidth, childHeight, itemSpacing, ncols, j)
        invariant y == Offset(origin.y1, childHeight, itemSpacing, row)
        invariant ncols > 0 ==> prevY == NearEdge(origin.y1, childHeight, itemSpacing, row)
      {
        x := origin.x1;
        prevX := x;
        ghost var rowStart := i;
        var col := 0;
        while col < ncols
          invariant 0 <= col <= ncols
          invariant i == |boxes| == rowStart + col
          invariant forall j :: 0 <= j < |boxes| ==>
            boxes[j] == CellBox(origin, childWidth, childHeight, itemSpacing, ncols, j)
          invariant x == Offset(origin.x1, childWidth, itemSpacing, col)
          invariant prevX == NearEdge(origin.x1, childWidth, itemSpacing, col)
          invariant col > 0 ==> childBox.y2 == FarEdge(origin.y1, childHeight, itemSpacing, row)
        {
          childBox := Box(prevX, prevY, Round(x + childWidth) as real, Round(y + childHeight) as real);
          CellAt(origin, childWidth, childHeight, itemSpacing, ncols, row, col);
          assert childBox.x2 == FarEdge(origin.x1, childWidth, itemSpacing, col);
          assert childBox.y2 == FarEdge(origin.y1, childHeight, itemSpacing, row);
          x := x + (childWidth + itemSpacing);
          prevX := childBox.x2 + itemSpacing;
          boxes := boxes + [childBox];
          i := i + 1;
          col := col + 1;
        }
        assert i == (row + 1) * ncols;
        prevY := childBox.y2 + itemSpacing;
        y := y + (childHeight + itemSpacing);
        row := row + 1;
      }
    }

    /** The redisplay: rebuild the list with one indicator per workspace. */
    method Redisplay(nWorkspaces: nat, active: int, direction: MotionDirection, showLabels: bool, name: nat -> string)
      modifies this`list
      ensures list == IndicatorList(nWorkspaces, active, direction, showLabels, name)
    {
      list := [];
      var i := 0;
      while i < nWorkspaces
        invariant 0 <= i <= nWorkspaces
        invariant list == IndicatorList(i, active, direction, showLabels, name)
      {
        var indicator := Indicator(IndicatorFor(i, active, direction), None);
        if showLabels {
          indicator := indicator.(labelText := Some(name(i)));
        }
        list := list + [indicator];
        i := i + 1;
      }
    }
  }
}
