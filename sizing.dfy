/** Two-pass size negotiation of the grid workspace switcher popup.
    The popup fits `rows x columns` workspace cells onto the primary monitor:
    the height is fixed first, then the width is checked for overflow, and on
    overflow the cells shrink while keeping the monitor's aspect ratio.
    All pixel arithmetic is over exact reals. */
module Sizing {

  /** The primary monitor's size in pixels. */
  datatype Monitor = Monitor(width: real, height: real)

  /** Vertical and horizontal padding of one themed actor. */
  datatype Padding = Padding(vertical: real, horizontal: real)

  /** What the host reserves around the grid: the top panel's height and the
      theme paddings of the popup actor, its container and the indicator list. */
  datatype Chrome = Chrome(panelHeight: real, popup: Padding, container: Padding, list: Padding)

  /** The min/natural pair a preferred-size request writes into its out-object. */
  datatype SizeRequest = SizeRequest(minSize: real, naturalSize: real)

  /** Outcome of the width pass: the new cell size and the reported width. */
  datatype WidthFit = WidthFit(childWidth: real, childHeight: real, width: real)

  /** Outcome of the height pass: the new cell size and the reported height. */
  datatype HeightFit = HeightFit(childWidth: real, childHeight: real, height: real)

  predicate ValidMonitor(m: Monitor)
  {
    m.width > 0.0 && m.height > 0.0
  }

  function Min(a: real, b: real): real
  {
    if a < b then a else b
  }

  /** Height left for the grid once the panel and the three vertical paddings are taken off. */
  function AvailHeight(m: Monitor, c: Chrome): real
  {
    m.height - c.panelHeight - c.popup.vertical - c.container.vertical - c.list.vertical
  }

  /** Sum of the three horizontal paddings. */
  function HorizontalPadding(c: Chrome): real
  {
    c.popup.horizontal + c.list.horizontal + c.container.horizontal
  }

  /** The gaps between `n` cells in one line. */
  function Gaps(spacing: real, n: nat): real
  {
    spacing * ((n - 1) as real)
  }

  /** Length of a line of `n` cells of size `cell` separated by `spacing`. */
  function Extent(cell: real, spacing: real, n: nat): real
  {
    cell * (n as real) + Gaps(spacing, n)
  }

  /** `v` scaled by the monitor's width/height ratio. */
  function TimesAspect(v: real, m: Monitor): real
    requires ValidMonitor(m)
  {
    v * m.width / m.height
  }

  /** Sum of the aspect-scaled natural heights of cells `from`,
      `from + ncols`, `from + 2 * ncols`, ... below the workspace count `n`. */
  function ScaledRowHeights(heights: seq<real>, n: nat, ncols: nat, from: nat, m: Monitor): real
    requires ncols >= 1 && n <= |heights| && ValidMonitor(m)
    decreases n - from
  {
    if from >= n then 0.0
    else TimesAspect(heights[from], m) + ScaledRowHeights(heights, n, ncols, from + ncols, m)
  }

  /** True when a row of cells of height `childHeight` (and the matching
      aspect-ratio width), plus padding, is wider than the monitor. */
  predicate Overflows(childHeight: real, spacing: real, m: Monitor, padding: real, ncols: nat)
    requires ValidMonitor(m)
  {
    Extent(TimesAspect(childHeight, m), spacing, ncols) + padding > m.width
  }

  /** The width pass: derive the cell width from the cell height; on overflow
      shrink both so that the row exactly fills the monitor minus padding. */
  function FitWidth(childHeight: real, spacing: real, m: Monitor, padding: real, ncols: nat): (r: WidthFit)
    requires ValidMonitor(m) && ncols >= 1
    ensures r.childWidth * m.height == r.childHeight * m.width
    ensures r.width == Extent(r.childWidth, spacing, ncols)
    ensures r.width + padding <= m.width
  {
    if Overflows(childHeight, spacing, m, padding, ncols) then
      var shrunk := (m.width - padding - Gaps(spacing, ncols)) / (ncols as real);
      WidthFit(shrunk, shrunk * m.height / m.width, m.width - padding)
    else
      var childWidth := TimesAspect(childHeight, m);
      WidthFit(childWidth, childHeight, Extent(childWidth, spacing, ncols))
  }

  /** Height of the grid at the cells' natural sizes, gaps included. */
  function NaturalHeight(heights: seq<real>, n: nat, nrows: nat, ncols: nat, spacing: real, m: Monitor): real
    requires ncols >= 1 && n <= |heights| && ValidMonitor(m)
  {
    ScaledRowHeights(heights, n, ncols, 0, m) + Gaps(spacing, nrows)
  }

  /** The grid's height before the width is checked: the natural height,
      clamped to the available height. */
  function FirstPassHeight(heights: seq<real>, n: nat, nrows: nat, ncols: nat, spacing: real, m: Monitor, c: Chrome): real
    requires ncols >= 1 && n <= |heights| && ValidMonitor(m)
  {
    Min(NaturalHeight(heights, n, nrows, ncols, spacing, m), AvailHeight(m, c))
  }

  /** The cell height chosen before the width is checked. */
  function FirstPassChildHeight(heights: seq<real>, n: nat, nrows: nat, ncols: nat, spacing: real, m: Monitor, c: Chrome): real
    requires nrows >= 1 && ncols >= 1 && n <= |heights| && ValidMonitor(m)
  {
    (FirstPassHeight(heights, n, nrows, ncols, spacing, m, c) - Gaps(spacing, nrows)) / (nrows as real)
  }

  /** The end of the height pass. `firstPass` is the first-pass cell height
      and `firstHeight` the first-pass grid height; `childWidth` and
      `childHeight` are the cell size the width pass made of `firstPass`.
      When the width pass changed the cell height, the grid height is
      recomputed from the new cell height and, should it exceed the available
      height, the cell height alone is clamped (the cell width and the
      reported height are left as they are). */
  function Reconcile(firstPass: real, firstHeight: real, childWidth: real, childHeight: real,
                     avail: real, gaps: real, nrows: nat): HeightFit
    requires nrows >= 1
  {
    if firstPass != childHeight then
      var recomputed := childHeight * (nrows as real) + gaps;
      var clamped := if recomputed > avail then (avail - gaps) / (nrows as real) else childHeight;
      HeightFit(childWidth, clamped, recomputed)
    else
      HeightFit(childWidth, childHeight, firstHeight)
  }

  /** The height pass, including the width pass it runs and the final clamp. */
  function FitHeight(heights: seq<real>, n: nat, nrows: nat, ncols: nat, spacing: real, m: Monitor, c: Chrome): (r: HeightFit)
    requires nrows >= 1 && ncols >= 1 && n <= |heights| && ValidMonitor(m)
  {
    var childHeight := FirstPassChildHeight(heights, n, nrows, ncols, spacing, m, c);
    var w := FitWidth(childHeight, spacing, m, HorizontalPadding(c), ncols);
    Reconcile(childHeight, FirstPassHeight(heights, n, nrows, ncols, spacing, m, c),
              w.childWidth, w.childHeight, AvailHeight(m, c), Gaps(spacing, nrows), nrows)
  }

  // ---------------------------------------------------------------------------
  // Properties of the width pass

  /** The two outcomes of the width pass. Without overflow the cell height is
      kept and the width follows the aspect ratio; with overflow the reported
      width is exactly the monitor width minus padding and both cell sizes
      strictly shrink. The cell height changes exactly when the row overflows. */
  lemma FitWidthOutcomes(childHeight: real, spacing: real, m: Monitor, padding: real, ncols: nat)
    requires ValidMonitor(m) && ncols >= 1
    ensures var r := FitWidth(childHeight, spacing, m, padding, ncols);
      && (!Overflows(childHeight, spacing, m, padding, ncols) ==>
            r.childHeight == childHeight && r.childWidth == TimesAspect(childHeight, m))
      && (Overflows(childHeight, spacing, m, padding, ncols) ==>
            r.width == m.width - padding
            && r.childWidth < TimesAspect(childHeight, m)
            && r.childHeight < childHeight)
      && (r.childHeight != childHeight <==> Overflows(childHeight, spacing, m, padding, ncols))
  {
    if Overflows(childHeight, spacing, m, padding, ncols) {
      ShrinkIsSmaller(childHeight, spacing, m, padding, ncols);
    }
  }

  /** On overflow the shrunk cell width is below the aspect-ratio width, and
      hence the shrunk height below the original height. */
  lemma ShrinkIsSmaller(childHeight: real, spacing: real, m: Monitor, padding: real, ncols: nat)
    requires ValidMonitor(m) && ncols >= 1
    requires Overflows(childHeight, spacing, m, padding, ncols)
    ensures FitWidth(childHeight, spacing, m, padding, ncols).childWidth < TimesAspect(childHeight, m)
    ensures FitWidth(childHeight, spacing, m, padding, ncols).childHeight < childHeight
  {
    var n := ncols as real;
    var wide := TimesAspect(childHeight, m);
    var shrunk := (m.width - padding - Gaps(spacing, ncols)) / n;
    assert wide * n > m.width - padding - Gaps(spacing, ncols);
    assert shrunk * n == m.width - padding - Gaps(spacing, ncols);
    assert shrunk < wide;
    assert shrunk * m.height < wide * m.height;
    assert wide * m.height == childHeight * m.width;
    assert shrunk * m.height / m.width < childHeight;
  }

  /** Running the width pass again on its own result changes nothing: the
      layout it reaches is a fixed point. */
  lemma FitWidthIdempotent(childHeight: real, spacing: real, m: Monitor, padding: real, ncols: nat)
    requires ValidMonitor(m) && ncols >= 1
    ensures var r := FitWidth(childHeight, spacing, m, padding, ncols);
      FitWidth(r.childHeight, spacing, m, padding, ncols) == r
  {
    var r := FitWidth(childHeight, spacing, m, padding, ncols);
    assert TimesAspect(r.childHeight, m) == r.childWidth;
    assert !Overflows(r.childHeight, spacing, m, padding, ncols);
  }

  // ---------------------------------------------------------------------------
  // Properties of the height pass

  /** Before the width check the grid's height is the natural height or the
      available height, whichever is smaller, so the first-pass cells fit. */
  lemma FirstPassFits(heights: seq<real>, n: nat, nrows: nat, ncols: nat, spacing: real, m: Monitor, c: Chrome)
    requires nrows >= 1 && ncols >= 1 && n <= |heights| && ValidMonitor(m)
    ensures var ch := FirstPassChildHeight(heights, n, nrows, ncols, spacing, m, c);
      && Extent(ch, spacing, nrows) == FirstPassHeight(heights, n, nrows, ncols, spacing, m, c)
      && FirstPassHeight(heights, n, nrows, ncols, spacing, m, c) == Min(NaturalHeight(heights, n, nrows, ncols, spacing, m), AvailHeight(m, c))
      && Extent(ch, spacing, nrows) <= AvailHeight(m, c)
  {
    var h := FirstPassHeight(heights, n, nrows, ncols, spacing, m, c);
    var ch := FirstPassChildHeight(heights, n, nrows, ncols, spacing, m, c);
    assert ch * (nrows as real) == h - Gaps(spacing, nrows);
  }

  /** A line of cells grows strictly with the cell size. */
  lemma ExtentMonotone(smaller: real, larger: real, spacing: real, n: nat)
    requires smaller < larger && n >= 1
    ensures Extent(smaller, spacing, n) < Extent(larger, spacing, n)
  {
    var k := n as real;
    assert larger * k - smaller * k == (larger - smaller) * k;
    assert (larger - smaller) * k > 0.0;
  }

  /** Over exact reals the final height clamp never fires: when the width pass
      changed the cell height it made it strictly smaller, so the recomputed
      grid height is strictly below the first-pass height, which already fits. */
  lemma HeightClampNeverFires(heights: seq<real>, n: nat, nrows: nat, ncols: nat, spacing: real, m: Monitor, c: Chrome)
    requires nrows >= 1 && ncols >= 1 && n <= |heights| && ValidMonitor(m)
    ensures var ch := FirstPassChildHeight(heights, n, nrows, ncols, spacing, m, c);
      var w := FitWidth(ch, spacing, m, HorizontalPadding(c), ncols);
      ch != w.childHeight ==>
        Extent(w.childHeight, spacing, nrows) < Extent(ch, spacing, nrows) <= AvailHeight(m, c)
  {
    var ch := FirstPassChildHeight(heights, n, nrows, ncols, spacing, m, c);
    var w := FitWidth(ch, spacing, m, HorizontalPadding(c), ncols);
    FirstPassFits(heights, n, nrows, ncols, spacing, m, c);
    if ch != w.childHeight {
      FitWidthOutcomes(ch, spacing, m, HorizontalPadding(c), ncols);
      ExtentMonotone(w.childHeight, ch, spacing, nrows);
    }
  }

  /** The height pass ends with the cells the width pass made of the
      first-pass cell height, and reports the height of a column of them. */
  lemma FitHeightCells(heights: seq<real>, n: nat, nrows: nat, ncols: nat, spacing: real, m: Monitor, c: Chrome)
    requires nrows >= 1 && ncols >= 1 && n <= |heights| && ValidMonitor(m)
    ensures var w := FitWidth(FirstPassChildHeight(heights, n, nrows, ncols, spacing, m, c), spacing, m, HorizontalPadding(c), ncols);
      FitHeight(heights, n, nrows, ncols, spacing, m, c) == HeightFit(w.childWidth, w.childHeight, Extent(w.childHeight, spacing, nrows))
  {
    var ch := FirstPassChildHeight(heights, n, nrows, ncols, spacing, m, c);
    var w := FitWidth(ch, spacing, m, HorizontalPadding(c), ncols);
    var h := FirstPassHeight(heights, n, nrows, ncols, spacing, m, c);
    var avail := AvailHeight(m, c);
    var gaps := Gaps(spacing, nrows);
    assert FitHeight(heights, n, nrows, ncols, spacing, m, c) == Reconcile(ch, h, w.childWidth, w.childHeight, avail, gaps, nrows);
    FirstPassFits(heights, n, nrows, ncols, spacing, m, c);
    HeightClampNeverFires(heights, n, nrows, ncols, spacing, m, c);
    if ch != w.childHeight {
      assert w.childHeight * (nrows as real) + gaps == Extent(w.childHeight, spacing, nrows) <= avail;
    }
  }

  /** What the height pass leaves behind: the reported height is the height of
      the grid of final cells and fits the available height; the cells keep
      the monitor's aspect ratio; a row of them fits the monitor's width. */
  lemma FitHeightFits(heights: seq<real>, n: nat, nrows: nat, ncols: nat, spacing: real, m: Monitor, c: Chrome)
    requires nrows >= 1 && ncols >= 1 && n <= |heights| && ValidMonitor(m)
    ensures var r := FitHeight(heights, n, nrows, ncols, spacing, m, c);
      && r.height == Extent(r.childHeight, spacing, nrows)
      && r.height <= AvailHeight(m, c)
      && r.childWidth * m.height == r.childHeight * m.width
      && Extent(r.childWidth, spacing, ncols) + HorizontalPadding(c) <= m.width
  {
    var ch := FirstPassChildHeight(heights, n, nrows, ncols, spacing, m, c);
    var w := FitWidth(ch, spacing, m, HorizontalPadding(c), ncols);
    FitHeightCells(heights, n, nrows, ncols, spacing, m, c);
    FirstPassFits(heights, n, nrows, ncols, spacing, m, c);
    HeightClampNeverFires(heights, n, nrows, ncols, spacing, m, c);
    assert Extent(w.childHeight, spacing, nrows) <= Extent(ch, spacing, nrows);
  }

  /** Without horizontal overflow the height pass keeps its first-pass cell
      height and reports min(natural height, available height). */
  lemma FitHeightWithoutOverflow(heights: seq<real>, n: nat, nrows: nat, ncols: nat, spacing: real, m: Monitor, c: Chrome)
    requires nrows >= 1 && ncols >= 1 && n <= |heights| && ValidMonitor(m)
    requires !Overflows(FirstPassChildHeight(heights, n, nrows, ncols, spacing, m, c), spacing, m, HorizontalPadding(c), ncols)
    ensures var r := FitHeight(heights, n, nrows, ncols, spacing, m, c);
      && r.childHeight == FirstPassChildHeight(heights, n, nrows, ncols, spacing, m, c)
      && r.height == Min(NaturalHeight(heights, n, nrows, ncols, spacing, m), AvailHeight(m, c))
  {
    var ch := FirstPassChildHeight(heights, n, nrows, ncols, spacing, m, c);
    FitWidthOutcomes(ch, spacing, m, HorizontalPadding(c), ncols);
    FitHeightCells(heights, n, nrows, ncols, spacing, m, c);
    FirstPassFits(heights, n, nrows, ncols, spacing, m, c);
  }

  /** The width request the host makes after the height request finds nothing
      left to change: the cells the height pass settled on do not overflow. */
  lemma LayoutPassStable(heights: seq<real>, n: nat, nrows: nat, ncols: nat, spacing: real, m: Monitor, c: Chrome)
    requires nrows >= 1 && ncols >= 1 && n <= |heights| && ValidMonitor(m)
    ensures var r := FitHeight(heights, n, nrows, ncols, spacing, m, c);
      FitWidth(r.childHeight, spacing, m, HorizontalPadding(c), ncols)
        == WidthFit(r.childWidth, r.childHeight, Extent(r.childWidth, spacing, ncols))
  {
    var ch := FirstPassChildHeight(heights, n, nrows, ncols, spacing, m, c);
    FitHeightCells(heights, n, nrows, ncols, spacing, m, c);
    FitWidthIdempotent(ch, spacing, m, HorizontalPadding(c), ncols);
  }

  /** With non-negative natural heights the row sum is non-negative. */
  lemma {:induction false} ScaledRowHeightsNonNegative(heights: seq<real>, n: nat, ncols: nat, from: nat, m: Monitor)
    requires ncols >= 1 && n <= |heights| && ValidMonitor(m)
    requires forall i :: 0 <= i < n ==> heights[i] >= 0.0
    ensures ScaledRowHeights(heights, n, ncols, from, m) >= 0.0
    decreases n - from
  {
    if from < n {
      assert TimesAspect(heights[from], m) >= 0.0;
      ScaledRowHeightsNonNegative(heights, n, ncols, from + ncols, m);
    }
  }

  /** The width pass keeps a non-negative cell size non-negative as long as
      the monitor's width leaves room for the padding and the column gaps. */
  lemma FitWidthNonNegative(childHeight: real, spacing: real, m: Monitor, padding: real, ncols: nat)
    requires ValidMonitor(m) && ncols >= 1
    requires childHeight >= 0.0
    requires padding + Gaps(spacing, ncols) <= m.width
    ensures var w := FitWidth(childHeight, spacing, m, padding, ncols);
      w.childWidth >= 0.0 && w.childHeight >= 0.0
  {
    var w := FitWidth(childHeight, spacing, m, padding, ncols);
    if Overflows(childHeight, spacing, m, padding, ncols) {
      var rest := m.width - padding - Gaps(spacing, ncols);
      assert w.childWidth == rest / (ncols as real);
      assert w.childHeight * m.width == w.childWidth * m.height >= 0.0;
    } else {
      assert w.childWidth == childHeight * m.width / m.height;
    }
  }

  /** The first-pass cell height is non-negative when the natural heights
      are and the available height leaves room for the row gaps. */
  lemma FirstPassNonNegative(heights: seq<real>, n: nat, nrows: nat, ncols: nat, spacing: real, m: Monitor, c: Chrome)
    requires nrows >= 1 && ncols >= 1 && n <= |heights| && ValidMonitor(m)
    requires forall i :: 0 <= i < n ==> heights[i] >= 0.0
    requires AvailHeight(m, c) >= Gaps(spacing, nrows)
    ensures FirstPassChildHeight(heights, n, nrows, ncols, spacing, m, c) >= 0.0
  {
    ScaledRowHeightsNonNegative(heights, n, ncols, 0, m);
    var h := FirstPassHeight(heights, n, nrows, ncols, spacing, m, c);
    assert h - Gaps(spacing, nrows) >= 0.0;
  }

  /** Cell sizes are never negative when the natural heights are not, the
      available height leaves room for the row gaps and the monitor's width
      leaves room for the padding and the column gaps. */
  lemma ChildSizesNonNegative(heights: seq<real>, n: nat, nrows: nat, ncols: nat, spacing: real, m: Monitor, c: Chrome)
    requires nrows >= 1 && ncols >= 1 && n <= |heights| && ValidMonitor(m)
    requires forall i :: 0 <= i < n ==> heights[i] >= 0.0
    requires AvailHeight(m, c) >= Gaps(spacing, nrows)
    requires HorizontalPadding(c) + Gaps(spacing, ncols) <= m.width
    ensures var r := FitHeight(heights, n, nrows, ncols, spacing, m, c);
      r.childWidth >= 0.0 && r.childHeight >= 0.0
  {
    FirstPassNonNegative(heights, n, nrows, ncols, spacing, m, c);
    FitHeightCells(heights, n, nrows, ncols, spacing, m, c);
    FitWidthNonNegative(FirstPassChildHeight(heights, n, nrows, ncols, spacing, m, c), spacing, m, HorizontalPadding(c), ncols);
  }

  /** The hypotheses above are needed: nothing in the height pass keeps the
      cells from going negative. On a 100 x 100 monitor with a list padding
      of 150 pixels, the width pass shrinks one cell of natural height 10 to a
      width of -50, and the height pass keeps it. */
  lemma PaddingWiderThanMonitor()
    ensures FitHeight([10.0], 1, 1, 1, 0.0, Monitor(100.0, 100.0),
                      Chrome(0.0, Padding(0.0, 0.0), Padding(0.0, 0.0), Padding(0.0, 150.0))).childWidth == -50.0
  {
    var m := Monitor(100.0, 100.0);
    var c := Chrome(0.0, Padding(0.0, 0.0), Padding(0.0, 0.0), Padding(0.0, 150.0));
    assert ScaledRowHeights([10.0], 1, 1, 1, m) == 0.0;
    assert ScaledRowHeights([10.0], 1, 1, 0, m) == 10.0;
    assert FirstPassChildHeight([10.0], 1, 1, 1, 0.0, m, c) == 10.0;
    assert Overflows(10.0, 0.0, m, HorizontalPadding(c), 1);
    FitHeightCells([10.0], 1, 1, 1, 0.0, m, c);
  }
}
