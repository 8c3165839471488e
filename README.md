# Grid workspace switcher popup — layout and indicators

The workspace-grid GNOME Shell extension arranges workspaces in a grid of
`rows x columns` cells. When the user moves between workspaces it shows a
switcher popup with one indicator per workspace, laid out as that grid on
the primary monitor. This project models the popup's core in Dafny:

- **Size negotiation** (module `Sizing`, the specification). The height
  request:
  - sums the aspect-scaled natural heights of the first cell of every row
    that holds a workspace (children 0, ncols, 2 * ncols, ... below the
    workspace count), so a row without workspaces adds no height but still
    counts for the gaps and for the division into rows;
  - adds the gaps between rows;
  - clamps the total to the monitor height left over by the top panel and
    the theme paddings;
  - derives a cell height from the result.

  Then it runs the width request. That request derives the cell width from
  the cell height with the monitor's aspect ratio. If a row of such cells
  plus padding is wider than the monitor, it shrinks both cell sizes so the
  row fits exactly. When the width request changed the cell height, the
  height request recomputes the grid height from the new cell height, and
  clamps the cell height if that grid height exceeds the available height.
- **Allocation** (module `Allocation`, the specification). The allocator
  walks the grid row by row. Each child's far edges are the exact
  positions rounded to whole pixels. Each near edge is the previous
  child's rounded far edge plus the spacing.
- **Indicators** (module `Indicators`, the specification). The redisplay
  builds one indicator per workspace. The active workspace gets an arrow
  style for the direction of the move (up, down, left or right). Every
  other workspace gets the neutral box. When labels are switched on, each
  indicator carries the workspace's name.
- **The popup** (module `Popup`). The class `GridSwitcherPopup` holds the
  popup's mutable state: the cell size, the item spacing and the indicator
  list. Its methods follow the source callbacks step by step, and each
  method is proved against the specification functions above.

All pixel arithmetic is over exact reals; `Math.round` is `floor(v + 0.5)`.
Over exact reals the final height clamp of the height request can never
fire, and `Sizing.HeightClampNeverFires` proves this. When the width pass
shrinks the cells, it makes them strictly smaller. So the recomputed grid
height is strictly below the first-pass height, which already fits. The
clamp is still modelled as written, in `Sizing.Reconcile` and
`Popup.GridSwitcherPopup.ReconcileHeight`. In the source's floating-point
arithmetic it guards against rounding error.

Values that come from the host are parameters of the methods:
- the monitor size;
- the top panel's height;
- the theme paddings and the spacing;
- the number of rows, columns and workspaces;
- the children's natural heights;
- the active workspace index and the motion direction;
- the show-labels setting;
- the workspace-name lookup.

## Model

| member | source | states |
|---|---|---|
| Sizing.FitWidth | workspace-grid@mathematical.coffee.gmail.com/myWorkspaceSwitcherPopup.js:125-145 | The width pass keeps the cells at the monitor's aspect ratio. The reported width is the extent of a row of cells with its gaps, and that width plus the horizontal padding never exceeds the monitor width. |
| Sizing.TimesAspect | workspace-grid@mathematical.coffee.gmail.com/myWorkspaceSwitcherPopup.js:128 | A height scaled by the monitor's width/height ratio, used at :100 and :128. The `FitWidth` aspect-ratio ensures and `FitWidthOutcomes` state the result. |
| Sizing.HorizontalPadding | workspace-grid@mathematical.coffee.gmail.com/myWorkspaceSwitcherPopup.js:130-132 | The sum of the popup's, the list's and the container's horizontal paddings. `FitWidth` and `FitHeightFits` bound the row width plus this padding by the monitor width. |
| Sizing.Gaps | workspace-grid@mathematical.coffee.gmail.com/myWorkspaceSwitcherPopup.js:88 | The total gap between n cells in one line: the spacing times n - 1. This is the `spacing` local of the height request, and the gap term of the row width at :129 and :137. `FitWidthOutcomes` states the overflow shrink in its terms, and `ChildSizesNonNegative` and `FitWidthNonNegative` require the monitor to leave room for it. |
| Sizing.Extent | workspace-grid@mathematical.coffee.gmail.com/myWorkspaceSwitcherPopup.js:129 | The length of a line of n cells of one size with n - 1 gaps. It is the row width at :129 and the recomputed grid height at :115. `FitWidth` and `FitHeightFits` state the row width and the grid height in its terms, and `ExtentMonotone` states that it grows strictly with the cell size. |
| Sizing.Overflows | workspace-grid@mathematical.coffee.gmail.com/myWorkspaceSwitcherPopup.js:135 | A row of aspect-ratio cells, with its gaps and the padding, is wider than the monitor. `FitWidthOutcomes` states both outcomes, and that the cell height changes if and only if this holds. |
| Sizing.FitWidthOutcomes | workspace-grid@mathematical.coffee.gmail.com/myWorkspaceSwitcherPopup.js:128-141 | Without overflow the cell height is kept and the width follows from the aspect ratio. On overflow the width is exactly the monitor width minus padding, and both cell sizes strictly shrink. The cell height changes if and only if the row overflows. |
| Sizing.ShrinkIsSmaller | workspace-grid@mathematical.coffee.gmail.com/myWorkspaceSwitcherPopup.js:135-140 | On overflow, the shrunk cell width is below the aspect-ratio width and the shrunk cell height is below the original height. |
| Sizing.FitWidthIdempotent | workspace-grid@mathematical.coffee.gmail.com/myWorkspaceSwitcherPopup.js:128-141 | Running the width pass on its own result gives the same result, so the layout it reaches is a fixed point. |
| Sizing.ScaledRowHeights | workspace-grid@mathematical.coffee.gmail.com/myWorkspaceSwitcherPopup.js:95-101 | Specification of the row loop: the aspect-scaled natural heights of children `from`, `from + ncols`, ... below the workspace count, summed. `SumRowHeights` computes it, and `ScaledRowHeightsNonNegative` bounds it. |
| Sizing.AvailHeight | workspace-grid@mathematical.coffee.gmail.com/myWorkspaceSwitcherPopup.js:86-93 | The monitor height minus the panel height and the popup's, container's and list's vertical paddings. `ClampedGridHeight` computes it step by step, and `FirstPassFits` and `FitHeightFits` bound the grid by it. |
| Sizing.NaturalHeight | workspace-grid@mathematical.coffee.gmail.com/myWorkspaceSwitcherPopup.js:95-103 | The row sum plus the gaps between rows. `FirstPassFits` and `FitHeightWithoutOverflow` state the first-pass height in its terms. |
| Sizing.FirstPassHeight | workspace-grid@mathematical.coffee.gmail.com/myWorkspaceSwitcherPopup.js:105 | The natural height clamped to the available height. `FirstPassFits` states it is their minimum and that it fits. |
| Sizing.FirstPassChildHeight | workspace-grid@mathematical.coffee.gmail.com/myWorkspaceSwitcherPopup.js:106 | The first-pass cell height: the first-pass height less the row gaps, divided by the row count. `FirstPassFits` states a column of such cells rebuilds the first-pass height, and `FirstPassNonNegative` bounds it below. |
| Sizing.Reconcile | workspace-grid@mathematical.coffee.gmail.com/myWorkspaceSwitcherPopup.js:112-119 | Specification of the end of the height request. When the width pass changed the cell height, the grid height is recomputed from it and the cell height is clamped if the result exceeds the available height. Otherwise the first-pass height is kept. `HeightClampNeverFires` and `FitHeightCells` state its outcome. |
| Sizing.FitHeight | workspace-grid@mathematical.coffee.gmail.com/myWorkspaceSwitcherPopup.js:82-123 | Specification of the whole height request. It consists of the first pass, the width pass, and `Reconcile`. `FitHeightCells`, `FitHeightFits`, `FitHeightWithoutOverflow`, `LayoutPassStable` and `ChildSizesNonNegative` state its properties. |
| Sizing.ExtentMonotone | workspace-grid@mathematical.coffee.gmail.com/myWorkspaceSwitcherPopup.js:115 | The height of a column of cells grows strictly with the cell height. |
| Sizing.FitHeightCells | workspace-grid@mathematical.coffee.gmail.com/myWorkspaceSwitcherPopup.js:108-122 | The height request ends with exactly the cells the width pass made of the first-pass cell height. It reports the height of a column of those cells. |
| Sizing.FirstPassFits | workspace-grid@mathematical.coffee.gmail.com/myWorkspaceSwitcherPopup.js:86-106 | The first-pass grid height is the smaller of the natural height and the available height. The grid built from the first-pass cell height has exactly that height and fits the available height. |
| Sizing.HeightClampNeverFires | workspace-grid@mathematical.coffee.gmail.com/myWorkspaceSwitcherPopup.js:109-119 | Whenever the width pass changes the cell height, the recomputed grid height is strictly below the first-pass grid height, which fits. So the clamp condition is never true. |
| Sizing.FitHeightFits | workspace-grid@mathematical.coffee.gmail.com/myWorkspaceSwitcherPopup.js:82-123 | After the height request, the reported height is the height of the grid of final cells and fits the available height. The cells keep the aspect ratio, and a row of them plus padding fits the monitor width. |
| Sizing.FitHeightWithoutOverflow | workspace-grid@mathematical.coffee.gmail.com/myWorkspaceSwitcherPopup.js:103-112 | Without horizontal overflow, the height request keeps the first-pass cell height and reports the smaller of the natural and available heights. |
| Sizing.LayoutPassStable | workspace-grid@mathematical.coffee.gmail.com/myWorkspaceSwitcherPopup.js:110-145 | A width request after a height request changes neither cell size. It reports the width of a row of the final cells. |
| Sizing.ScaledRowHeightsNonNegative | workspace-grid@mathematical.coffee.gmail.com/myWorkspaceSwitcherPopup.js:95-101 | The summed, aspect-scaled row heights are non-negative when every natural height is. |
| Sizing.ChildSizesNonNegative | workspace-grid@mathematical.coffee.gmail.com/myWorkspaceSwitcherPopup.js:103-141 | Both final cell sizes are non-negative when three conditions hold: the natural heights are non-negative, the available height covers the row gaps, and the monitor width covers the padding and the column gaps. |
| Sizing.FitWidthNonNegative | workspace-grid@mathematical.coffee.gmail.com/myWorkspaceSwitcherPopup.js:128-141 | The width pass keeps a non-negative cell height non-negative, and yields a non-negative width, whenever the monitor width covers the padding and the column gaps. |
| Sizing.FirstPassNonNegative | workspace-grid@mathematical.coffee.gmail.com/myWorkspaceSwitcherPopup.js:95-106 | The first-pass cell height is non-negative when the natural heights are and the available height covers the row gaps. |
| Sizing.PaddingWiderThanMonitor | workspace-grid@mathematical.coffee.gmail.com/myWorkspaceSwitcherPopup.js:128-141 | A concrete input (a 100 x 100 monitor, list padding 150, one natural height 10) on which the height request yields a cell width of -50. |
| Allocation.Round | workspace-grid@mathematical.coffee.gmail.com/myWorkspaceSwitcherPopup.js:160-162 | A rounded edge lies within half a pixel of the exact edge; halves round up. |
| Allocation.OffsetClosedForm | workspace-grid@mathematical.coffee.gmail.com/myWorkspaceSwitcherPopup.js:164-170 | The unrounded position, advanced by one cell plus one gap per step, equals origin + k * (cell + spacing). |
| Allocation.Offset | workspace-grid@mathematical.coffee.gmail.com/myWorkspaceSwitcherPopup.js:164-170 | The running sums `x` and `y`: the box origin advanced by one cell plus one spacing per cell. `OffsetClosedForm` gives its closed form, and `Allocate`'s invariants tie the loop variables to it. |
| Allocation.ExactFar | workspace-grid@mathematical.coffee.gmail.com/myWorkspaceSwitcherPopup.js:160-162 | The unrounded far edge `x + childWidth` or `y + childHeight`. `CellsTrackExactGrid` states that every rounded far edge is within half a pixel of it. |
| Allocation.FarEdge | workspace-grid@mathematical.coffee.gmail.com/myWorkspaceSwitcherPopup.js:160-162 | Specification of a far edge: the unrounded far edge of the k-th cell, rounded. `EdgesClosedForm` gives it in closed form, and `CellsTrackExactGrid` bounds its error. |
| Allocation.NearEdge | workspace-grid@mathematical.coffee.gmail.com/myWorkspaceSwitcherPopup.js:156-165 | Specification of a near edge: the origin for the first cell, otherwise the previous far edge plus the spacing. `EdgesClosedForm` gives it in closed form. |
| Allocation.CellBox | workspace-grid@mathematical.coffee.gmail.com/myWorkspaceSwitcherPopup.js:155-171 | Specification of the box child `i` receives, at row `i / ncols` and column `i % ncols`. `Allocate` is proved equal to it, and `CellsInRow`, `CellsInColumn`, `CellEdgesClosedForm` and `CellsTrackExactGrid` state its properties. |
| Allocation.EdgesClosedForm | workspace-grid@mathematical.coffee.gmail.com/myWorkspaceSwitcherPopup.js:159-170 | Along one axis, the far edge of cell k is round(origin + k * (cell + spacing) + cell). Each later near edge is the previous such rounded edge plus the spacing. |
| Allocation.CellEdgesClosedForm | workspace-grid@mathematical.coffee.gmail.com/myWorkspaceSwitcherPopup.js:155-171 | The box of the cell at (row, col) in closed form. x2 = round(box.x1 + col * (childWidth + spacing) + childWidth), and likewise y2 for rows. x1 and y1 are the box's edges for the first column or row, otherwise the previous rounded far edge plus the spacing. |
| Allocation.RowMajorIndex | workspace-grid@mathematical.coffee.gmail.com/myWorkspaceSwitcherPopup.js:155-167 | Child `row * ncols + col` is the one allocated at row `row`, column `col`. |
| Allocation.CellsInRow | workspace-grid@mathematical.coffee.gmail.com/myWorkspaceSwitcherPopup.js:156-165 | The first cell of a row starts at the box's left edge. Each next cell in the row starts exactly one spacing after the previous cell's rounded right edge and shares its top and bottom edges. |
| Allocation.CellsInColumn | workspace-grid@mathematical.coffee.gmail.com/myWorkspaceSwitcherPopup.js:155-170 | The first row starts at the box's top edge. The cell below starts exactly one spacing after the rounded bottom edge of the cell above and shares its left and right edges. |
| Allocation.EdgeSpan | workspace-grid@mathematical.coffee.gmail.com/myWorkspaceSwitcherPopup.js:159-165 | Along one axis, every allocated cell spans within one pixel of the cell size. |
| Allocation.CellsTrackExactGrid | workspace-grid@mathematical.coffee.gmail.com/myWorkspaceSwitcherPopup.js:155-171 | Every allocated box is within one pixel of the cell size in each direction. Every far edge is within half a pixel of the exact grid position, so rounding error does not accumulate along rows or columns. |
| Indicators.IndicatorFor | workspace-grid@mathematical.coffee.gmail.com/myWorkspaceSwitcherPopup.js:181-203 | A non-active workspace gets the neutral box. A workspace gets the up, down, left or right arrow style if and only if it is the active one and the move was in that direction. |
| Indicators.StyleClass | workspace-grid@mathematical.coffee.gmail.com/myWorkspaceSwitcherPopup.js:181-203 | The theme's class name for each of the five indicator styles. `StyleClassesDistinct` states that they differ. |
| Indicators.StyleClassesDistinct | workspace-grid@mathematical.coffee.gmail.com/myWorkspaceSwitcherPopup.js:181-203 | Two styles have the same class name if and only if they are the same style. |
| Indicators.IndicatorAt | workspace-grid@mathematical.coffee.gmail.com/myWorkspaceSwitcherPopup.js:179-211 | Specification of the indicator built for one workspace: the style `IndicatorFor` chooses, and the workspace's name as label if and only if labels are on. |
| Indicators.IndicatorList | workspace-grid@mathematical.coffee.gmail.com/myWorkspaceSwitcherPopup.js:176-214 | Specification of the list after a redisplay: the indicators of workspaces 0 to n - 1 appended in order. `Redisplay` is proved equal to it, and `IndicatorsInOrder` and `OnlyActiveHighlighted` state its properties. |
| Indicators.IndicatorsInOrder | workspace-grid@mathematical.coffee.gmail.com/myWorkspaceSwitcherPopup.js:178-214 | A redisplay yields exactly one indicator per workspace, in index order, each with the style chosen for its index. Each carries a label if and only if labels are on, and the label is that workspace's name. |
| Indicators.OnlyActiveHighlighted | workspace-grid@mathematical.coffee.gmail.com/myWorkspaceSwitcherPopup.js:181-203 | An indicator is not the neutral box if and only if its workspace is the active one and the move was up, down, left or right. So at most one indicator is highlighted. |
| Popup.GridSwitcherPopup.GetPreferredWidth | workspace-grid@mathematical.coffee.gmail.com/myWorkspaceSwitcherPopup.js:125-145 | The new cell size and the reported min/natural width are those of the width pass applied to the previous cell height. |
| Popup.GridSwitcherPopup.GetPreferredHeight | workspace-grid@mathematical.coffee.gmail.com/myWorkspaceSwitcherPopup.js:82-123 | The new cell size and the reported min/natural height are those of the height pass, including the width pass it runs. |
| Popup.GridSwitcherPopup.ClampedGridHeight | workspace-grid@mathematical.coffee.gmail.com/myWorkspaceSwitcherPopup.js:86-105 | The available height is the monitor height minus the panel and the three vertical paddings. The returned grid height is the natural height clamped to it, and never exceeds it. |
| Popup.GridSwitcherPopup.ReconcileHeight | workspace-grid@mathematical.coffee.gmail.com/myWorkspaceSwitcherPopup.js:112-119 | When the width pass changed the cell height, the grid height is recomputed from it, and the cell height is clamped if that exceeds the available height. Otherwise the first-pass height is kept. |
| Popup.GridSwitcherPopup.SumRowHeights | workspace-grid@mathematical.coffee.gmail.com/myWorkspaceSwitcherPopup.js:95-101 | The loop's total is the sum of the aspect-scaled natural heights of children 0, ncols, 2 * ncols, ... below the workspace count. |
| Popup.GridSwitcherPopup.Allocate | workspace-grid@mathematical.coffee.gmail.com/myWorkspaceSwitcherPopup.js:147-172 | Exactly rows * columns boxes are handed out, one per child in order. Child `i` gets the box of row `i / ncols`, column `i % ncols` of the rounded grid, whose properties are the Allocation lemmas. |
| Popup.GridSwitcherPopup.Redisplay | workspace-grid@mathematical.coffee.gmail.com/myWorkspaceSwitcherPopup.js:174-214 | The indicator list is rebuilt from empty to exactly the indicator sequence whose properties the Indicators lemmas state. |

## Left out

- The popup's construction, show/hide timing and destruction, and the thumbnails box, are outside this model. Only the callbacks above are modelled.
- The centring of the container on the work area after a redisplay is not modelled. It positions actors on screen using host values only.
- Clutter and St actors are left out. A child's `allocate` call is modelled by the box it receives: `Allocate` returns the boxes in call order instead of handing them to actors. Indicators are values (style and optional label), not actors. The label's own style class `ws-switcher-label` is not modelled.
- The natural heights of the children and the workspace names come from calls into the host, so they are parameters. The `get_preferred_width` call on each child inside the height loop only primes the child, so its result is ignored.
- JavaScript's IEEE-754 floating-point arithmetic is modelled as exact real arithmetic. Rounding error, overflow and NaN are not modelled.
- Division by zero is excluded. The row count (height request) and the column count (width request) must be at least 1, and the monitor's width and height must be positive, as the grid settings and a connected monitor guarantee.
- Popup.GridSwitcherPopup.GetPreferredHeight requires at least as many natural heights as workspaces, because the source reads the children the redisplay created, one per workspace.
- Popup.GridSwitcherPopup.Allocate requires at least rows * columns children, because the source calls `allocate` on each of them.
- `MotionDirection` stands for the compositor's `Meta.MotionDirection`, whose up, down, left and right values the popup compares against (myWorkspaceSwitcherPopup.js:33-36). It adds `Unset` for a direction value that matches none of them. The show-labels setting read at :204 becomes the boolean parameter `showLabels`. The settings keys in constants.js are not modelled.
- Popup.GridSwitcherPopup.SumRowHeights requires at least one column. With zero columns and at least one workspace, the source's row loop (:95-96) steps by zero and never ends.
- Nothing in the source keeps the cell sizes non-negative. Padding wider than the monitor gives a negative cell width: `Sizing.PaddingWiderThanMonitor` exhibits one such input. So the hypotheses of `Sizing.ChildSizesNonNegative` are needed, not just convenient.
