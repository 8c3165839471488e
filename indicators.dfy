/** Which indicator the switcher popup shows for each workspace: the active
    workspace gets an arrow style for the direction of the move that brought
    up the popup, every other workspace the neutral box, and each indicator
    carries the workspace's name when labels are switched on. */
module Indicators {

  datatype Option<T> = None | Some(value: T)

  /** The compositor's motion directions. `Unset` stands for a direction
      value matching none of them (no move has happened yet). */
  datatype MotionDirection = Up | Down | Left | Right | UpLeft | UpRight | DownLeft | DownRight | Unset

  /** The five indicator styles. */
  datatype IndicatorStyle = ActiveUp | ActiveDown | ActiveLeft | ActiveRight | Neutral

  /** One indicator in the popup's list: its style and, when labels are on, the workspace's name. */
  datatype Indicator = Indicator(style: IndicatorStyle, labelText: Option<string>)

  /** The theme's style-class name for each style. */
  function StyleClass(style: IndicatorStyle): string
  {
    match style
    case ActiveUp => "ws-switcher-active-up"
    case ActiveDown => "ws-switcher-active-down"
    case ActiveLeft => "ws-switcher-active-left"
    case ActiveRight => "ws-switcher-active-right"
    case Neutral => "ws-switcher-box"
  }

  /** Different styles have different class names, so the theme can tell
      every style apart. */
  lemma StyleClassesDistinct(a: IndicatorStyle, b: IndicatorStyle)
    ensures StyleClass(a) == StyleClass(b) <==> a == b
  {
  }

  /** The style of the indicator for workspace `i`, checked in the order
      up, down, left, right, with the neutral box as the fall-through. */
  function IndicatorFor(i: int, active: int, direction: MotionDirection): (style: IndicatorStyle)
    ensures i != active ==> style == Neutral
    ensures style == ActiveUp <==> i == active && direction == Up
    ensures style == ActiveDown <==> i == active && direction == Down
    ensures style == ActiveLeft <==> i == active && direction == Left
    ensures style == ActiveRight <==> i == active && direction == Right
  {
    if i == active && direction == Up then ActiveUp
    else if i == active && direction == Down then ActiveDown
    else if i == active && direction == Left then ActiveLeft
    else if i == active && direction == Right then ActiveRight
    else Neutral
  }

  /** The indicator built for workspace `i`. */
  function IndicatorAt(i: nat, active: int, direction: MotionDirection, showLabels: bool, name: nat -> string): Indicator
  {
    Indicator(IndicatorFor(i, active, direction), if showLabels then Some(name(i)) else None)
  }

  /** The popup's list after a redisplay of `n` workspaces, built one
      indicator at a time in index order. */
  function IndicatorList(n: nat, active: int, direction: MotionDirection, showLabels: bool, name: nat -> string): seq<Indicator>
  {
    if n == 0 then []
    else IndicatorList(n - 1, active, direction, showLabels, name) + [IndicatorAt(n - 1, active, direction, showLabels, name)]
  }

  predicate IsCardinal(direction: MotionDirection)
  {
    direction == Up || direction == Down || direction == Left || direction == Right
  }

  /** A redisplay yields exactly one indicator per workspace, in index order;
      each carries the workspace's name exactly when labels are on. */
  lemma {:induction false} IndicatorsInOrder(n: nat, active: int, direction: MotionDirection, showLabels: bool, name: nat -> string)
    ensures var list := IndicatorList(n, active, direction, showLabels, name);
      && |list| == n
      && forall i :: 0 <= i < n ==>
           list[i].style == IndicatorFor(i, active, direction)
           && (list[i].labelText.Some? <==> showLabels)
           && (showLabels ==> list[i].labelText == Some(name(i)))
  {
    if n > 0 {
      IndicatorsInOrder(n - 1, active, direction, showLabels, name);
    }
  }

  /** At most one indicator is highlighted: a workspace's indicator is not
      the neutral box exactly when it is the active workspace and the move
      was up, down, left or right. */
  lemma OnlyActiveHighlighted(n: nat, active: int, direction: MotionDirection, showLabels: bool, name: nat -> string)
    ensures var list := IndicatorList(n, active, direction, showLabels, name);
      forall i :: 0 <= i < |list| ==>
        (list[i].style != Neutral <==> i == active && IsCardinal(direction))
  {
    IndicatorsInOrder(n, active, direction, showLabels, name);
  }
}
