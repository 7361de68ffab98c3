/**
 * What the layout box reads from a render node: whether it is a text node,
 * its element tag, and the computed display, position, width and height.
 */
module Style {
  import opened Wrappers

  /** The outer display types layout tells apart; `OtherOuter` is every other one. */
  datatype OuterDisplayType = Block | Inline | OtherOuter

  /** The inner display types layout tells apart; `OtherInner` is every other one. */
  datatype InnerDisplayType = Flow | FlowRoot | OtherInner

  /** A computed display: a full (outer, inner) pair, or any other display form. */
  datatype Display = Full(outer: OuterDisplayType, inner: InnerDisplayType) | OtherDisplay

  datatype Position = Static | Relative | Absolute | Fixed

  /** A computed width or height: `auto`, or a length resolved later against a base. */
  datatype Dimension = Auto | Length(amount: real, unit: string)

  /**
   * A render node as layout sees it. `tagName` is `Some` exactly for element
   * nodes. `position` is `None` when the computed value is not a position.
   */
  datatype RenderNode = RenderNode(
    isText: bool,
    tagName: Option<string>,
    display: Display,
    position: Option<Position>,
    width: Dimension,
    height: Dimension)
}
