/**
 * The payload of one layout box (`LayoutBox`, `BoxData`) and the queries that
 * read only that payload: classification of a render node into a box kind,
 * the kind and attribute tests, the line list and the formatting context.
 */
module LayoutBoxes {
  import opened Wrappers
  import opened Geometry
  import opened Style

  /** A line box of an inline formatting context; its fragments are not modelled. */
  datatype LineBox = LineBox(height: real, baseline: real)

  datatype InlineContents = InlineBox | TextRun

  /** The kind of a box; only a block box owns line boxes. */
  datatype BoxData = BlockBox(lines: seq<LineBox>) | InlineContent(contents: InlineContents)

  /** The type tag of the formatting context assigned to a box. */
  datatype FormattingContextType = BlockFormattingContext | InlineFormattingContext

  /**
   * One layout box. `node` is absent for anonymous boxes; `boxModel`, `offset`,
   * `contentSize` and `formattingContext` are the fields layout writes in place.
   */
  datatype LayoutBox = LayoutBox(
    data: BoxData,
    node: Option<RenderNode>,
    boxModel: BoxModel,
    offset: Point,
    contentSize: Size,
    formattingContext: Option<FormattingContextType>)

  /** The failures that the source reports by panicking. */
  datatype LayoutError =
    | UnsupportedDisplay(display: Display)
    | NoLineBoxes
    | MissingFormattingContext
    | MissingContainingBlock

  function BlockBoxData(): BoxData { BlockBox([]) }

  function InlineBoxData(): BoxData { InlineContent(InlineBox) }

  function TextRunData(): BoxData { InlineContent(TextRun) }

  /** Zero box model, zero offset and size, no formatting context: the state of a new box. */
  ghost predicate IsPristine(b: LayoutBox)
  {
    && b.boxModel == ZeroBoxModel
    && b.offset == Point(0.0, 0.0)
    && b.contentSize == Size(0.0, 0.0)
    && b.formattingContext.None?
  }

  function IsAnonymous(b: LayoutBox): bool
  {
    b.node.None?
  }

  /** The box generated for a render node, or the display it cannot lay out. */
  function NewBox(node: RenderNode): (r: Result<LayoutBox, LayoutError>)
    ensures r.Ok? ==> r.value.node == Some(node) && !IsAnonymous(r.value) && IsPristine(r.value)
    ensures node.isText ==> r.Ok? && r.value.data == InlineContent(TextRun)
    ensures !node.isText && node.display == Full(Block, Flow) ==>
              r.Ok? && r.value.data == BlockBox([])
    ensures !node.isText && node.display in {Full(Inline, Flow), Full(Inline, FlowRoot)} ==>
              r.Ok? && r.value.data == InlineContent(InlineBox)
    ensures r.Err? <==>
              !node.isText && node.display !in {Full(Block, Flow), Full(Inline, Flow), Full(Inline, FlowRoot)}
    ensures r.Err? ==> r.error == UnsupportedDisplay(node.display)
  {
    var data :=
      if node.isText then Ok(TextRunData())
      else match node.display
        case Full(Block, Flow) => Ok(BlockBoxData())
        case Full(Inline, Flow) => Ok(InlineBoxData())
        case Full(Inline, FlowRoot) => Ok(InlineBoxData())
        case _ => Err(UnsupportedDisplay(node.display));
    match data
    case Ok(d) => Ok(LayoutBox(d, Some(node), ZeroBoxModel, Point(0.0, 0.0), Size(0.0, 0.0), None))
    case Err(e) => Err(e)
  }

  /** An anonymous box of the given kind, with no render node. */
  function NewAnonymous(data: BoxData): (r: LayoutBox)
    ensures r.data == data && IsAnonymous(r) && IsPristine(r)
  {
    LayoutBox(data, None, ZeroBoxModel, Point(0.0, 0.0), Size(0.0, 0.0), None)
  }

  function IsBlock(b: LayoutBox): bool
  {
    b.data.BlockBox?
  }

  function IsInline(b: LayoutBox): (r: bool)
    ensures r == !IsBlock(b)
  {
    match b.data
    case InlineContent(_) => true
    case _ => false
  }

  function CanHaveChildren(b: LayoutBox): (r: bool)
    ensures !r <==> IsInline(b) && b.data.contents == TextRun
  {
    match b.data
    case InlineContent(TextRun) => false
    case _ => true
  }

  /** True for an element whose tag is `tag`. */
  function HasTag(b: LayoutBox, tag: string): bool
  {
    match b.node
    case Some(n) => (
      match n.tagName
      case Some(t) => t == tag
      case None => false)
    case None => false
  }

  function IsRootElement(b: LayoutBox): (r: bool)
    ensures r <==> !IsAnonymous(b) && b.node.value.tagName == Some("html")
  {
    HasTag(b, "html")
  }

  function IsBodyElement(b: LayoutBox): (r: bool)
    ensures r <==> !IsAnonymous(b) && b.node.value.tagName == Some("body")
  {
    HasTag(b, "body")
  }

  /** Inline-level, but with an inner display of flow-root. */
  function IsInlineBlock(b: LayoutBox): (r: bool)
    ensures r <==> IsInline(b) && !IsAnonymous(b) && b.node.value.display.Full?
                   && b.node.value.display.inner == FlowRoot
  {
    match b.node
    case Some(n) => (
      match n.display
      case Full(_, FlowRoot) => IsInline(b)
      case _ => false)
    case None => false
  }

  function IsPositioned(b: LayoutBox, p: Position): (r: bool)
    ensures r <==> !IsAnonymous(b) && b.node.value.position == Some(p)
  {
    match b.node
    case Some(n) => (
      match n.position
      case Some(pos) => pos == p
      case None => false)
    case None => false
  }

  /** Tags of the replaced elements. */
  const ReplacedTags: set<string> := {"video", "image", "img", "canvas"}

  function IsNonReplaced(b: LayoutBox): (r: bool)
    ensures !r <==> !IsAnonymous(b) && b.node.value.tagName.Some?
                    && b.node.value.tagName.value in ReplacedTags
  {
    match b.node
    case Some(n) => (
      match n.tagName
      case Some(t) => !(t == "video" || t == "image" || t == "img" || t == "canvas")
      case None => true)
    case None => true
  }

  /** Content height plus the top and bottom margin edges. */
  function MarginBoxHeight(b: LayoutBox): (r: real)
    ensures r == RectFrom(b.offset, b.contentSize).AddOuterEdges(b.boxModel.MarginBox()).height
  {
    var margin := b.boxModel.MarginBox();
    b.contentSize.height + margin.top + margin.bottom
  }

  /** Content width plus the left and right margin edges. */
  function MarginBoxWidth(b: LayoutBox): (r: real)
    ensures r == RectFrom(b.offset, b.contentSize).AddOuterEdges(b.boxModel.MarginBox()).width
  {
    var margin := b.boxModel.MarginBox();
    b.contentSize.width + margin.left + margin.right
  }

  function FriendlyName(b: LayoutBox): string
  {
    match b.data
    case BlockBox(_) => "BlockBox"
    case InlineContent(TextRun) => "TextRun"
    case InlineContent(_) => "InlineBox"
  }

  /** The line boxes of a block box; any other box has none to give. */
  function Lines(b: LayoutBox): (r: Result<seq<LineBox>, LayoutError>)
    ensures r.Ok? <==> IsBlock(b)
    ensures r.Ok? ==> r.value == b.data.lines
    ensures r.Err? ==> r.error == NoLineBoxes
  {
    match b.data
    case BlockBox(lines) => Ok(lines)
    case _ => Err(NoLineBoxes)
  }

  /** The assigned formatting context, which must have been set. */
  function FormattingContext(b: LayoutBox): (r: Result<FormattingContextType, LayoutError>)
    ensures r.Ok? <==> b.formattingContext.Some?
    ensures r.Ok? ==> b.formattingContext == Some(r.value)
    ensures r.Err? ==> r.error == MissingFormattingContext
  {
    match b.formattingContext
    case Some(c) => Ok(c)
    case None => Err(MissingFormattingContext)
  }

  /** A box without a render node answers every style-based query negatively. */
  lemma AnonymousQueries(b: LayoutBox)
    requires IsAnonymous(b)
    ensures forall p :: !IsPositioned(b, p)
    ensures !IsInlineBlock(b) && !IsRootElement(b) && !IsBodyElement(b)
    ensures IsNonReplaced(b)
  {
  }

  /** An element box made by `NewBox` is an inline block exactly for display (inline, flow-root). */
  lemma NewBoxInlineBlock(node: RenderNode)
    requires !node.isText && NewBox(node).Ok?
    ensures IsInlineBlock(NewBox(node).value) <==> node.display == Full(Inline, FlowRoot)
  {
  }

  /** The friendly name tells the three box kinds apart. */
  lemma FriendlyNameDistinguishesKinds(a: LayoutBox, b: LayoutBox)
    ensures FriendlyName(a) == FriendlyName(b) <==>
              (IsBlock(a) && IsBlock(b)) || (!IsBlock(a) && !IsBlock(b) && a.data.contents == b.data.contents)
  {
  }
}
