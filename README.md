# Layout box tree and command-line action of the Moon browser, in Dafny

This project models two parts of the Moon web browser:

- The layout box tree of `components/layout/src/layout_box.rs`.
  - Classifying a render node as a block box, an inline box or a text run.
  - The kind and attribute queries on a box.
  - Containing-block resolution by position scheme (static, relative, absolute, fixed, none).
  - Absolute geometry, derived by walking up the containing-block chain.
  - Applying explicit widths and heights against the containing block.
- The command-line action selection of `src/cli/action.rs`: `parse_size` and `get_action`.

Modules:

- `Wrappers` (`wrappers.dfy`): `Option`, `Result` and `Outcome`.
- `Geometry` (`geometry.dfy`): points, sizes, rectangles and box-model edges, as layout uses them.
- `Style` (`style.dfy`): the part of a render node that layout reads (text flag, tag, display, position, width, height). Only the display types that layout names are spelled out: outer block and inline, inner flow and flow-root. `OtherOuter`, `OtherInner` and `OtherDisplay` stand for every other display value, which layout only ever rejects.
- `LayoutBoxes` (`layout_box.dfy`): the box payload, its constructors and the queries that read one box.
- `LayoutTree` (`layout_tree.dfy`): the box tree as an arena of boxes addressed by index.
  - The queries that need parents and children are functions on a `Tree` value.
  - Class `BoxTree` holds the tree. Its methods write offsets and content sizes in place, and compute absolute rectangles with the source's upward `while` loop.
- `CliAction` (`cli_action.dfy`): splitting, number parsing, `ParseSize` and `GetAction`.

Modelling choices:

- A panic in the source becomes an error value.
  - `unimplemented!` for an unsupported display gives `UnsupportedDisplay`.
  - `unreachable!` in `lines` gives `NoLineBoxes`.
  - `expect` in `formatting_context` gives `MissingFormattingContext`.
  - `unwrap` of the containing block gives `MissingContainingBlock`.
  - `expect("Required")` gives `MissingArgument`.
  - The slice-pattern `unreachable!` gives `MalformedSize`.
- Tree links: a box's parent has a smaller index than the box, and each child lists that box as its parent. Any finite tree can be numbered this way. The numbering makes every upward walk terminate.
- Lengths are `f32` in the source and `real` here.
- `Value::to_px` is not part of this model. It is passed to `ApplyExplicitSizes` as an uninterpreted function of the computed value and the base length.
- In two places the code does something other than the usual reading of the containing-block rules. The model follows the code.
  - One might expect only the root to lack a containing block. The code returns none whenever no ancestor passes the scheme's test.
  - One might expect an absolutely positioned box to take the nearest ancestor positioned relative, absolute or fixed. The code takes the nearest ancestor that is not positioned `static`. That includes anonymous boxes and boxes whose position value is not a position (`AbsoluteBoxStopsAtAnonymousParent`).

## Model

| member | source | states |
|---|---|---|
| LayoutBoxes.NewBox | components/layout/src/layout_box.rs:68-117 | The box kinds are the ones built by `block_box`, `inline_box` and `text_run`. A text node becomes a text run. Display (block, flow) becomes a block box with no lines. (inline, flow) and (inline, flow-root) become an inline box. Every other display fails with that display. A new box keeps its node, is not anonymous, and starts with zero box model, offset and size and no formatting context. |
| LayoutBoxes.NewAnonymous | components/layout/src/layout_box.rs:119-128 | The box has the given kind and no node, so it is anonymous. It starts with zero box model, offset and size and no formatting context. |
| LayoutBoxes.IsRootElement | components/layout/src/layout_box.rs:132-140 | True exactly for a box with a node whose element tag is `html`. |
| LayoutBoxes.IsBodyElement | components/layout/src/layout_box.rs:142-150 | True exactly for a box with a node whose element tag is `body`. |
| LayoutBoxes.IsInline | components/layout/src/layout_box.rs:208-220 | `is_inline` is the exact complement of `is_block`. |
| LayoutBoxes.CanHaveChildren | components/layout/src/layout_box.rs:201-206 | False exactly for a text run. |
| LayoutBoxes.IsInlineBlock | components/layout/src/layout_box.rs:222-230 | True exactly for an inline-level box with a node whose display is full and whose inner type is flow-root. |
| LayoutBoxes.IsPositioned | components/layout/src/layout_box.rs:232-240 | True exactly when the box has a node whose position value equals the given scheme. |
| LayoutBoxes.IsNonReplaced | components/layout/src/layout_box.rs:242-253 | False exactly for element boxes tagged video, image, img or canvas. |
| LayoutBoxes.AnonymousQueries | components/layout/src/layout_box.rs:132-253 | A box is anonymous when it has no node. An anonymous box is positioned under no scheme. It is not an inline block, not the root element and not the body element. It is non-replaced. |
| LayoutBoxes.NewBoxInlineBlock | components/layout/src/layout_box.rs:96-98 | An element box made from a node is an inline block exactly when its display is (inline, flow-root). |
| LayoutBoxes.MarginBoxHeight | components/layout/src/layout_box.rs:280-283 | The height of the content rectangle grown by the margin edges. |
| LayoutBoxes.MarginBoxWidth | components/layout/src/layout_box.rs:285-288 | The width of the content rectangle grown by the margin edges. |
| LayoutBoxes.FriendlyNameDistinguishesKinds | components/layout/src/layout_box.rs:322-328 | Two boxes get the same name exactly when they are of the same kind. |
| LayoutBoxes.FormattingContext | components/layout/src/layout_box.rs:330-335 | Returns the assigned context. Fails exactly when none is set. |
| LayoutBoxes.Lines | components/layout/src/layout_box.rs:360-365 | Returns the line list of a block box. Fails exactly on any other box. |
| LayoutTree.AllInline | components/layout/src/layout_box.rs:157-158 | True exactly when every listed child is inline-level. |
| LayoutTree.ChildrenAreInline | components/layout/src/layout_box.rs:156-159 | True exactly when every child is inline-level. Vacuously true with no children. |
| LayoutTree.BlockContainerMeaning | components/layout/src/layout_box.rs:161-172 | A box is a block container exactly when some child is block-level, or all children are inline and its own context is an inline formatting context. |
| LayoutTree.Ancestors | components/layout/src/layout_box.rs:176-181 | The strict ancestors, nearest first: each one is the parent of the previous one, and the last one has no parent. |
| LayoutTree.FindFirstAncestor | components/layout/src/layout_box.rs:176-181 | A result is a strict ancestor that passes the test. |
| LayoutTree.FindFirstAncestorIsNearest | components/layout/src/layout_box.rs:176-181 | The result passes the test and no nearer ancestor does. The result is none exactly when no ancestor passes. |
| LayoutTree.ContainingBlock | components/layout/src/layout_box.rs:174-199 | A strict ancestor (a smaller index). None for a box without a parent. |
| LayoutTree.ContainingBlockRule | components/layout/src/layout_box.rs:174-199 | The containing block is the nearest ancestor passing the scheme's test. Static and relative boxes take a block container or a box with a context. Absolute boxes take a box that is not static. Fixed boxes take a parentless box. Boxes with no position take a block container. The result is none exactly when no ancestor passes. |
| LayoutTree.FixedBoxContainedByRoot | components/layout/src/layout_box.rs:190-194 | A fixed box that has a parent has the root of its tree as containing block. |
| LayoutTree.AbsoluteBoxStopsAtAnonymousParent | components/layout/src/layout_box.rs:184-188 | An absolute box under an anonymous parent takes that parent as containing block. |
| LayoutTree.ContainingBlockIgnoresGeometry | components/layout/src/layout_box.rs:174-199 | Containing blocks depend only on structure, kinds, nodes and contexts. Writing offsets or sizes never moves them. |
| LayoutTree.ContainingChain | components/layout/src/layout_box.rs:293-298 | The boxes the upward walk visits. Each one has a smaller index, and the walk is empty exactly when the box has no containing block. |
| LayoutTree.ChainWithinAncestors | components/layout/src/layout_box.rs:293-298 | The walk visits only ancestors and takes at most as many steps as the box's depth. |
| LayoutTree.NestedBlocksContainingBlocks | components/layout/src/layout_box.rs:174-199 | In three nested static blocks, each block's containing block is its parent and the root has none. |
| LayoutTree.NestedBlocksAbsoluteOrigin | components/layout/src/layout_box.rs:290-301 | Three nested static blocks at (0, 0), (10, 20) and (5, 5): the innermost one's chain is its parent, then the root, and its absolute origin is (15, 25). |
| LayoutTree.DumpBodyOf | components/layout/src/layout_box.rs:397-405 | A dump lists the line boxes exactly for a block box whose children are inline. Otherwise it lists the children. |
| LayoutTree.BoxTree.SetContentWidth | components/layout/src/layout_box.rs:263-265 | Only the content width of that box changes. |
| LayoutTree.BoxTree.SetContentHeight | components/layout/src/layout_box.rs:267-269 | Only the content height of that box changes. |
| LayoutTree.BoxTree.SetOffset | components/layout/src/layout_box.rs:271-274 | Only the offset of that box changes. |
| LayoutTree.BoxTree.AbsoluteRect | components/layout/src/layout_box.rs:290-301 | Width and height are the content size. The origin is the box's own offset plus the offset of every box on its containing-block chain. |
| LayoutTree.BoxTree.AbsoluteLocation | components/layout/src/layout_box.rs:303-306 | The origin of the absolute rectangle. |
| LayoutTree.BoxTree.PaddingBoxAbsolute | components/layout/src/layout_box.rs:313-316 | The absolute rectangle grown by the padding edges on all four sides. |
| LayoutTree.BoxTree.BorderBoxAbsolute | components/layout/src/layout_box.rs:308-311 | The padding-box rectangle grown by the border edges on all four sides. |
| LayoutTree.BoxTree.ApplyExplicitSizes | components/layout/src/layout_box.rs:337-358 | With no containing block it fails and changes nothing, even for inline boxes. Inline boxes that are not inline blocks, anonymous boxes and `auto` axes keep their size. Every other axis becomes `to_px` of its computed value and the containing block's content size on that axis. Nothing else changes. |
| CliAction.JoinSplit | src/cli/action.rs:38 | Joining the pieces with the separator gives back the input. |
| CliAction.SplitJoin | src/cli/action.rs:38 | Splitting undoes joining pieces that do not contain the separator. |
| CliAction.SplitPiecesHaveNoSep | src/cli/action.rs:38 | No piece produced by splitting on `x` contains an `x`. |
| CliAction.SplitAround | src/cli/action.rs:38 | Splitting at one separator splits each side on its own and concatenates the pieces. |
| CliAction.ParseU32 | src/cli/action.rs:39 | An accepted piece is a non-empty digit string, or `+` followed by one. |
| CliAction.ParseU32OfDigits | src/cli/action.rs:39 | Every non-empty digit string, leading zeros included, parses to its value exactly when that is at most 4294967295. A leading `+` gives the same result. |
| CliAction.ParseU32OfShow | src/cli/action.rs:39 | A decimal number, with or without a `+`, parses back to itself exactly when it is at most 4294967295. |
| CliAction.ParseU32Rejects | src/cli/action.rs:39 | Empty, `+`, negative and non-numeric pieces do not parse. |
| CliAction.AcceptedOne | src/cli/action.rs:39 | A single piece contributes its number when it parses and nothing otherwise. With `AcceptedAppend` this fixes the filtered list for every input. |
| CliAction.AcceptedAppend | src/cli/action.rs:39 | Filtering distributes over concatenation, so the order is kept. |
| CliAction.ParseSize | src/cli/action.rs:36-47 | Succeeds exactly when at least two pieces parse, and gives the first two. Otherwise it fails. |
| CliAction.ParseSizeOfRendered | src/cli/action.rs:36-47 | `W` `x` `H` written in decimal parses back to (W, H). |
| CliAction.ParseSizeSkipsUnparsed | src/cli/action.rs:37-39 | A leading piece that does not parse is skipped. |
| CliAction.ParseSizeSkipsUnparsedBetween | src/cli/action.rs:37-39 | A piece between two others that does not parse is skipped. |
| CliAction.ParseSizeIgnoresTail | src/cli/action.rs:40-44 | Once a size parses, anything appended after another `x` is ignored. |
| CliAction.ParseSizeExampleSimple | src/cli/action.rs:36-47 | `800x600` gives (800, 600). |
| CliAction.ParseSizeExampleTail | src/cli/action.rs:36-47 | `1x2x3` gives (1, 2). |
| CliAction.ParseSizeExampleTooFew | src/cli/action.rs:43-46 | `800` and the empty string fail. |
| CliAction.GetAction | src/cli/action.rs:14-34 | Without the render subcommand the result is `StartMain`. Otherwise a missing html, size or output argument fails, in that order, and a malformed size fails. A well-formed size gives `RenderOnce` with html, size and output copied when `--once` is set, and `StartMain` when it is not. |
| CliAction.MalformedSizeFailsWithoutOnce | src/cli/action.rs:20-24 | A malformed size fails even without `--once`, because the size is parsed before the flag is looked at. |

## Left out

- Formatting-context and line-breaking algorithms: `FormattingContext` and `LineBox` are not part of this model. A context is only its type tag, and a line box is an opaque record.
- Writing line boxes and assigning formatting contexts happen outside `layout_box.rs`. `BoxTree` has no method for either.
- `get_style` for the display property returning a value that is not a display (the `unreachable!` at line 104) is not modelled: a node's display is always a display value.
- `Rect::translate`, `Rect::add_outer_edges` and `BoxModel` are not part of this model. They are assumed to shift the origin, to grow a rectangle on all four sides, and, for `margin_box`, `padding_box` and `border_box`, to give the margin, padding and border edges.
- `f32` rounding, NaN and infinities: lengths are reals.
- `dump`: the text it prints (float formatting, `Debug` output, indentation) is left out. Only its choice between lines and children is modelled.
- The plain getters `box_model`, `content_size`, `offset` and `render_node` are field reads of the datatype.
- `Rc`, `RefCell` and `Deref`: a box is an arena entry, and shared ownership is access by index.
- The tree facility (`TreeNode`, `find_first_ancestor`, `iterate_children`) is not part of this model. The arena's `parent` and `children` fields stand for it.
- The argument parser (clap) is not part of this model. `ArgMatches` is a record of the optional render subcommand's arguments and its `once` flag.
