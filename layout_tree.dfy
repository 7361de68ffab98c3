/**
 * The layout box tree as an arena: box `i` has payload `boxes[i]`, parent
 * `parent[i]` and ordered children `children[i]`. Parents are numbered before
 * their children, which makes every upward walk terminate.
 *
 * The queries that need the tree (children, ancestors) are functions on a
 * `Tree` value; `BoxTree` holds the tree whose geometry layout writes in place.
 */
module LayoutTree {
  import opened Wrappers
  import opened Geometry
  import opened Style
  import opened LayoutBoxes

  datatype Tree = Tree(boxes: seq<LayoutBox>, parent: seq<Option<nat>>, children: seq<seq<nat>>)

  /** The parent and child links describe one forest, with parents numbered first. */
  ghost predicate WellFormed(t: Tree)
  {
    && |t.parent| == |t.boxes|
    && |t.children| == |t.boxes|
    && (forall i :: 0 <= i < |t.parent| && t.parent[i].Some? ==> t.parent[i].value < i)
    && (forall i, k :: 0 <= i < |t.children| && 0 <= k < |t.children[i]| ==>
          i < t.children[i][k] < |t.boxes| && t.parent[t.children[i][k]] == Some(i))
  }

  /** The strict ancestors of box `i`, nearest first, ending at a box with no parent. */
  function Ancestors(t: Tree, i: nat): (r: seq<nat>)
    requires WellFormed(t) && i < |t.boxes|
    ensures forall k :: 0 <= k < |r| ==> r[k] < i
    ensures r == [] <==> t.parent[i].None?
    ensures r != [] ==> t.parent[i] == Some(r[0]) && t.parent[r[|r| - 1]].None?
    ensures forall k {:trigger t.parent[r[k]]} :: 0 <= k < |r| - 1 ==> t.parent[r[k]] == Some(r[k + 1])
    decreases i
  {
    match t.parent[i]
    case None => []
    case Some(p) => [p] + Ancestors(t, p)
  }

  /** True when every box in `cs` is inline-level. */
  function AllInline(t: Tree, cs: seq<nat>): (r: bool)
    requires forall k :: 0 <= k < |cs| ==> cs[k] < |t.boxes|
    ensures r <==> forall k :: 0 <= k < |cs| ==> IsInline(t.boxes[cs[k]])
  {
    if cs == [] then true else IsInline(t.boxes[cs[0]]) && AllInline(t, cs[1..])
  }

  function ChildrenAreInline(t: Tree, i: nat): (r: bool)
    requires WellFormed(t) && i < |t.boxes|
    ensures t.children[i] == [] ==> r
    ensures r <==> forall k :: 0 <= k < |t.children[i]| ==> IsInline(t.boxes[t.children[i][k]])
  {
    AllInline(t, t.children[i])
  }

  /**
   * A block container: some child is block-level, or all children are inline
   * and the box's own formatting context is an inline formatting context.
   */
  function IsBlockContainer(t: Tree, i: nat): bool
    requires WellFormed(t) && i < |t.boxes|
  {
    var isBlock := !ChildrenAreInline(t, i);
    var isInlineBlock := ChildrenAreInline(t, i) &&
      match t.boxes[i].formattingContext
      case Some(context) => context == InlineFormattingContext
      case _ => false;
    isBlock || isInlineBlock
  }

  lemma BlockContainerMeaning(t: Tree, i: nat)
    requires WellFormed(t) && i < |t.boxes|
    ensures IsBlockContainer(t, i) <==>
      || (exists k :: 0 <= k < |t.children[i]| && IsBlock(t.boxes[t.children[i][k]]))
      || ((forall k :: 0 <= k < |t.children[i]| ==> IsInline(t.boxes[t.children[i][k]]))
          && t.boxes[i].formattingContext == Some(InlineFormattingContext))
  {
  }

  /** The ancestor tests that `containing_block` searches with. */
  datatype Search = BlockContainerOrContext | NotStatic | Parentless | BlockContainer

  /** Whether box `a` passes the ancestor test `rule`. */
  function Holds(t: Tree, a: nat, rule: Search): bool
    requires WellFormed(t) && a < |t.boxes|
  {
    match rule
    case BlockContainerOrContext => IsBlockContainer(t, a) || t.boxes[a].formattingContext.Some?
    case NotStatic => !IsPositioned(t.boxes[a], Static)
    case Parentless => t.parent[a].None?
    case BlockContainer => IsBlockContainer(t, a)
  }

  /** The ancestor test for a box, by its position scheme. */
  function SchemeRule(b: LayoutBox): Search
  {
    match b.node
    case None => BlockContainer
    case Some(n) => (
      match n.position
      case Some(Static) => BlockContainerOrContext
      case Some(Relative) => BlockContainerOrContext
      case Some(Absolute) => NotStatic
      case Some(Fixed) => Parentless
      case None => BlockContainer)
  }

  /** `a` is the nearest entry of `ancestors` that passes `rule`. */
  ghost predicate FirstPassing(t: Tree, ancestors: seq<nat>, a: nat, rule: Search)
    requires WellFormed(t) && forall k :: 0 <= k < |ancestors| ==> ancestors[k] < |t.boxes|
  {
    exists k :: 0 <= k < |ancestors| && ancestors[k] == a && Holds(t, a, rule) &&
      forall j :: 0 <= j < k ==> !Holds(t, ancestors[j], rule)
  }

  /** No entry of `ancestors` passes `rule`. */
  ghost predicate NonePassing(t: Tree, ancestors: seq<nat>, rule: Search)
    requires WellFormed(t) && forall k :: 0 <= k < |ancestors| ==> ancestors[k] < |t.boxes|
  {
    forall k :: 0 <= k < |ancestors| ==> !Holds(t, ancestors[k], rule)
  }

  /** The nearest strict ancestor of `i` that passes `rule`; `FindFirstAncestorIsNearest` proves it. */
  function FindFirstAncestor(t: Tree, i: nat, rule: Search): (r: Option<nat>)
    requires WellFormed(t) && i < |t.boxes|
    ensures r.Some? ==> r.value < i && Holds(t, r.value, rule)
    decreases i
  {
    match t.parent[i]
    case None => None
    case Some(p) => if Holds(t, p, rule) then Some(p) else FindFirstAncestor(t, p, rule)
  }

  /**
   * The search finds a strict ancestor that passes the test and is nearer than
   * every other passing ancestor, and finds nothing exactly when no ancestor passes.
   */
  lemma {:induction false} FindFirstAncestorIsNearest(t: Tree, i: nat, rule: Search)
    requires WellFormed(t) && i < |t.boxes|
    ensures FindFirstAncestor(t, i, rule).None? <==> NonePassing(t, Ancestors(t, i), rule)
    ensures FindFirstAncestor(t, i, rule).Some? ==>
              FirstPassing(t, Ancestors(t, i), FindFirstAncestor(t, i, rule).value, rule)
    decreases i
  {
    match t.parent[i]
    case None =>
    case Some(p) =>
      if Holds(t, p, rule) {
        assert Ancestors(t, i)[0] == p;
      } else {
        FindFirstAncestorIsNearest(t, p, rule);
        PassingSkipsParent(t, p, Ancestors(t, p), rule, FindFirstAncestor(t, p, rule));
      }
  }

  /** Prepending an ancestor that fails the test keeps the nearest passing one. */
  lemma PassingSkipsParent(t: Tree, p: nat, B: seq<nat>, rule: Search, r: Option<nat>)
    requires WellFormed(t) && p < |t.boxes| && forall k :: 0 <= k < |B| ==> B[k] < |t.boxes|
    requires !Holds(t, p, rule)
    requires r.None? <==> NonePassing(t, B, rule)
    requires r.Some? ==> FirstPassing(t, B, r.value, rule)
    ensures r.None? <==> NonePassing(t, [p] + B, rule)
    ensures r.Some? ==> FirstPassing(t, [p] + B, r.value, rule)
  {
    var A := [p] + B;
    if r.Some? {
      var k :| 0 <= k < |B| && B[k] == r.value && Holds(t, r.value, rule) &&
        forall j :: 0 <= j < k ==> !Holds(t, B[j], rule);
      assert A[k + 1] == r.value;
      assert forall j :: 0 <= j < k + 1 ==> !Holds(t, A[j], rule) by {
        forall j | 0 <= j < k + 1 ensures !Holds(t, A[j], rule) {
          if j > 0 { assert A[j] == B[j - 1]; }
        }
      }
    } else {
      forall j | 0 <= j < |A| ensures !Holds(t, A[j], rule) {
        if j > 0 { assert A[j] == B[j - 1]; }
      }
    }
  }

  /**
   * The containing block of box `i`: a strict ancestor, and none for a box
   * without parent. `ContainingBlockRule` states which ancestor it is.
   */
  function ContainingBlock(t: Tree, i: nat): (r: Option<nat>)
    requires WellFormed(t) && i < |t.boxes|
    ensures r.Some? ==> r.value < i
    ensures t.parent[i].None? ==> r.None?
  {
    FindFirstAncestor(t, i, PositionTest(t.boxes[i]))
  }

  /** The ancestor test `containing_block` picks, checking the schemes in its order. */
  function PositionTest(b: LayoutBox): Search
  {
    if IsPositioned(b, Static) || IsPositioned(b, Relative) then BlockContainerOrContext
    else if IsPositioned(b, Absolute) then NotStatic
    else if IsPositioned(b, Fixed) then Parentless
    else BlockContainer
  }

  /**
   * The containing block is the nearest strict ancestor that passes the test
   * of the box's position scheme, and none when no ancestor passes it.
   */
  lemma ContainingBlockRule(t: Tree, i: nat)
    requires WellFormed(t) && i < |t.boxes|
    ensures ContainingBlock(t, i).None? <==> NonePassing(t, Ancestors(t, i), SchemeRule(t.boxes[i]))
    ensures ContainingBlock(t, i).Some? ==>
              FirstPassing(t, Ancestors(t, i), ContainingBlock(t, i).value, SchemeRule(t.boxes[i]))
  {
    var b := t.boxes[i];
    if b.node.Some? && b.node.value.position.Some? {
      assert IsPositioned(b, b.node.value.position.value);
    }
    assert PositionTest(b) == SchemeRule(b);
    FindFirstAncestorIsNearest(t, i, SchemeRule(b));
  }

  /** The boxes visited by repeatedly taking the containing block, starting from `i`. */
  function ContainingChain(t: Tree, i: nat): (r: seq<nat>)
    requires WellFormed(t) && i < |t.boxes|
    ensures forall k :: 0 <= k < |r| ==> r[k] < i
    ensures r == [] <==> ContainingBlock(t, i).None?
    decreases i
  {
    match ContainingBlock(t, i)
    case None => []
    case Some(c) => [c] + ContainingChain(t, c)
  }

  /** The sum of the offsets of the boxes in `chain`. */
  function OffsetSum(t: Tree, chain: seq<nat>): Point
    requires forall k :: 0 <= k < |chain| ==> chain[k] < |t.boxes|
  {
    if chain == [] then Point(0.0, 0.0)
    else
      var last := t.boxes[chain[|chain| - 1]].offset;
      var rest := OffsetSum(t, chain[..|chain| - 1]);
      Point(rest.x + last.x, rest.y + last.y)
  }

  lemma OffsetSumAppend(t: Tree, chain: seq<nat>, c: nat)
    requires c < |t.boxes| && forall k :: 0 <= k < |chain| ==> chain[k] < |t.boxes|
    ensures OffsetSum(t, chain + [c]) ==
              Point(OffsetSum(t, chain).x + t.boxes[c].offset.x, OffsetSum(t, chain).y + t.boxes[c].offset.y)
  {
    assert (chain + [c])[..|chain|] == chain;
  }

  /** A cursor of the upward walk: none, or a box of the tree. */
  ghost predicate ChainFrom(t: Tree, cursor: Option<nat>)
  {
    cursor.Some? ==> cursor.value < |t.boxes|
  }

  /** The boxes the upward walk still has to visit from `cursor`. */
  ghost function Remaining(t: Tree, cursor: Option<nat>): seq<nat>
    requires WellFormed(t) && ChainFrom(t, cursor)
  {
    match cursor
    case None => []
    case Some(c) => [c] + ContainingChain(t, c)
  }

  /** One step of the walk moves `c` from the remaining boxes to the visited ones. */
  lemma WalkStep(t: Tree, walked: seq<nat>, c: nat)
    requires WellFormed(t) && c < |t.boxes| && forall k :: 0 <= k < |walked| ==> walked[k] < |t.boxes|
    ensures ChainFrom(t, ContainingBlock(t, c))
    ensures walked + Remaining(t, Some(c)) == (walked + [c]) + Remaining(t, ContainingBlock(t, c))
    ensures |Remaining(t, ContainingBlock(t, c))| < |Remaining(t, Some(c))|
  {
    assert Remaining(t, Some(c)) == [c] + Remaining(t, ContainingBlock(t, c));
  }

  /** The ancestors of the `k`-th ancestor are the ancestors after it. */
  lemma {:induction false} AncestorsSuffix(t: Tree, i: nat, k: nat)
    requires WellFormed(t) && i < |t.boxes| && k < |Ancestors(t, i)|
    ensures Ancestors(t, Ancestors(t, i)[k]) == Ancestors(t, i)[k + 1..]
    decreases i
  {
    var p := t.parent[i].value;
    ConsShift(p, Ancestors(t, p), k);
    if k > 0 {
      AncestorsSuffix(t, p, k - 1);
    }
  }

  /** Indexing past a prepended element. */
  lemma ConsShift(p: nat, rest: seq<nat>, k: nat)
    requires k <= |rest|
    ensures k > 0 ==> ([p] + rest)[k] == rest[k - 1]
    ensures ([p] + rest)[k + 1..] == rest[k..]
  {
  }

  /**
   * The containing-block chain only visits ancestors and is no
   * longer than the depth of the box: the walk reaches its end in at most
   * depth steps.
   */
  lemma {:induction false} ChainWithinAncestors(t: Tree, i: nat)
    requires WellFormed(t) && i < |t.boxes|
    ensures |ContainingChain(t, i)| <= |Ancestors(t, i)|
    ensures forall c :: c in ContainingChain(t, i) ==> c in Ancestors(t, i)
    decreases i
  {
    match ContainingBlock(t, i)
    case None =>
    case Some(c) =>
      var A := Ancestors(t, i);
      ContainingBlockRule(t, i);
      var k :| 0 <= k < |A| && A[k] == c && Holds(t, c, SchemeRule(t.boxes[i]));
      AncestorsSuffix(t, i, k);
      ChainWithinAncestors(t, c);
      forall d | d in ContainingChain(t, i)
        ensures d in A
      {
        if d != c {
          assert d in ContainingChain(t, c);
          assert d in A[k + 1..];
        }
      }
  }

  /** A fixed-position box that is not a root has the root of its tree as containing block. */
  lemma FixedBoxContainedByRoot(t: Tree, i: nat)
    requires WellFormed(t) && i < |t.boxes|
    requires IsPositioned(t.boxes[i], Fixed) && t.parent[i].Some?
    ensures var A := Ancestors(t, i);
      ContainingBlock(t, i) == Some(A[|A| - 1]) && t.parent[A[|A| - 1]].None?
  {
    var A := Ancestors(t, i);
    assert Holds(t, A[|A| - 1], Parentless);
    ContainingBlockRule(t, i);
  }

  /**
   * An absolutely positioned box whose parent is anonymous gets that parent as
   * containing block: an anonymous box is not positioned `static`.
   */
  lemma AbsoluteBoxStopsAtAnonymousParent(t: Tree, i: nat)
    requires WellFormed(t) && i < |t.boxes|
    requires IsPositioned(t.boxes[i], Absolute)
    requires t.parent[i].Some? && IsAnonymous(t.boxes[t.parent[i].value])
    ensures ContainingBlock(t, i) == t.parent[i]
  {
  }

  /**
   * Containing blocks do not depend on geometry: two trees with the same
   * structure, kinds, nodes and formatting contexts agree on them.
   */
  lemma {:induction false} ContainingBlockIgnoresGeometry(t: Tree, u: Tree, i: nat)
    requires WellFormed(t) && u.parent == t.parent && u.children == t.children
    requires |u.boxes| == |t.boxes|
    requires forall j :: 0 <= j < |t.boxes| ==>
      u.boxes[j].data == t.boxes[j].data && u.boxes[j].node == t.boxes[j].node &&
      u.boxes[j].formattingContext == t.boxes[j].formattingContext
    requires i < |t.boxes|
    ensures WellFormed(u) && ContainingBlock(u, i) == ContainingBlock(t, i)
  {
    var rule := SchemeRule(t.boxes[i]);
    assert SchemeRule(u.boxes[i]) == rule;
    FindFirstAncestorIgnoresGeometry(t, u, i, rule);
  }

  lemma {:induction false} FindFirstAncestorIgnoresGeometry(t: Tree, u: Tree, i: nat, rule: Search)
    requires WellFormed(t) && u.parent == t.parent && u.children == t.children
    requires |u.boxes| == |t.boxes|
    requires forall j :: 0 <= j < |t.boxes| ==>
      u.boxes[j].data == t.boxes[j].data && u.boxes[j].node == t.boxes[j].node &&
      u.boxes[j].formattingContext == t.boxes[j].formattingContext
    requires i < |t.boxes|
    ensures WellFormed(u) && FindFirstAncestor(u, i, rule) == FindFirstAncestor(t, i, rule)
    decreases i
  {
    match t.parent[i]
    case None =>
    case Some(p) =>
      assert ChildrenAreInline(u, p) == ChildrenAreInline(t, p);
      assert Holds(u, p, rule) == Holds(t, p, rule);
      FindFirstAncestorIgnoresGeometry(t, u, p, rule);
  }

  /** A statically positioned block element at `offset`, as layout leaves it. */
  function StaticBlock(offset: Point): LayoutBox
  {
    var node := RenderNode(false, Some("div"), Full(Block, Flow), Some(Static), Auto, Auto);
    LayoutBox(BlockBox([]), Some(node), ZeroBoxModel, offset, Size(0.0, 0.0), None)
  }

  /** Three nested static blocks: the root at (0, 0), a child at (10, 20) and a grandchild at (5, 5). */
  function NestedBlocks(): Tree
  {
    Tree([StaticBlock(Point(0.0, 0.0)), StaticBlock(Point(10.0, 20.0)), StaticBlock(Point(5.0, 5.0))],
         [None, Some(0), Some(1)], [[1], [2], []])
  }

  /** In `NestedBlocks` each block's containing block is its parent. */
  lemma NestedBlocksContainingBlocks()
    ensures WellFormed(NestedBlocks())
    ensures ContainingBlock(NestedBlocks(), 2) == Some(1)
    ensures ContainingBlock(NestedBlocks(), 1) == Some(0)
    ensures ContainingBlock(NestedBlocks(), 0) == None
  {
    var t := NestedBlocks();
    assert IsBlockContainer(t, 0) by { assert !IsInline(t.boxes[t.children[0][0]]); }
    assert IsBlockContainer(t, 1) by { assert !IsInline(t.boxes[t.children[1][0]]); }
  }

  /**
   * The grandchild's containing blocks are the child and then the root, so its
   * absolute origin is (15, 25).
   */
  lemma NestedBlocksAbsoluteOrigin()
    ensures var t := NestedBlocks();
            && WellFormed(t)
            && ContainingChain(t, 2) == [1, 0]
            && t.boxes[2].offset.x + OffsetSum(t, [1, 0]).x == 15.0
            && t.boxes[2].offset.y + OffsetSum(t, [1, 0]).y == 25.0
  {
    NestedBlocksContainingBlocks();
    assert [1, 0][..1] == [1];
  }

  /** What a debug dump of a box lists below it. */
  datatype DumpBody = LinesBelow(lines: seq<LineBox>) | ChildrenBelow(children: seq<nat>)

  /** A block box with inline children lists its line boxes; every other box lists its children. */
  function DumpBodyOf(t: Tree, i: nat): (r: DumpBody)
    requires WellFormed(t) && i < |t.boxes|
    ensures r.LinesBelow? <==> IsBlock(t.boxes[i]) && ChildrenAreInline(t, i)
    ensures r.LinesBelow? ==> Lines(t.boxes[i]) == Ok(r.lines)
    ensures r.ChildrenBelow? ==> r.children == t.children[i]
  {
    if IsBlock(t.boxes[i]) && ChildrenAreInline(t, i) then
      LinesBelow(Lines(t.boxes[i]).value)
    else
      ChildrenBelow(t.children[i])
  }

  /** A layout tree whose box geometry is written in place during layout. */
  class BoxTree {
    var tree: Tree

    ghost predicate Valid()
      reads this
    {
      WellFormed(tree)
    }

    constructor (t: Tree)
      requires WellFormed(t)
      ensures Valid() && tree == t
    {
      tree := t;
    }

    method SetContentWidth(i: nat, width: real)
      requires Valid() && i < |tree.boxes|
      modifies this
      ensures Valid()
      ensures tree == old(tree).(boxes := old(tree).boxes[i := old(tree).boxes[i].(
                contentSize := Size(width, old(tree).boxes[i].contentSize.height))])
    {
      var b := tree.boxes[i];
      tree := tree.(boxes := tree.boxes[i := b.(contentSize := b.contentSize.(width := width))]);
    }

    method SetContentHeight(i: nat, height: real)
      requires Valid() && i < |tree.boxes|
      modifies this
      ensures Valid()
      ensures tree == old(tree).(boxes := old(tree).boxes[i := old(tree).boxes[i].(
                contentSize := Size(old(tree).boxes[i].contentSize.width, height))])
    {
      var b := tree.boxes[i];
      tree := tree.(boxes := tree.boxes[i := b.(contentSize := b.contentSize.(height := height))]);
    }

    method SetOffset(i: nat, x: real, y: real)
      requires Valid() && i < |tree.boxes|
      modifies this
      ensures Valid()
      ensures tree == old(tree).(boxes := old(tree).boxes[i := old(tree).boxes[i].(offset := Point(x, y))])
    {
      var b := tree.boxes[i];
      tree := tree.(boxes := tree.boxes[i := b.(offset := b.offset.(x := x))]);
      b := tree.boxes[i];
      tree := tree.(boxes := tree.boxes[i := b.(offset := b.offset.(y := y))]);
    }

    /**
     * The content rectangle of box `i` in the coordinates of its tree's root:
     * its own offset plus the offsets of every box on its containing-block chain.
     */
    method AbsoluteRect(i: nat) returns (r: Rect)
      requires Valid() && i < |tree.boxes|
      ensures r.width == tree.boxes[i].contentSize.width
      ensures r.height == tree.boxes[i].contentSize.height
      ensures r.x == tree.boxes[i].offset.x + OffsetSum(tree, ContainingChain(tree, i)).x
      ensures r.y == tree.boxes[i].offset.y + OffsetSum(tree, ContainingChain(tree, i)).y
    {
      var t := tree;
      var b := t.boxes[i];
      r := RectFrom(b.offset, b.contentSize);
      var containingBlock: Option<nat> := ContainingBlock(t, i);
      ghost var walked: seq<nat> := [];
      while containingBlock.Some?
        invariant WellFormed(t) && ChainFrom(t, containingBlock)
        invariant forall k :: 0 <= k < |walked| ==> walked[k] < |t.boxes|
        invariant walked + Remaining(t, containingBlock) == ContainingChain(t, i)
        invariant r.width == b.contentSize.width && r.height == b.contentSize.height
        invariant r.x == b.offset.x + OffsetSum(t, walked).x && r.y == b.offset.y + OffsetSum(t, walked).y
        decreases |Remaining(t, containingBlock)|
      {
        var block := containingBlock.value;
        var blockOffset := t.boxes[block].offset;
        r := r.Translate(blockOffset.x, blockOffset.y);
        WalkStep(t, walked, block);
        OffsetSumAppend(t, walked, block);
        walked := walked + [block];
        containingBlock := ContainingBlock(t, block);
      }
      assert walked + Remaining(t, containingBlock) == walked;
    }

    method AbsoluteLocation(i: nat) returns (p: Point)
      requires Valid() && i < |tree.boxes|
      ensures p.x == tree.boxes[i].offset.x + OffsetSum(tree, ContainingChain(tree, i)).x
      ensures p.y == tree.boxes[i].offset.y + OffsetSum(tree, ContainingChain(tree, i)).y
    {
      var rect := AbsoluteRect(i);
      p := Point(rect.x, rect.y);
    }

    /** The absolute content rectangle grown by the padding edges. */
    method PaddingBoxAbsolute(i: nat) returns (r: Rect)
      requires Valid() && i < |tree.boxes|
      ensures var chain := OffsetSum(tree, ContainingChain(tree, i));
              var b := tree.boxes[i];
              var pad := b.boxModel.PaddingBox();
              r == Rect(b.offset.x + chain.x - pad.left, b.offset.y + chain.y - pad.top,
                        b.contentSize.width + pad.left + pad.right,
                        b.contentSize.height + pad.top + pad.bottom)
    {
      var padding := tree.boxes[i].boxModel.PaddingBox();
      var rect := AbsoluteRect(i);
      r := rect.AddOuterEdges(padding);
    }

    /** The absolute padding rectangle grown by the border edges. */
    method BorderBoxAbsolute(i: nat) returns (r: Rect)
      requires Valid() && i < |tree.boxes|
      ensures var chain := OffsetSum(tree, ContainingChain(tree, i));
              var b := tree.boxes[i];
              var pad := b.boxModel.PaddingBox();
              var border := b.boxModel.BorderBox();
              r == Rect(b.offset.x + chain.x - pad.left - border.left,
                        b.offset.y + chain.y - pad.top - border.top,
                        b.contentSize.width + pad.left + pad.right + border.left + border.right,
                        b.contentSize.height + pad.top + pad.bottom + border.top + border.bottom)
    {
      var border := tree.boxes[i].boxModel.BorderBox();
      var rect := PaddingBoxAbsolute(i);
      r := rect.AddOuterEdges(border);
    }

    /**
     * Resolves non-auto width and height against the containing block's
     * content size. Fails, changing nothing, when there is no containing
     * block; skips inline boxes that are not inline blocks and anonymous boxes.
     */
    method ApplyExplicitSizes(i: nat, toPx: (Dimension, real) -> real) returns (r: Outcome<LayoutError>)
      requires Valid() && i < |tree.boxes|
      modifies this
      ensures Valid()
      ensures ContainingBlock(old(tree), i).None? ==> r == Fail(MissingContainingBlock) && tree == old(tree)
      ensures ContainingBlock(old(tree), i).Some? ==>
        var b := old(tree).boxes[i];
        var base := old(tree).boxes[ContainingBlock(old(tree), i).value].contentSize;
        var sized := !(IsInline(b) && !IsInlineBlock(b)) && !IsAnonymous(b);
        var width := if sized && b.node.value.width.Length? then toPx(b.node.value.width, base.width)
                     else b.contentSize.width;
        var height := if sized && b.node.value.height.Length? then toPx(b.node.value.height, base.height)
                      else b.contentSize.height;
        r == Pass && tree == old(tree).(boxes := old(tree).boxes[i := b.(contentSize := Size(width, height))])
    {
      var containingBlockId := ContainingBlock(tree, i);
      if containingBlockId.None? {
        return Fail(MissingContainingBlock);
      }
      var containingBlock := tree.boxes[containingBlockId.value].contentSize;
      var b := tree.boxes[i];

      if IsInline(b) && !IsInlineBlock(b) {
        return Pass;
      }

      if b.node.Some? {
        var computedWidth := b.node.value.width;
        var computedHeight := b.node.value.height;

        if !computedWidth.Auto? {
          var usedWidth := toPx(computedWidth, containingBlock.width);
          SetContentWidth(i, usedWidth);
        }

        if !computedHeight.Auto? {
          var usedHeight := toPx(computedHeight, containingBlock.height);
          SetContentHeight(i, usedHeight);
        }
      }
      return Pass;
    }
  }
}
