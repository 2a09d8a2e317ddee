/** Every layout of a parsed representation: balanced groups, bounded nesting,
    and differences from the original only in the white space at break points. */
module DebugLayout {
  import opened Wrappers
  import opened DebugTree
  import opened DebugParser
  import opened DebugPrinter
  import opened DebugRoundTrip

  // ---------- operations of a parsed representation ----------

  /** `op` writes no newline of its own, and breaks only at spaces. */
  predicate SingleLine(op: Op) {
    match op
    case HardBreak => false
    case Breakable(sep) => sep == " "
    case _ => '\n' !in Literal(op)
  }

  predicate SpacedBreaks(ops: seq<Op>) {
    forall op <- ops :: op.Breakable? ==> op.sep == " "
  }

  lemma {:induction false} TextHasNoBreaks(segments: seq<string>)
    ensures forall op <- SegmentOps(segments) :: op.Text? || op.HardBreak?
  {
    if segments != [] { TextHasNoBreaks(segments[..|segments| - 1]); }
  }

  lemma {:induction false} NodeSpacedBreaks(node: Node)
    ensures SpacedBreaks(EmitNode(node))
    decreases node, 0
  {
    match node {
      case Leaf(text) => TextHasNoBreaks(Segments(text));
      case Group(_, _, _, items) => ItemsSpacedBreaks(items);
    }
  }

  lemma {:induction false} ItemsSpacedBreaks(items: seq<Item>)
    ensures SpacedBreaks(EmitItems(items))
    decreases items, 2
  {
    if items != [] {
      ItemsSpacedBreaks(items[..|items| - 1]);
      TextHasNoBreaks(Segments(","));
      NodesSpacedBreaks(items[|items| - 1].nodes);
    }
  }

  lemma {:induction false} NodesSpacedBreaks(nodes: seq<Node>)
    ensures SpacedBreaks(EmitNodes(nodes))
    decreases nodes, 1
  {
    if nodes != [] {
      NodesSpacedBreaks(nodes[..|nodes| - 1]);
      NodeSpacedBreaks(nodes[|nodes| - 1]);
    }
  }

  lemma {:induction false} NoNewlineAnywhere(ops: seq<Op>)
    requires SpacedBreaks(ops) && '\n' !in Flat(ops)
    ensures forall op <- ops :: SingleLine(op)
  {
    if ops != [] {
      var init, last := ops[..|ops| - 1], ops[|ops| - 1];
      forall c | c in Flat(init) ensures c in Flat(ops) {}
      NoNewlineAnywhere(init);
      assert SingleLine(last) by {
        forall c | c in Literal(last) ensures c in Flat(ops) {}
        assert last.HardBreak? ==> Flat(ops) == Flat(init) + "\n";
      }
      assert ops == init + [last];
    }
  }

  // ---------- balance ----------

  lemma {:induction false} GroupsConcat(open: seq<nat>, a: seq<Op>, b: seq<Op>)
    ensures GroupsAfter(open, a + b)
         == (match GroupsAfter(open, a) case None => None case Some(stack) => GroupsAfter(stack, b))
  {
    if b == [] {
      assert a + b == a;
    } else {
      GroupsConcat(open, a, b[..|b| - 1]);
      assert (a + b)[..|a + b| - 1] == a + b[..|b| - 1];
    }
  }

  lemma {:induction false} TextKeepsGroups(open: seq<nat>, text: seq<Op>)
    requires forall op <- text :: !op.BeginGroup? && !op.EndGroup?
    ensures GroupsAfter(open, text) == Some(open)
  {
    if text != [] { TextKeepsGroups(open, text[..|text| - 1]); }
  }

  lemma {:induction false} NodeKeepsGroups(open: seq<nat>, node: Node)
    ensures GroupsAfter(open, EmitNode(node)) == Some(open)
    decreases node, 0
  {
    match node {
      case Leaf(text) =>
        TextHasNoBreaks(Segments(text));
        TextKeepsGroups(open, TextOps(text));
      case Group(_, _, named, items) =>
        var begin := [BeginGroup(Indent(node), Open(node))];
        var gap := if named then [Breakable(" ")] else [];
        var body := EmitItems(items);
        var inner := open + [Indent(node)];
        assert GroupsAfter(open, begin) == Some(inner);
        TextKeepsGroups(inner, gap);
        ItemsKeepGroups(inner, items);
        GroupsConcat(open, begin, gap);
        GroupsConcat(open, begin + gap, body);
        GroupsConcat(open, begin + gap + body, [EndGroup(Close(node))]);
        assert GroupsAfter(inner, [EndGroup(Close(node))]) == Some(open) by {
          assert GroupsAfter(inner, []) == Some(inner);
        }
    }
  }

  lemma {:induction false} ItemsKeepGroups(open: seq<nat>, items: seq<Item>)
    ensures GroupsAfter(open, EmitItems(items)) == Some(open)
    decreases items, 2
  {
    if items != [] {
      var init, last := items[..|items| - 1], items[|items| - 1];
      ItemsKeepGroups(open, init);
      ItemKeepsGroups(open, |init|, last);
      GroupsConcat(open, EmitItems(init), ItemOps(|init|, last));
    }
  }

  lemma {:induction false} ItemKeepsGroups(open: seq<nat>, index: nat, item: Item)
    ensures GroupsAfter(open, ItemOps(index, item)) == Some(open)
    decreases item, 3
  {
    NodesKeepGroups(open, item.nodes);
    if index > 0 {
      CommaKeepsGroups(open, ",");
      GroupsConcat(open, TextOps(",") + [Breakable(" ")], EmitNodes(item.nodes));
    } else {
      assert ItemOps(index, item) == EmitNodes(item.nodes);
    }
  }

  lemma {:induction false} CommaKeepsGroups(open: seq<nat>, comma: string)
    ensures GroupsAfter(open, TextOps(comma) + [Breakable(" ")]) == Some(open)
  {
    TextHasNoBreaks(Segments(comma));
    TextKeepsGroups(open, TextOps(comma) + [Breakable(" ")]);
  }

  lemma {:induction false} NodesKeepGroups(open: seq<nat>, nodes: seq<Node>)
    ensures GroupsAfter(open, EmitNodes(nodes)) == Some(open)
    decreases nodes, 1
  {
    if nodes != [] {
      var init, last := nodes[..|nodes| - 1], nodes[|nodes| - 1];
      NodesKeepGroups(open, init);
      NodeKeepsGroups(open, last);
      GroupsConcat(open, EmitNodes(init), EmitNode(last));
    }
  }

  /** For every string, parsed or not, each group opened is closed and no group
      is closed that is not open. */
  lemma {:induction false} PrintingIsBalanced(repr: string)
    ensures GroupsAfter([], DebugOps(repr)) == Some([])
  {
    match Parse(repr) {
      case Some(nodes) => NodesKeepGroups([], nodes);
      case None =>
        TextHasNoBreaks(Segments(repr));
        TextKeepsGroups([], TextOps(repr));
    }
  }

  // ---------- indentation ----------

  lemma {:induction false} GroupsBelow(below: seq<nat>, open: seq<nat>, ops: seq<Op>)
    requires GroupsAfter(open, ops).Some?
    ensures GroupsAfter(below + open, ops) == Some(below + GroupsAfter(open, ops).value)
  {
    if ops != [] {
      var n := |ops| - 1;
      GroupsBelow(below, open, ops[..n]);
      var stack := GroupsAfter(open, ops[..n]).value;
      match ops[n]
      case BeginGroup(k, _) => assert below + stack + [k] == below + (stack + [k]);
      case EndGroup(_) => assert (below + stack)[..|below + stack| - 1] == below + stack[..|stack| - 1];
      case _ =>
    }
  }

  lemma {:induction false} ClosedGroupsVanish(ops: seq<Op>, inner: seq<Op>)
    requires GroupsAfter([], ops).Some? && GroupsAfter([], inner) == Some([])
    ensures GroupsAfter([], ops + inner) == GroupsAfter([], ops)
  {
    var stack := GroupsAfter([], ops).value;
    GroupsConcat([], ops, inner);
    GroupsBelow(stack, [], inner);
    assert stack + [] == stack;
  }

  lemma {:induction false} OneMoreGroup(ops: seq<Op>, indent: nat, open: string)
    requires GroupsAfter([], ops).Some?
    ensures GroupsAfter([], ops + [BeginGroup(indent, open)]) == Some(GroupsAfter([], ops).value + [indent])
  {
    assert (ops + [BeginGroup(indent, open)])[..|ops|] == ops;
  }

  lemma {:induction false} MoreSpaces(stack: seq<nat>, indent: nat)
    ensures "\n" + Spaces(Sum(stack + [indent])) == "\n" + Spaces(Sum(stack)) + Spaces(indent)
  {
    assert (stack + [indent])[..|stack|] == stack;
    assert Spaces(Sum(stack) + indent) == Spaces(Sum(stack)) + Spaces(indent);
  }

  /** A new line starts without indentation; opening a group indents those inside it
      by as much as the group says, and once a group is closed it counts no more. */
  lemma {:induction false} IndentationFollowsGroups(ops: seq<Op>, indent: nat, open: string, inner: seq<Op>)
    requires GroupsAfter([], ops).Some? && GroupsAfter([], inner) == Some([])
    ensures Break([]) == "\n"
    ensures Break(ops + inner) == Break(ops)
    ensures Break(ops + [BeginGroup(indent, open)] + inner) == Break(ops) + Spaces(indent)
  {
    OneMoreGroup(ops, indent, open);
    ClosedGroupsVanish(ops, inner);
    ClosedGroupsVanish(ops + [BeginGroup(indent, open)], inner);
    MoreSpaces(GroupsAfter([], ops).value, indent);
  }

  // ---------- layouts ----------

  lemma {:induction false} WeaveGrows(pieces: seq<string>, gaps: seq<string>, text: string)
    requires |pieces| == |gaps| + 1
    ensures Weave(pieces[..|gaps|] + [pieces[|gaps|] + text], gaps) == Weave(pieces, gaps) + text
  {
    var grown := pieces[..|gaps|] + [pieces[|gaps|] + text];
    if gaps != [] {
      assert grown[..|gaps|] == pieces[..|gaps|];
      var before := Weave(pieces[..|gaps|], gaps[..|gaps| - 1]) + gaps[|gaps| - 1];
      assert before + (pieces[|gaps|] + text) == before + pieces[|gaps|] + text;
    }
  }

  lemma {:induction false} LayoutIsWeave(ops: seq<Op>, broken: nat -> bool)
    requires forall op <- ops :: !op.HardBreak?
    ensures |Pieces(ops)| == |Gaps(ops, broken)| + 1
    ensures Layout(ops, broken) == Weave(Pieces(ops), Gaps(ops, broken))
  {
    if ops != [] {
      var n := |ops| - 1;
      var pieces, gaps := Pieces(ops[..n]), Gaps(ops[..n], broken);
      LayoutIsWeave(ops[..n], broken);
      if ops[n].Breakable? {
        var gaps' := Gaps(ops, broken);
        assert Pieces(ops)[..|gaps'|] == pieces && gaps'[..|gaps'| - 1] == gaps;
      } else {
        WeaveGrows(pieces, gaps, Literal(ops[n]));
        assert Gaps(ops, broken) == gaps;
      }
    }
  }

  lemma {:induction false} UnbrokenIsFlat(ops: seq<Op>)
    requires forall op <- ops :: !op.HardBreak?
    ensures Layout(ops, Unbroken) == Flat(ops)
  {
    if ops != [] { UnbrokenIsFlat(ops[..|ops| - 1]); }
  }

  /** A single space, or a newline followed by an indentation. */
  predicate WhiteGap(gap: string) {
    gap == " " || (gap != "" && gap[0] == '\n' && forall c <- gap[1..] :: c == ' ')
  }

  lemma {:induction false} GapsAreWhite(ops: seq<Op>, broken: nat -> bool)
    requires SpacedBreaks(ops)
    ensures forall gap <- Gaps(ops, broken) :: WhiteGap(gap)
    ensures (forall i: nat :: !broken(i)) ==> forall gap <- Gaps(ops, broken) :: gap == " "
  {
    if ops != [] {
      GapsAreWhite(ops[..|ops| - 1], broken);
      assert WhiteGap(Break(ops[..|ops| - 1]));
    }
  }

  /** However the break points of an accepted representation are broken, the
      result is the original's text with some of the spaces at break points
      replaced by a newline and an indentation. */
  lemma {:induction false} LayoutsDifferOnlyAtBreaks(repr: string, broken: nat -> bool)
    requires Parse(repr).Some?
    ensures var ops := DebugOps(repr);
            var gaps := Gaps(ops, broken);
            && |Pieces(ops)| == |gaps| + 1
            && repr == Weave(Pieces(ops), seq(|gaps|, _ => " "))
            && Layout(ops, broken) == Weave(Pieces(ops), gaps)
            && (forall gap <- gaps :: WhiteGap(gap))
            && (forall op <- ops :: SingleLine(op))
  {
    var ops := DebugOps(repr);
    NodesSpacedBreaks(Parse(repr).value);
    PrintingKeepsEveryCharacter(repr);
    NoNewlineAnywhere(ops);
    LayoutIsWeave(ops, broken);
    GapsAreWhite(ops, broken);
    LayoutIsWeave(ops, Unbroken);
    UnbrokenIsFlat(ops);
    GapsAreWhite(ops, Unbroken);
    var spaces := seq(|Gaps(ops, broken)|, _ => " ");
    assert Gaps(ops, Unbroken) == spaces by {
      forall i | 0 <= i < |spaces| ensures Gaps(ops, Unbroken)[i] == spaces[i] {
        assert Gaps(ops, Unbroken)[i] in Gaps(ops, Unbroken);
      }
    }
  }

  // ---------- nesting ----------

  /** How many groups deep `nodes` nests. */
  function Nesting(nodes: seq<Node>): nat {
    if nodes == [] then 0
    else
      Max(Nesting(nodes[..|nodes| - 1]),
          match nodes[|nodes| - 1]
          case Leaf(_) => 0
          case Group(_, _, _, items) => 1 + ItemsNesting(items))
  }

  function ItemsNesting(items: seq<Item>): nat {
    if items == [] then 0
    else Max(ItemsNesting(items[..|items| - 1]), Nesting(items[|items| - 1].nodes))
  }

  lemma {:induction false} NestingAppend(nodes: seq<Node>, node: Node)
    ensures Nesting(nodes + [node])
         == Max(Nesting(nodes), match node case Leaf(_) => 0 case Group(_, _, _, items) => 1 + ItemsNesting(items))
  {
    assert (nodes + [node])[..|nodes|] == nodes;
  }

  lemma {:induction false} NestingFlush(nodes: seq<Node>, text: string)
    ensures Nesting(Flush(nodes, text)) == Nesting(nodes)
  {
    if text != "" { NestingAppend(nodes, Leaf(text)); }
  }

  lemma {:induction false} ItemNesting(s: string, pos: nat, depth: nat, nodes: seq<Node>, text: string)
    requires pos <= |s| && depth + Nesting(nodes) <= MAX_DEBUG_DEPTH
    requires ItemFrom(s, pos, depth, nodes, text).Some?
    ensures depth + Nesting(ItemFrom(s, pos, depth, nodes, text).value.0) <= MAX_DEBUG_DEPTH
    decreases |s| - pos, 1
  {
    if ItemEnds(s, pos) {
      NestingFlush(nodes, text);
    } else if s[pos] == '"' || s[pos] == '\'' {
      var p := LexEnd(s, s[pos], pos + 1).value;
      NestingFlush(nodes, text);
      NestingAppend(Flush(nodes, text), Leaf(s[pos..p]));
      ItemNesting(s, p, depth, Flush(nodes, text) + [Leaf(s[pos..p])], "");
    } else if IsOpen(s[pos]) {
      var (rest, prefix) := SplitPrefix(text, s[pos]);
      var (group, p) := GroupFrom(s, pos, depth, prefix).value;
      GroupNesting(s, pos, depth, prefix);
      NestingFlush(nodes, rest);
      NestingAppend(Flush(nodes, rest), group);
      ItemNesting(s, p, depth, Flush(nodes, rest) + [group], "");
    } else {
      ItemNesting(s, pos + 1, depth, nodes, text + [s[pos]]);
    }
  }

  lemma {:induction false} GroupNesting(s: string, pos: nat, depth: nat, prefix: string)
    requires pos < |s| && IsOpen(s[pos]) && depth <= MAX_DEBUG_DEPTH
    requires GroupFrom(s, pos, depth, prefix).Some?
    ensures depth + 1 + ItemsNesting(GroupFrom(s, pos, depth, prefix).value.0.items) <= MAX_DEBUG_DEPTH
    decreases |s| - pos, 0
  {
    var close := CloseOf(s[pos]);
    var named := Named(s, pos, prefix);
    var start := if named then pos + 2 else pos + 1;
    if named || !At(s, start, close) {
      ItemsNestingBound(s, start, depth + 1, close, named, []);
    }
  }

  lemma {:induction false} ItemsNestingBound(s: string, pos: nat, depth: nat, close: char, named: bool, items: seq<Item>)
    requires pos <= |s| && depth + ItemsNesting(items) <= MAX_DEBUG_DEPTH
    requires ItemsFrom(s, pos, depth, close, named, items).Some?
    ensures depth + ItemsNesting(ItemsFrom(s, pos, depth, close, named, items).value.0) <= MAX_DEBUG_DEPTH
    decreases |s| - pos, 2
  {
    var (nodes, p) := ItemFrom(s, pos, depth, [], "").value;
    ItemNesting(s, pos, depth, [], "");
    var items' := items + [Item(nodes)];
    assert items'[..|items|] == items;
    if At(s, p, ',') && At(s, p + 1, ' ') {
      ItemsNestingBound(s, p + 2, depth, close, named, items');
    }
  }

  /** No accepted tree nests deeper than the cap. */
  lemma {:induction false} AcceptedTreesAreShallow(repr: string)
    requires Parse(repr).Some?
    ensures Nesting(Parse(repr).value) <= MAX_DEBUG_DEPTH
  {
    ItemNesting(repr, 0, 0, [], "");
  }
}
