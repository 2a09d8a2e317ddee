/** The groups and break points that a representation is printed with
    (src/pretty.rs), read back off the operations. */
module DebugOutline {
  import opened Wrappers
  import opened DebugTree
  import opened DebugParser
  import opened DebugPrinter
  import opened DebugGrammar

  /** A group as printed: the break points of its own, those of the groups inside
      it apart, and what closes it. */
  datatype Block = Block(indent: nat, open: string, breaks: nat, close: Option<string>)

  datatype Inside = Inside(breaks: nat, close: Option<string>)

  /** What a group holds, whose operations start at `ops` and which is `depth`
      groups further out. */
  function Within(ops: seq<Op>, depth: nat): Inside {
    if ops == [] then Inside(0, None)
    else
      var rest := ops[1..];
      match ops[0]
      case BeginGroup(_, _) => Within(rest, depth + 1)
      case EndGroup(close) => if depth == 0 then Inside(0, Some(close)) else Within(rest, depth - 1)
      case Breakable(_) => More(if depth == 0 then 1 else 0, Within(rest, depth))
      case _ => Within(rest, depth)
  }

  function More(breaks: nat, i: Inside): Inside { i.(breaks := breaks + i.breaks) }

  /** The groups that are printed, outer before inner, left to right. */
  function Outline(ops: seq<Op>): seq<Block> {
    if ops == [] then []
    else if ops[0].BeginGroup? then
      var inside := Within(ops[1..], 0);
      [Block(ops[0].indent, ops[0].open, inside.breaks, inside.close)] + Outline(ops[1..])
    else Outline(ops[1..])
  }

  /** A break point stands after a comma, or where a struct's fields begin, and
      shows as one space. */
  predicate BreaksAfterCommas(ops: seq<Op>) {
    forall i | 0 <= i < |ops| && ops[i].Breakable? ::
      ops[i].sep == " " && i > 0 && (ops[i - 1] == Text(",") || (ops[i - 1].BeginGroup? && ops[i - 1].indent == 4))
  }

  // ---------- what is expected ----------

  /** The group a collection is printed as: indented by 4 if it is a struct with
      fields and by 1 otherwise, with a break point between each two children, and
      one more before the first field of a struct. */
  function BlockOf(shape: Shape): Block {
    Block(
      if shape.named then 4 else 1,
      shape.prefix + (if shape.delimiter == '{' && shape.prefix != "" then " " else "") + [shape.delimiter],
      (if shape.size > 0 then shape.size - 1 else 0) + (if shape.named then 1 else 0),
      Some((if shape.named then " " else "") + [CloseOf(shape.delimiter)]))
  }

  function BlocksOf(shapes: seq<Shape>): seq<Block> { seq(|shapes|, i requires 0 <= i < |shapes| => BlockOf(shapes[i])) }

  predicate Sound(shape: Shape) { IsOpen(shape.delimiter) && (shape.named ==> shape.delimiter == '{' && shape.prefix != "") }

  predicate AllSound(shapes: seq<Shape>) { forall shape <- shapes :: Sound(shape) }

  lemma {:induction false} BlocksConcat(a: seq<Shape>, b: seq<Shape>)
    ensures BlocksOf(a + b) == BlocksOf(a) + BlocksOf(b)
    ensures AllSound(a + b) <==> AllSound(a) && AllSound(b)
  {
    assert forall x <- a :: x in a + b;
    assert forall x <- b :: x in a + b;
  }

  // ---------- inside a group ----------

  predicate TextOnly(ops: seq<Op>) { forall op <- ops :: op.Text? || op.HardBreak? }

  lemma {:induction false} TextIsTextOnly(segments: seq<string>)
    ensures TextOnly(SegmentOps(segments))
  {
    if segments != [] { TextIsTextOnly(segments[..|segments| - 1]); }
  }

  lemma {:induction false} TextWithin(text: seq<Op>, rest: seq<Op>, depth: nat)
    requires TextOnly(text)
    ensures Within(text + rest, depth) == Within(rest, depth)
    ensures Outline(text + rest) == Outline(rest)
  {
    if text != [] {
      assert text[0] in text;
      assert (text + rest)[1..] == text[1..] + rest;
      TextWithin(text[1..], rest, depth);
    } else {
      assert text + rest == rest;
    }
  }

  lemma {:induction false} OneWithin(op: Op, rest: seq<Op>)
    ensures ([op] + rest)[0] == op && ([op] + rest)[1..] == rest
  {}

  /** Nodes add nothing to the group they stand in: their break points are in groups
      of their own. */
  lemma {:induction false} NodesWithin(nodes: seq<Node>, rest: seq<Op>, depth: nat)
    ensures Within(EmitNodes(nodes) + rest, depth) == Within(rest, depth)
    decreases nodes
  {
    if nodes != [] {
      var init, last := nodes[..|nodes| - 1], nodes[|nodes| - 1];
      Associative(EmitNodes(init), EmitNode(last), rest);
      NodesWithin(init, EmitNode(last) + rest, depth);
      NodeWithin(last, rest, depth);
    } else {
      assert EmitNodes(nodes) + rest == rest;
    }
  }

  lemma {:induction false} NodeWithin(node: Node, rest: seq<Op>, depth: nat)
    ensures Within(EmitNode(node) + rest, depth) == Within(rest, depth)
    decreases node
  {
    match node
    case Leaf(text) =>
      TextIsTextOnly(Segments(text));
      TextWithin(TextOps(text), rest, depth);
    case Group(_, _, named, items) =>
      GroupOps(node, rest);
      OneWithin(BeginGroup(Indent(node), Open(node)), Body(node, rest));
      BodyWithin(node, rest, depth + 1);
  }

  /** The operations of a group after it opens, with those that follow. */
  function Body(group: Node, rest: seq<Op>): seq<Op>
    requires group.Group?
  {
    Gap(group.named) + (EmitItems(group.items) + ([EndGroup(Close(group))] + rest))
  }

  function Gap(named: bool): seq<Op> { if named then [Breakable(" ")] else [] }

  lemma {:induction false} GroupOps(group: Node, rest: seq<Op>)
    requires group.Group?
    ensures EmitNode(group) + rest == [BeginGroup(Indent(group), Open(group))] + Body(group, rest)
  {
    var open, items, close := [BeginGroup(Indent(group), Open(group))], EmitItems(group.items), [EndGroup(Close(group))];
    assert EmitNode(group) == open + Gap(group.named) + items + close;
    Associative(items, close, rest);
    Associative(Gap(group.named), items, close + rest);
    Associative(open + Gap(group.named) + items, close, rest);
    Associative(open + Gap(group.named), items, close + rest);
    Associative(open, Gap(group.named), items + (close + rest));
  }

  lemma {:induction false} BodyWithin(group: Node, rest: seq<Op>, depth: nat)
    requires group.Group?
    ensures Within(Body(group, rest), depth) ==
              if depth > 0 then Within(rest, depth - 1)
              else Inside(Separators(group.items) + (if group.named then 1 else 0), Some(Close(group)))
    decreases group, 0
  {
    var close := EndGroup(Close(group));
    var tail := [close] + rest;
    OneWithin(close, rest);
    ItemsWithin(group.items, tail, depth);
    if group.named {
      OneWithin(Breakable(" "), EmitItems(group.items) + tail);
    } else {
      assert Gap(false) + (EmitItems(group.items) + tail) == EmitItems(group.items) + tail;
    }
  }

  /** How many break points separate items. */
  function Separators(items: seq<Item>): nat { if items == [] then 0 else |items| - 1 }

  lemma {:induction false} ItemsWithin(items: seq<Item>, rest: seq<Op>, depth: nat)
    ensures Within(EmitItems(items) + rest, depth) == More(if depth == 0 then Separators(items) else 0, Within(rest, depth))
    decreases items
  {
    if items != [] {
      var n := |items| - 1;
      Associative(EmitItems(items[..n]), ItemOps(n, items[n]), rest);
      ItemsWithin(items[..n], ItemOps(n, items[n]) + rest, depth);
      ItemWithin(n, items[n], rest, depth);
    } else {
      assert EmitItems(items) + rest == rest;
    }
  }

  lemma {:induction false} ItemWithin(index: nat, item: Item, rest: seq<Op>, depth: nat)
    ensures Within(ItemOps(index, item) + rest, depth) == More(if index > 0 && depth == 0 then 1 else 0, Within(rest, depth))
    decreases item
  {
    var nodes := EmitNodes(item.nodes);
    ItemText(index, item, rest);
    NodesWithin(item.nodes, rest, depth);
    if index > 0 {
      TextIsTextOnly(Segments(","));
      OneWithin(Breakable(" "), nodes + rest);
      TextWithin(TextOps(","), [Breakable(" ")] + (nodes + rest), depth);
    }
  }

  lemma {:induction false} ItemText(index: nat, item: Item, rest: seq<Op>)
    ensures ItemOps(index, item) + rest ==
              if index > 0 then TextOps(",") + ([Breakable(" ")] + (EmitNodes(item.nodes) + rest)) else EmitNodes(item.nodes) + rest
  {
    var comma, gap, nodes := TextOps(","), [Breakable(" ")], EmitNodes(item.nodes);
    if index > 0 {
      Associative(comma + gap, nodes, rest);
      Associative(comma, gap, nodes + rest);
    } else {
      assert ItemOps(index, item) == nodes;
    }
  }

  // ---------- the outline of nodes ----------

  lemma {:induction false} NodesOutline(nodes: seq<Node>, rest: seq<Op>)
    requires AllSound(NodesShapes(nodes))
    ensures Outline(EmitNodes(nodes) + rest) == BlocksOf(NodesShapes(nodes)) + Outline(rest)
    decreases nodes
  {
    if nodes != [] {
      var init, last := nodes[..|nodes| - 1], nodes[|nodes| - 1];
      BlocksConcat(NodesShapes(init), NodeShapes(last));
      Associative(EmitNodes(init), EmitNode(last), rest);
      NodesOutline(init, EmitNode(last) + rest);
      NodeOutline(last, rest);
      Associative(BlocksOf(NodesShapes(init)), BlocksOf(NodeShapes(last)), Outline(rest));
    } else {
      assert EmitNodes(nodes) + rest == rest;
    }
  }

  lemma {:induction false} NodeOutline(node: Node, rest: seq<Op>)
    requires AllSound(NodeShapes(node))
    ensures Outline(EmitNode(node) + rest) == BlocksOf(NodeShapes(node)) + Outline(rest)
    decreases node
  {
    match node
    case Leaf(text) =>
      TextIsTextOnly(Segments(text));
      TextWithin(TextOps(text), rest, 0);
    case Group(_, _, _, items) =>
      var shape := [ShapeOf(node)];
      BlocksConcat(shape, ItemsShapes(items));
      GroupOps(node, rest);
      OneWithin(BeginGroup(Indent(node), Open(node)), Body(node, rest));
      BodyWithin(node, rest, 0);
      BodyOutline(node, rest);
      assert shape[0] in shape;
      GroupBlock(node);
      Associative(BlocksOf(shape), BlocksOf(ItemsShapes(items)), Outline(rest));
  }

  function ShapeOf(group: Node): Shape
    requires group.Group?
  {
    Shape(group.prefix, group.delimiter, group.named, |group.items|)
  }

  /** How a group opens and closes. */
  lemma {:induction false} GroupBlock(group: Node)
    requires group.Group? && Sound(ShapeOf(group))
    ensures BlocksOf([ShapeOf(group)]) ==
              [Block(Indent(group), Open(group), Separators(group.items) + (if group.named then 1 else 0), Some(Close(group)))]
  {
    var shape := ShapeOf(group);
    assert Open(group) == shape.prefix + (if shape.delimiter == '{' && shape.prefix != "" then " " else "") + [shape.delimiter];
    assert Close(group) == (if shape.named then " " else "") + [CloseOf(shape.delimiter)];
  }

  lemma {:induction false} BodyOutline(group: Node, rest: seq<Op>)
    requires group.Group? && AllSound(ItemsShapes(group.items))
    ensures Outline(Body(group, rest)) == BlocksOf(ItemsShapes(group.items)) + Outline(rest)
    decreases group, 0
  {
    var close := EndGroup(Close(group));
    OneWithin(close, rest);
    ItemsOutline(group.items, [close] + rest);
    if group.named {
      OneWithin(Breakable(" "), EmitItems(group.items) + ([close] + rest));
    } else {
      assert Gap(false) + (EmitItems(group.items) + ([close] + rest)) == EmitItems(group.items) + ([close] + rest);
    }
  }

  lemma {:induction false} ItemsShapesAppend(items: seq<Item>, item: Item)
    ensures ItemsShapes(items + [item]) == ItemsShapes(items) + NodesShapes(item.nodes)
  {
    if items != [] {
      assert (items + [item])[1..] == items[1..] + [item];
      ItemsShapesAppend(items[1..], item);
    } else {
      assert (items + [item])[1..] == [];
    }
  }

  lemma {:induction false} ItemsOutline(items: seq<Item>, rest: seq<Op>)
    requires AllSound(ItemsShapes(items))
    ensures Outline(EmitItems(items) + rest) == BlocksOf(ItemsShapes(items)) + Outline(rest)
    decreases items
  {
    if items != [] {
      var n := |items| - 1;
      var init, last := items[..n], items[n];
      assert items == init + [last];
      ItemsShapesAppend(init, last);
      BlocksConcat(ItemsShapes(init), NodesShapes(last.nodes));
      Associative(EmitItems(init), ItemOps(n, last), rest);
      ItemsOutline(init, ItemOps(n, last) + rest);
      ItemOutline(n, last, rest);
      Associative(BlocksOf(ItemsShapes(init)), BlocksOf(NodesShapes(last.nodes)), Outline(rest));
    } else {
      assert EmitItems(items) + rest == rest;
    }
  }

  lemma {:induction false} ItemOutline(index: nat, item: Item, rest: seq<Op>)
    requires AllSound(NodesShapes(item.nodes))
    ensures Outline(ItemOps(index, item) + rest) == BlocksOf(NodesShapes(item.nodes)) + Outline(rest)
    decreases item
  {
    var nodes := EmitNodes(item.nodes);
    ItemText(index, item, rest);
    NodesOutline(item.nodes, rest);
    if index > 0 {
      TextIsTextOnly(Segments(","));
      OneWithin(Breakable(" "), nodes + rest);
      TextWithin(TextOps(","), [Breakable(" ")] + (nodes + rest), 0);
    }
  }

  // ---------- where the break points are ----------

  lemma {:induction false} BreaksConcat(a: seq<Op>, b: seq<Op>)
    requires BreaksAfterCommas(a) && BreaksAfterCommas(b)
    ensures BreaksAfterCommas(a + b)
  {
    forall i | 0 <= i < |a + b| && (a + b)[i].Breakable?
      ensures (a + b)[i].sep == " " && i > 0
              && ((a + b)[i - 1] == Text(",") || ((a + b)[i - 1].BeginGroup? && (a + b)[i - 1].indent == 4))
    {
      if i >= |a| { assert b[i - |a|].Breakable?; }
    }
  }

  lemma {:induction false} NodesBreaks(nodes: seq<Node>)
    requires AllSound(NodesShapes(nodes))
    ensures BreaksAfterCommas(EmitNodes(nodes))
    decreases nodes
  {
    if nodes != [] {
      var init, last := nodes[..|nodes| - 1], nodes[|nodes| - 1];
      BlocksConcat(NodesShapes(init), NodeShapes(last));
      NodesBreaks(init);
      NodeBreaks(last);
      BreaksConcat(EmitNodes(init), EmitNode(last));
    }
  }

  lemma {:induction false} NodeBreaks(node: Node)
    requires AllSound(NodeShapes(node))
    ensures BreaksAfterCommas(EmitNode(node))
    decreases node
  {
    match node
    case Leaf(text) => TextBreaks(text);
    case Group(_, _, named, items) =>
      var open, close := [BeginGroup(Indent(node), Open(node))], [EndGroup(Close(node))];
      BlocksConcat([ShapeOf(node)], ItemsShapes(items));
      assert ShapeOf(node) in [ShapeOf(node)];
      ItemsBreaks(items);
      BreaksConcat(open + Gap(named), EmitItems(items));
      BreaksConcat(open + Gap(named) + EmitItems(items), close);
      assert EmitNode(node) == open + Gap(named) + EmitItems(items) + close;
  }

  lemma {:induction false} ItemsBreaks(items: seq<Item>)
    requires AllSound(ItemsShapes(items))
    ensures BreaksAfterCommas(EmitItems(items))
    decreases items
  {
    if items != [] {
      var n := |items| - 1;
      assert items == items[..n] + [items[n]];
      ItemsShapesAppend(items[..n], items[n]);
      BlocksConcat(ItemsShapes(items[..n]), NodesShapes(items[n].nodes));
      ItemsBreaks(items[..n]);
      NodesBreaks(items[n].nodes);
      CommaBreak();
      if n > 0 { BreaksConcat(TextOps(",") + [Breakable(" ")], EmitNodes(items[n].nodes)); }
      assert n == 0 ==> ItemOps(n, items[n]) == EmitNodes(items[n].nodes);
      BreaksConcat(EmitItems(items[..n]), ItemOps(n, items[n]));
    }
  }

  lemma {:induction false} TextBreaks(text: string)
    ensures TextOnly(TextOps(text)) && BreaksAfterCommas(TextOps(text))
  {
    TextIsTextOnly(Segments(text));
    assert forall i | 0 <= i < |TextOps(text)| :: TextOps(text)[i] in TextOps(text);
  }

  lemma {:induction false} CommaBreak()
    ensures BreaksAfterCommas(TextOps(",") + [Breakable(" ")])
  {
    assert Segments(",") == [","] by {
      assert ","[..0] == "";
      assert "" + [','] == ",";
    }
    assert TextOps(",") == [Text(",")] by { assert [","][..0] == []; assert SegmentOps([","]) == SegmentOps([]) + [] + [Text(",")]; }
  }

  // ---------- the trees of accepted text ----------

  lemma {:induction false} FlushSound(nodes: seq<Node>, text: string)
    requires AllSound(NodesShapes(nodes))
    ensures AllSound(NodesShapes(Flush(nodes, text)))
  {
    FlushShapes(nodes, text);
  }

  lemma {:induction false} AppendSound(nodes: seq<Node>, node: Node)
    requires AllSound(NodesShapes(nodes)) && AllSound(NodeShapes(node))
    ensures AllSound(NodesShapes(nodes + [node]))
  {
    AppendShapes(nodes, node);
    BlocksConcat(NodesShapes(nodes), NodeShapes(node));
  }

  lemma {:induction false} ItemSound(s: string, pos: nat, depth: nat, nodes: seq<Node>, text: string)
    requires pos <= |s| && ItemFrom(s, pos, depth, nodes, text).Some? && AllSound(NodesShapes(nodes))
    ensures AllSound(NodesShapes(ItemFrom(s, pos, depth, nodes, text).value.0))
    decreases |s| - pos, 1
  {
    if ItemEnds(s, pos) {
      FlushSound(nodes, text);
    } else if s[pos] == '"' || s[pos] == '\'' {
      var end := LexEnd(s, s[pos], pos + 1).value;
      FlushSound(nodes, text);
      AppendSound(Flush(nodes, text), Leaf(s[pos..end]));
      ItemSound(s, end, depth, Flush(nodes, text) + [Leaf(s[pos..end])], "");
    } else if IsOpen(s[pos]) {
      var (rest, prefix) := SplitPrefix(text, s[pos]);
      var (group, end) := GroupFrom(s, pos, depth, prefix).value;
      FlushSound(nodes, rest);
      GroupSound(s, pos, depth, prefix);
      AppendSound(Flush(nodes, rest), group);
      ItemSound(s, end, depth, Flush(nodes, rest) + [group], "");
    } else {
      ItemSound(s, pos + 1, depth, nodes, text + [s[pos]]);
    }
  }

  lemma {:induction false} GroupSound(s: string, pos: nat, depth: nat, prefix: string)
    requires pos < |s| && IsOpen(s[pos]) && GroupFrom(s, pos, depth, prefix).Some?
    ensures AllSound(NodeShapes(GroupFrom(s, pos, depth, prefix).value.0))
    decreases |s| - pos, 0
  {
    var group := GroupFrom(s, pos, depth, prefix).value.0;
    var named := Named(s, pos, prefix);
    var start := if named then pos + 2 else pos + 1;
    BlocksConcat([ShapeOf(group)], ItemsShapes(group.items));
    if named || !At(s, start, CloseOf(s[pos])) {
      ItemsSound(s, start, depth + 1, CloseOf(s[pos]), named, []);
    }
  }

  lemma {:induction false} ItemsSound(s: string, pos: nat, depth: nat, close: char, named: bool, items: seq<Item>)
    requires pos <= |s| && ItemsFrom(s, pos, depth, close, named, items).Some? && AllSound(ItemsShapes(items))
    ensures AllSound(ItemsShapes(ItemsFrom(s, pos, depth, close, named, items).value.0))
    decreases |s| - pos, 2
  {
    var (nodes, p) := ItemFrom(s, pos, depth, [], "").value;
    ItemSound(s, pos, depth, [], "");
    ItemsShapesAppend(items, Item(nodes));
    BlocksConcat(ItemsShapes(items), NodesShapes(nodes));
    if At(s, p, ',') && At(s, p + 1, ' ') { ItemsSound(s, p + 2, depth, close, named, items + [Item(nodes)]); }
  }

  // ---------- main results ----------

  /** Every string is printed with exactly the groups it is read as, in order, each
      with its indentation, delimiters and number of break points; and with none
      when it is not accepted. */
  lemma {:induction false} PrintedAsRead(repr: string)
    ensures Outline(DebugOps(repr)) == match Parse(repr) case Some(nodes) => BlocksOf(NodesShapes(nodes)) case None => []
    ensures BreaksAfterCommas(DebugOps(repr))
  {
    var ops := DebugOps(repr);
    assert ops + [] == ops;
    match Parse(repr) {
      case Some(nodes) =>
        ItemSound(repr, 0, 0, [], "");
        NodesOutline(nodes, []);
        NodesBreaks(nodes);
      case None =>
        TextBreaks(repr);
        TextWithin(TextOps(repr), [], 0);
    }
  }

  /** A derived representation is printed with one group for each collection of the
      value, up to the nesting cap, and verbatim past it. */
  lemma {:induction false} PrintedAsTheValue(v: Value)
    requires WellFormed(v)
    ensures Outline(DebugOps(Show(v))) == if Depth(v) <= 64 then BlocksOf(ValueShapes(v, "")) else []
    ensures Depth(v) > 64 ==> DebugOps(Show(v)) == TextOps(Show(v))
  {
    PrintedAsRead(Show(v));
    DerivedDebugParses(v);
    if Depth(v) <= MAX_DEBUG_DEPTH { EveryGroupMatches(v); }
  }
}
