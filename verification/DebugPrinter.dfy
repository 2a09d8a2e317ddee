/** The printer that a representation is emitted through (src/pretty.rs): the
    object recording operations, and how a recorded sequence renders. */
module DebugPrinter {
  import opened Wrappers
  import opened DebugTree
  import opened DebugParser

  /** Four pieces appended one after the other. */
  lemma {:induction false} Appended<T>(before: seq<T>, a: seq<T>, b: seq<T>, c: seq<T>, d: seq<T>)
    ensures before + a + b + c + d == before + (a + b + c + d)
  {
    Associative(before, a, b);
    Associative(before, a + b, c);
    Associative(before, a + b + c, d);
  }

  lemma {:induction false} NextNode(before: seq<Op>, nodes: seq<Node>, i: nat)
    requires i < |nodes|
    ensures before + EmitNodes(nodes[..i]) + EmitNode(nodes[i]) == before + EmitNodes(nodes[..i + 1])
  {
    assert nodes[..i + 1][..i] == nodes[..i];
    Associative(before, EmitNodes(nodes[..i]), EmitNode(nodes[i]));
  }

  /** A printer holding the document it was asked to print. */
  class PrettyPrinter {
    var ops: seq<Op>

    constructor ()
      ensures ops == []
    {
      ops := [];
    }

    method Push(op: Op)
      modifies this
      ensures ops == old(ops) + [op]
    {
      ops := ops + [op];
    }

    /** Literal text; each newline in it becomes a hard break. */
    method Write(s: string)
      modifies this
      ensures ops == old(ops) + TextOps(s)
    {
      var segments := Segments(s);
      for i := 0 to |segments|
        invariant ops == old(ops) + SegmentOps(segments[..i])
      {
        if i > 0 { ops := ops + [HardBreak]; }
        if segments[i] != "" { ops := ops + [Text(segments[i])]; }
        assert segments[..i + 1][..i] == segments[..i];
      }
      assert segments[..|segments|] == segments;
    }

    method EmitDebugNodes(nodes: seq<Node>)
      modifies this
      ensures ops == old(ops) + EmitNodes(nodes)
      decreases nodes, 1
    {
      for i := 0 to |nodes|
        invariant ops == old(ops) + EmitNodes(nodes[..i])
      {
        NextNode(old(ops), nodes, i);
        match nodes[i] {
          case Leaf(text) => Write(text);
          case Group(_, _, _, _) => EmitGroup(nodes[i]);
        }
      }
      assert nodes[..|nodes|] == nodes;
    }

    method EmitGroup(group: Node)
      requires group.Group?
      modifies this
      ensures ops == old(ops) + EmitNode(group)
      decreases group, 0
    {
      ghost var open, close := [BeginGroup(Indent(group), Open(group))], [EndGroup(Close(group))];
      ghost var gap := if group.named then [Breakable(" ")] else [];
      Push(BeginGroup(Indent(group), Open(group)));
      OpenNamed(group.named);
      EmitGroupItems(group.items);
      Push(EndGroup(Close(group)));
      Appended(old(ops), open, gap, EmitItems(group.items), close);
      assert EmitNode(group) == open + gap + EmitItems(group.items) + close;
    }

    method OpenNamed(named: bool)
      modifies this
      ensures ops == old(ops) + if named then [Breakable(" ")] else []
    {
      if named { Push(Breakable(" ")); }
    }

    /** The loop of `emit_debug_nodes` over a group's items. */
    method EmitGroupItems(items: seq<Item>)
      modifies this
      ensures ops == old(ops) + EmitItems(items)
      decreases items, 2
    {
      for i := 0 to |items|
        invariant ops == old(ops) + EmitItems(items[..i])
      {
        ghost var before, item := EmitItems(items[..i]), ItemOps(i, items[i]);
        assert items[..i + 1][..i] == items[..i];
        assert EmitItems(items[..i + 1]) == before + item;
        EmitItem(i, items[i]);
        Associative(old(ops), before, item);
      }
      assert items[..|items|] == items;
    }

    /** The body of the loop over a group's items. */
    method EmitItem(index: nat, item: Item)
      modifies this
      ensures ops == old(ops) + ItemOps(index, item)
      decreases item, 2
    {
      if index > 0 {
        Write(",");
        Push(Breakable(" "));
      }
      EmitDebugNodes(item.nodes);
    }

    /** Print a `{:?}` representation, verbatim when it does not parse. */
    method PrintDebugRepr(repr: string)
      modifies this
      ensures ops == old(ops) + DebugOps(repr)
    {
      var parsed := ParseRepr(repr);
      match parsed {
        case Some(nodes) => EmitDebugNodes(nodes);
        case None => Write(repr);
      }
    }
  }

  function DebugOps(repr: string): seq<Op> {
    match Parse(repr)
    case Some(nodes) => EmitNodes(nodes)
    case None => TextOps(repr)
  }

  // ---------- rendering ----------

  /** The indentation of each open group, innermost last, after `ops` starting
      from the groups `open`; None once a group is closed that was not open. */
  function GroupsAfter(open: seq<nat>, ops: seq<Op>): Option<seq<nat>> {
    if ops == [] then Some(open)
    else
      match GroupsAfter(open, ops[..|ops| - 1])
      case None => None
      case Some(stack) => GroupStep(stack, ops[|ops| - 1])
  }

  function GroupStep(stack: seq<nat>, op: Op): Option<seq<nat>> {
    match op
    case BeginGroup(indent, _) => Some(stack + [indent])
    case EndGroup(_) => if stack == [] then None else Some(stack[..|stack| - 1])
    case _ => Some(stack)
  }

  function Sum(xs: seq<nat>): nat {
    if xs == [] then 0 else Sum(xs[..|xs| - 1]) + xs[|xs| - 1]
  }

  function Spaces(n: nat): string { seq(n, _ => ' ') }

  /** A newline followed by the indentation of the groups open after `ops`. */
  function Break(ops: seq<Op>): string {
    match GroupsAfter([], ops)
    case None => "\n"
    case Some(stack) => "\n" + Spaces(Sum(stack))
  }

  /** The text of an operation that is not a break point. */
  function Literal(op: Op): string {
    match op
    case Text(text) => text
    case BeginGroup(_, open) => open
    case EndGroup(close) => close
    case _ => ""
  }

  /** The document laid out with the break points chosen by `broken` (indexed
      by operation) on new lines. All-or-nothing group breaking is the
      special case of a `broken` that is constant on each group. */
  function Layout(ops: seq<Op>, broken: nat -> bool): string {
    if ops == [] then ""
    else
      var n := |ops| - 1;
      Layout(ops[..n], broken)
      + (match ops[n]
         case Breakable(sep) => if broken(n) then Break(ops[..n]) else sep
         case HardBreak => Break(ops[..n])
         case _ => Literal(ops[n]))
  }

  /** No break point broken. */
  function Unbroken(index: nat): bool { false }

  /** The unbroken, unindented rendering. */
  function Flat(ops: seq<Op>): string {
    if ops == [] then "" else Flat(ops[..|ops| - 1]) + FlatOp(ops[|ops| - 1])
  }

  function FlatOp(op: Op): string {
    match op
    case Breakable(sep) => sep
    case HardBreak => "\n"
    case _ => Literal(op)
  }

  /** The text between consecutive break points. */
  function Pieces(ops: seq<Op>): (r: seq<string>)
    ensures |r| >= 1
  {
    if ops == [] then [""]
    else
      var before := Pieces(ops[..|ops| - 1]);
      if ops[|ops| - 1].Breakable? then before + [""]
      else before[..|before| - 1] + [before[|before| - 1] + Literal(ops[|ops| - 1])]
  }

  /** What `Layout` puts at each break point. */
  function Gaps(ops: seq<Op>, broken: nat -> bool): seq<string> {
    if ops == [] then []
    else
      var n := |ops| - 1;
      Gaps(ops[..n], broken)
      + (match ops[n]
         case Breakable(sep) => [if broken(n) then Break(ops[..n]) else sep]
         case _ => [])
  }

  /** `pieces` with `gaps` between them. */
  function Weave(pieces: seq<string>, gaps: seq<string>): string
    requires |pieces| == |gaps| + 1
  {
    if gaps == [] then pieces[0]
    else Weave(pieces[..|gaps|], gaps[..|gaps| - 1]) + gaps[|gaps| - 1] + pieces[|gaps|]
  }
}
