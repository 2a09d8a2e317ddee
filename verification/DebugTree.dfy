/** The tree a derived-Debug representation parses into, and the printer
    operations it is emitted as (src/pretty.rs). */
module DebugTree {
  datatype Node =
    | Leaf(text: string)
    | Group(prefix: string, delimiter: char, named: bool, items: seq<Item>)

  /** One comma-separated element of a group. */
  datatype Item = Item(nodes: seq<Node>)

  /** What the printer is asked to do, in order. */
  datatype Op =
    | Text(text: string)
    | Breakable(sep: string)
    | HardBreak
    | BeginGroup(indent: nat, open: string)
    | EndGroup(close: string)

  // ---------- emission ----------

  /** The segments of `s` between newlines, as `str::split('\n')` yields them. */
  function Segments(s: string): (r: seq<string>)
    ensures |r| >= 1
  {
    if s == "" then [""]
    else
      var before := Segments(s[..|s| - 1]);
      if s[|s| - 1] == '\n' then before + [""]
      else before[..|before| - 1] + [before[|before| - 1] + [s[|s| - 1]]]
  }

  function SegmentOps(segs: seq<string>): seq<Op> {
    if segs == [] then []
    else
      SegmentOps(segs[..|segs| - 1])
      + (if |segs| > 1 then [HardBreak] else [])
      + (if segs[|segs| - 1] != "" then [Text(segs[|segs| - 1])] else [])
  }

  function TextOps(s: string): seq<Op> {
    SegmentOps(Segments(s))
  }

  function Open(node: Node): string
    requires node.Group?
  {
    if node.delimiter == '{' then
      if node.named || node.prefix != "" then node.prefix + " {" else "{"
    else if node.delimiter == '[' then node.prefix + "["
    else node.prefix + "("
  }

  function Close(node: Node): string
    requires node.Group?
  {
    if node.delimiter == '{' then
      if node.named then " }" else "}"
    else if node.delimiter == '[' then "]"
    else ")"
  }

  function Indent(node: Node): nat
    requires node.Group?
  {
    if node.delimiter == '{' && node.named then 4 else 1
  }

  function EmitNode(node: Node): seq<Op> {
    match node
    case Leaf(text) => TextOps(text)
    case Group(_, _, named, items) =>
      [BeginGroup(Indent(node), Open(node))]
      + (if named then [Breakable(" ")] else [])
      + EmitItems(items)
      + [EndGroup(Close(node))]
  }

  function EmitItems(items: seq<Item>): seq<Op> {
    if items == [] then []
    else EmitItems(items[..|items| - 1]) + ItemOps(|items| - 1, items[|items| - 1])
  }

  /** An item, after a comma and a break point unless it is the first. */
  function ItemOps(index: nat, item: Item): seq<Op>
    decreases item
  {
    (if index > 0 then TextOps(",") + [Breakable(" ")] else []) + EmitNodes(item.nodes)
  }

  function EmitNodes(nodes: seq<Node>): seq<Op> {
    if nodes == [] then []
    else EmitNodes(nodes[..|nodes| - 1]) + EmitNode(nodes[|nodes| - 1])
  }

  lemma {:induction false} Associative<T>(a: seq<T>, b: seq<T>, c: seq<T>)
    ensures a + b + c == a + (b + c)
  {}
}
