/** Printing a representation never changes its characters: what is parsed and
    emitted again renders as the input, laid out in any way. */
module DebugRoundTrip {
  import opened Wrappers
  import opened DebugTree
  import opened DebugParser
  import opened DebugPrinter

  // ---------- flat rendering ----------

  lemma {:induction false} FlatLast(ops: seq<Op>, op: Op)
    ensures Flat(ops + [op]) == Flat(ops) + FlatOp(op)
  {
    assert (ops + [op])[..|ops|] == ops;
  }

  lemma {:induction false} FlatConcat(a: seq<Op>, b: seq<Op>)
    ensures Flat(a + b) == Flat(a) + Flat(b)
  {
    if b == [] {
      assert a + b == a;
    } else {
      var init, last := b[..|b| - 1], b[|b| - 1];
      assert b == init + [last];
      FlatConcat(a, init);
      FlatLast(init, last);
      FlatLast(a + init, last);
      Associative(a, init, [last]);
      Associative(Flat(a), Flat(init), FlatOp(last));
    }
  }

  function JoinLines(segments: seq<string>): string {
    if segments == [] then ""
    else
      JoinLines(segments[..|segments| - 1])
      + (if |segments| > 1 then "\n" else "")
      + segments[|segments| - 1]
  }

  lemma {:induction false} FlatSegments(segments: seq<string>)
    ensures Flat(SegmentOps(segments)) == JoinLines(segments)
  {
    if segments != [] {
      var before := SegmentOps(segments[..|segments| - 1]);
      var last := segments[|segments| - 1];
      var br := if |segments| > 1 then [HardBreak] else [];
      var text := if last != "" then [Text(last)] else [];
      FlatSegments(segments[..|segments| - 1]);
      FlatConcat(before + br, text);
      FlatConcat(before, br);
    }
  }

  lemma {:induction false} JoinLast(segments: seq<string>, last: string)
    ensures JoinLines(segments + [last]) == JoinLines(segments) + (if segments != [] then "\n" else "") + last
  {
    assert (segments + [last])[..|segments|] == segments;
  }

  lemma {:induction false} JoinSegments(s: string)
    ensures JoinLines(Segments(s)) == s
  {
    if s != "" {
      var init, c := s[..|s| - 1], s[|s| - 1];
      var before := Segments(init);
      JoinSegments(init);
      assert s == init + [c];
      if c == '\n' {
        JoinLast(before, "");
      } else {
        var front, last := before[..|before| - 1], before[|before| - 1];
        assert before == front + [last];
        JoinLast(front, last);
        JoinLast(front, last + [c]);
        Associative(JoinLines(front) + (if front != [] then "\n" else ""), last, [c]);
      }
    }
  }

  lemma {:induction false} FlatTextOps(s: string)
    ensures Flat(TextOps(s)) == s
  {
    JoinSegments(s);
    FlatSegments(Segments(s));
  }

  function FlatNodes(nodes: seq<Node>): string { Flat(EmitNodes(nodes)) }

  lemma {:induction false} FlatAppend(nodes: seq<Node>, node: Node)
    ensures FlatNodes(nodes + [node]) == FlatNodes(nodes) + Flat(EmitNode(node))
  {
    assert (nodes + [node])[..|nodes|] == nodes;
    FlatConcat(EmitNodes(nodes), EmitNode(node));
  }

  lemma {:induction false} FlatFlush(nodes: seq<Node>, text: string)
    ensures FlatNodes(Flush(nodes, text)) == FlatNodes(nodes) + text
  {
    if text != "" {
      FlatAppend(nodes, Leaf(text));
      FlatTextOps(text);
    }
  }

  function FlatItems(items: seq<Item>): string { Flat(EmitItems(items)) }

  lemma {:induction false} FlatItemOps(index: nat, item: Item)
    ensures Flat(ItemOps(index, item)) == (if index == 0 then "" else ", ") + FlatNodes(item.nodes)
  {
    var comma := TextOps(",") + [Breakable(" ")];
    if index > 0 {
      FlatConcat(comma, EmitNodes(item.nodes));
      assert Flat(comma) == ", " by {
        FlatConcat(TextOps(","), [Breakable(" ")]);
        FlatTextOps(",");
        assert Flat([Breakable(" ")]) == Flat([]) + " ";
      }
    } else {
      assert ItemOps(0, item) == EmitNodes(item.nodes);
    }
  }

  /** What separates the next item from the items before it. */
  function Comma(items: seq<Item>): string { if items == [] then "" else ", " }

  lemma {:induction false} FlatItemsAppend(items: seq<Item>, item: Item)
    ensures FlatItems(items + [item])
         == FlatItems(items) + Comma(items) + FlatNodes(item.nodes)
  {
    assert (items + [item])[..|items|] == items;
    FlatConcat(EmitItems(items), ItemOps(|items|, item));
    FlatItemOps(|items|, item);
    Associative(FlatItems(items), Comma(items), FlatNodes(item.nodes));
  }

  lemma {:induction false} FlatOne(op: Op)
    ensures Flat([op]) == FlatOp(op)
  {
    assert Flat([]) + FlatOp(op) == FlatOp(op);
  }

  lemma {:induction false} FlatGroup(group: Node)
    requires group.Group?
    ensures Flat(EmitNode(group))
         == Open(group) + (if group.named then " " else "") + FlatItems(group.items) + Close(group)
  {
    var head := [BeginGroup(Indent(group), Open(group))];
    var br := if group.named then [Breakable(" ")] else [];
    var body := EmitItems(group.items);
    FlatConcat(head + br + body, [EndGroup(Close(group))]);
    FlatConcat(head + br, body);
    FlatConcat(head, br);
    FlatOne(BeginGroup(Indent(group), Open(group)));
    FlatOne(Breakable(" "));
    FlatOne(EndGroup(Close(group)));
    assert Flat(br) == if group.named then " " else "";
  }

  // ---------- the parser loses nothing ----------

  /** Splitting a slice and regrouping around it. */
  lemma {:induction false} Regroup(a: string, b: string, s: string, i: nat, m: nat, e: nat)
    requires i <= m <= e <= |s|
    ensures a + (b + s[i..m]) + s[m..e] == a + b + s[i..e]
    ensures a + b + s[i..m] + s[m..e] == a + b + s[i..e]
  {
    assert s[i..e] == s[i..m] + s[m..e];
  }

  lemma {:induction false} FlatQuoted(nodes: seq<Node>, text: string, lit: string)
    ensures FlatNodes(Flush(nodes, text) + [Leaf(lit)]) == FlatNodes(nodes) + text + lit
  {
    FlatFlush(nodes, text);
    FlatAppend(Flush(nodes, text), Leaf(lit));
    FlatTextOps(lit);
  }

  lemma {:induction false} FlatPrefixed(nodes: seq<Node>, text: string, delimiter: char, group: Node, after: string)
    requires var (_, prefix) := SplitPrefix(text, delimiter);
             Flat(EmitNode(group)) == prefix + Joint(delimiter, prefix) + after
    ensures FlatNodes(Flush(nodes, SplitPrefix(text, delimiter).0) + [group]) == FlatNodes(nodes) + text + after
  {
    var (rest, prefix) := SplitPrefix(text, delimiter);
    FlatFlush(nodes, rest);
    FlatAppend(Flush(nodes, rest), group);
    RejoinPrefix(FlatNodes(nodes), text, delimiter, after);
  }

  lemma {:induction false} ItemKeepsText(s: string, pos: nat, depth: nat, nodes: seq<Node>, text: string)
    requires pos <= |s|
    requires ItemFrom(s, pos, depth, nodes, text).Some?
    ensures var (parsed, end) := ItemFrom(s, pos, depth, nodes, text).value;
            FlatNodes(parsed) == FlatNodes(nodes) + text + s[pos..end]
    decreases |s| - pos, 3
  {
    if ItemEnds(s, pos) {
      FlatFlush(nodes, text);
      assert s[pos..pos] == "";
    } else if s[pos] == '"' || s[pos] == '\'' {
      QuotedKeepsText(s, pos, depth, nodes, text);
    } else if IsOpen(s[pos]) {
      PrefixedKeepsText(s, pos, depth, nodes, text);
    } else {
      var (_, end) := ItemFrom(s, pos, depth, nodes, text).value;
      ItemKeepsText(s, pos + 1, depth, nodes, text + [s[pos]]);
      assert [s[pos]] == s[pos..pos + 1];
      Regroup(FlatNodes(nodes), text, s, pos, pos + 1, end);
    }
  }

  lemma {:induction false} QuotedKeepsText(s: string, pos: nat, depth: nat, nodes: seq<Node>, text: string)
    requires pos < |s| && !ItemEnds(s, pos) && (s[pos] == '"' || s[pos] == '\'')
    requires ItemFrom(s, pos, depth, nodes, text).Some?
    ensures var (parsed, end) := ItemFrom(s, pos, depth, nodes, text).value;
            FlatNodes(parsed) == FlatNodes(nodes) + text + s[pos..end]
    decreases |s| - pos, 2
  {
    var (_, end) := ItemFrom(s, pos, depth, nodes, text).value;
    var p := LexEnd(s, s[pos], pos + 1).value;
    ItemKeepsText(s, p, depth, Flush(nodes, text) + [Leaf(s[pos..p])], "");
    FlatQuoted(nodes, text, s[pos..p]);
    Regroup(FlatNodes(nodes), text, s, pos, p, end);
  }

  lemma {:induction false} PrefixedKeepsText(s: string, pos: nat, depth: nat, nodes: seq<Node>, text: string)
    requires pos < |s| && !ItemEnds(s, pos) && IsOpen(s[pos])
    requires ItemFrom(s, pos, depth, nodes, text).Some?
    ensures var (parsed, end) := ItemFrom(s, pos, depth, nodes, text).value;
            FlatNodes(parsed) == FlatNodes(nodes) + text + s[pos..end]
    decreases |s| - pos, 2
  {
    var (_, end) := ItemFrom(s, pos, depth, nodes, text).value;
    var (rest, prefix) := SplitPrefix(text, s[pos]);
    var (group, p) := GroupFrom(s, pos, depth, prefix).value;
    ItemKeepsText(s, p, depth, Flush(nodes, rest) + [group], "");
    GroupKeepsText(s, pos, depth, prefix, group, p);
    PrefixedText(s, pos, p, end, nodes, text, group);
  }

  /** The text before a group, the group and what follows it, put together. */
  lemma {:induction false} PrefixedText(s: string, pos: nat, p: nat, end: nat, nodes: seq<Node>, text: string, group: Node)
    requires pos < p <= end <= |s|
    requires var prefix := SplitPrefix(text, s[pos]).1;
             Flat(EmitNode(group)) == prefix + Joint(s[pos], prefix) + s[pos..p]
    ensures FlatNodes(Flush(nodes, SplitPrefix(text, s[pos]).0) + [group]) + "" + s[p..end]
            == FlatNodes(nodes) + text + s[pos..end]
  {
    FlatPrefixed(nodes, text, s[pos], group, s[pos..p]);
    JoinSlices(FlatNodes(Flush(nodes, SplitPrefix(text, s[pos]).0) + [group]), FlatNodes(nodes), text, s, pos, p, end);
  }

  lemma {:induction false} JoinSlices(all: string, before: string, text: string, s: string, i: nat, m: nat, e: nat)
    requires i <= m <= e <= |s| && all == before + text + s[i..m]
    ensures all + "" + s[m..e] == before + text + s[i..e]
  {
    assert s[i..e] == s[i..m] + s[m..e];
  }

  /** What separates a group's prefix from its open delimiter. */
  function Joint(delimiter: char, prefix: string): string {
    if delimiter == '{' && prefix != "" then " " else ""
  }

  lemma {:induction false} RejoinPrefix(before: string, text: string, delimiter: char, after: string)
    ensures var (rest, prefix) := SplitPrefix(text, delimiter);
            before + rest + (prefix + Joint(delimiter, prefix) + after) == before + text + after
  {
    var (rest, prefix) := SplitPrefix(text, delimiter);
    assert text == rest + prefix + Joint(delimiter, prefix);
  }

  lemma {:induction false} GroupKeepsText(s: string, pos: nat, depth: nat, prefix: string, group: Node, end: nat)
    requires pos < |s| && IsOpen(s[pos])
    requires GroupFrom(s, pos, depth, prefix) == Some((group, end))
    ensures Flat(EmitNode(group)) == prefix + Joint(s[pos], prefix) + s[pos..end]
    decreases |s| - pos, 1
  {
    var start := GroupStep(s, pos, depth, prefix, group, end);
    InsideKeepsText(s, pos, depth, group, start, end);
    OpenSlice(s, pos, prefix);
    var gap := if group.named then " " else "";
    OpenString(group, s[pos], gap);
    FlatGroup(group);
    GroupString(prefix + Joint(s[pos], prefix), Open(group) + gap, FlatItems(group.items), Close(group), s, pos, start, end);
  }

  /** Where the items of a group start, and how it ends. */
  lemma {:induction false} GroupStep(s: string, pos: nat, depth: nat, prefix: string, group: Node, end: nat)
    returns (start: nat)
    requires pos < |s| && IsOpen(s[pos])
    requires GroupFrom(s, pos, depth, prefix) == Some((group, end))
    ensures group.Group? && group.delimiter == s[pos] && group.prefix == prefix && group.named == Named(s, pos, prefix)
    ensures start == (if group.named then pos + 2 else pos + 1) && start <= end <= |s|
    ensures group.named ==> s[pos] == '{'
    ensures !group.named && At(s, start, CloseOf(s[pos])) ==> group.items == [] && end == start + 1
    ensures group.named || !At(s, start, CloseOf(s[pos])) ==>
              ItemsFrom(s, start, depth + 1, CloseOf(s[pos]), group.named, []) == Some((group.items, end))
  {
    start := if Named(s, pos, prefix) then pos + 2 else pos + 1;
  }

  /** What a group holds, and its close. */
  lemma {:induction false} InsideKeepsText(s: string, pos: nat, depth: nat, group: Node, start: nat, end: nat)
    requires pos < start <= end <= |s| && IsOpen(s[pos]) && group.Group? && group.delimiter == s[pos]
    requires group.named ==> s[pos] == '{'
    requires !group.named && At(s, start, CloseOf(s[pos])) ==> group.items == [] && end == start + 1
    requires group.named || !At(s, start, CloseOf(s[pos])) ==>
               ItemsFrom(s, start, depth + 1, CloseOf(s[pos]), group.named, []) == Some((group.items, end))
    ensures FlatItems(group.items) + Close(group) == s[start..end]
    decreases |s| - pos, 0
  {
    var close := CloseOf(s[pos]);
    CloseIsTail(group);
    if !group.named && At(s, start, close) {
      OneChar(s, start, close);
      NothingFlat("");
    } else {
      ItemsKeepText(s, start, depth + 1, close, group.named, [], group.items, end);
      NothingFlat(s[start..end]);
    }
  }

  lemma {:induction false} CloseIsTail(group: Node)
    requires group.Group? && IsOpen(group.delimiter) && (group.named ==> group.delimiter == '{')
    ensures Close(group) == Tail(CloseOf(group.delimiter), group.named)
  {}

  lemma {:induction false} OneChar(s: string, i: nat, c: char)
    requires At(s, i, c)
    ensures s[i..i + 1] == [c]
  {}

  lemma {:induction false} NothingFlat(text: string)
    ensures FlatItems([]) == "" && FlatItems([]) + Comma([]) + text == text
  {}

  lemma {:induction false} OpenSlice(s: string, pos: nat, prefix: string)
    requires pos < |s|
    ensures Named(s, pos, prefix) ==> pos + 2 <= |s| && s[pos..pos + 2] == [s[pos]] + " "
    ensures s[pos..pos + 1] == [s[pos]] + ""
  {
    if Named(s, pos, prefix) { assert s[pos + 1] == ' '; }
  }

  lemma {:induction false} OpenString(group: Node, delimiter: char, gap: string)
    requires group.Group? && IsOpen(delimiter) && group.delimiter == delimiter
    requires group.named ==> delimiter == '{' && group.prefix != ""
    ensures Open(group) + gap == group.prefix + Joint(delimiter, group.prefix) + ([delimiter] + gap)
  {
    assert Open(group) == group.prefix + Joint(delimiter, group.prefix) + [delimiter];
  }

  lemma {:induction false} GroupString(prefix: string, open: string, body: string, close: string, s: string, i: nat, m: nat, e: nat)
    requires i <= m <= e <= |s|
    requires open == prefix + s[i..m] && s[m..e] == body + close
    ensures open + body + close == prefix + s[i..e]
  {
    assert s[i..e] == s[i..m] + s[m..e];
  }

  /** What closes a group after its last item. */
  function Tail(close: char, named: bool): string { (if named then " " else "") + [close] }

  /** How far one item takes the items of a group. */
  lemma {:induction false} ItemsStep(s: string, pos: nat, depth: nat, close: char, named: bool, items: seq<Item>)
    returns (nodes: seq<Node>, p: nat)
    requires pos <= |s| && ItemsFrom(s, pos, depth, close, named, items).Some?
    ensures ItemFrom(s, pos, depth, [], "") == Some((nodes, p))
    ensures var more, found := items + [Item(nodes)], ItemsFrom(s, pos, depth, close, named, items);
            && pos <= p <= found.value.1 <= |s|
            && if At(s, p, ',') && At(s, p + 1, ' ')
               then p + 2 <= found.value.1 && ItemsFrom(s, p + 2, depth, close, named, more) == found
               else found.value.0 == more && s[p..found.value.1] == Tail(close, named)
  {
    var item := ItemFrom(s, pos, depth, [], "").value;
    nodes, p := item.0, item.1;
  }

  lemma {:induction false} ItemsKeepText(
      s: string, pos: nat, depth: nat, close: char, named: bool, items: seq<Item>, found: seq<Item>, end: nat)
    requires pos <= |s|
    requires ItemsFrom(s, pos, depth, close, named, items) == Some((found, end))
    ensures FlatItems(found) + Tail(close, named) == FlatItems(items) + Comma(items) + s[pos..end]
    decreases |s| - pos, 5
  {
    var nodes, p := ItemsStep(s, pos, depth, close, named, items);
    var more := items + [Item(nodes)];
    NextItemText(s, pos, depth, items, nodes, p);
    if At(s, p, ',') && At(s, p + 1, ' ') {
      MoreItemsText(s, pos, depth, close, named, FlatItems(items) + Comma(items), more, p, found, end);
    } else {
      TailString(FlatItems(items) + Comma(items), FlatItems(more), Tail(close, named), s, pos, p, end);
    }
  }

  /** The items after a comma. */
  lemma {:induction false} MoreItemsText(
      s: string, pos: nat, depth: nat, close: char, named: bool, before: string, more: seq<Item>, p: nat, found: seq<Item>, end: nat)
    requires pos <= p && p + 2 <= end <= |s| && At(s, p, ',') && At(s, p + 1, ' ')
    requires ItemsFrom(s, p + 2, depth, close, named, more) == Some((found, end))
    requires FlatItems(more) == before + s[pos..p] && Comma(more) == ", "
    ensures FlatItems(found) + Tail(close, named) == before + s[pos..end]
    decreases |s| - pos, 4
  {
    ItemsKeepText(s, p + 2, depth, close, named, more, found, end);
    CommaString(before, FlatItems(more), Comma(more), FlatItems(found) + Tail(close, named), s, pos, p, end);
  }

  /** One more item renders as its text after a comma. */
  lemma {:induction false} NextItemText(s: string, pos: nat, depth: nat, items: seq<Item>, nodes: seq<Node>, p: nat)
    requires pos <= |s| && ItemFrom(s, pos, depth, [], "") == Some((nodes, p))
    ensures Comma(items + [Item(nodes)]) == ", "
    ensures FlatItems(items + [Item(nodes)]) == FlatItems(items) + Comma(items) + s[pos..p]
    decreases |s| - pos, 4
  {
    ItemKeepsText(s, pos, depth, [], "");
    AloneText(nodes, s[pos..p]);
    FlatItemsAppend(items, Item(nodes));
  }

  lemma {:induction false} AloneText(nodes: seq<Node>, text: string)
    requires FlatNodes(nodes) == FlatNodes([]) + "" + text
    ensures FlatNodes(nodes) == text
  {}

  lemma {:induction false} TailString(before: string, more: string, tail: string, s: string, i: nat, m: nat, e: nat)
    requires i <= m <= e <= |s| && s[m..e] == tail && more == before + s[i..m]
    ensures more + tail == before + s[i..e]
  {
    assert s[i..e] == s[i..m] + tail;
  }

  lemma {:induction false} CommaString(
      before: string, more: string, comma: string, all: string, s: string, i: nat, m: nat, e: nat)
    requires i <= m && m + 2 <= e <= |s| && At(s, m, ',') && At(s, m + 1, ' ') && comma == ", "
    requires more == before + s[i..m] && all == more + comma + s[m + 2..e]
    ensures all == before + s[i..e]
  {
    assert s[i..e] == s[i..m] + ", " + s[m + 2..e];
  }

  /** What `print_debug_repr` prints renders flat as its argument, for every
      string: parsed or verbatim, with or without newlines. */
  lemma {:induction false} PrintingKeepsEveryCharacter(repr: string)
    ensures Flat(DebugOps(repr)) == repr
  {
    match Parse(repr) {
      case Some(nodes) =>
        ItemKeepsText(repr, 0, 0, [], "");
        assert repr[0..|repr|] == repr;
      case None => FlatTextOps(repr);
    }
  }
}
