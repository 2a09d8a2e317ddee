/** The recursive-descent parser over derived-Debug text (src/pretty.rs):
    first as functions of the input, the position and the loop state, then as
    the object whose methods advance `pos` and `depth` in place. */
module DebugParser {
  import opened Wrappers
  import opened DebugTree

  const MAX_DEBUG_DEPTH: nat := 64

  predicate IsOpen(c: char) { c == '[' || c == '(' || c == '{' }

  predicate IsClose(c: char) { c == ']' || c == ')' || c == '}' }

  function CloseOf(open: char): char {
    if open == '[' then ']' else if open == '(' then ')' else '}'
  }

  /** Whether the input has `c` at `pos`. */
  predicate At(s: string, pos: nat, c: char) { pos < |s| && s[pos] == c }

  /** Where an item stops: a close delimiter, `", "`, `" }"` or the end. */
  predicate ItemEnds(s: string, pos: nat) {
    || pos >= |s|
    || IsClose(s[pos])
    || (s[pos] == ',' && At(s, pos + 1, ' '))
    || (s[pos] == ' ' && At(s, pos + 1, '}'))
  }

  function Flush(nodes: seq<Node>, text: string): seq<Node> {
    if text == "" then nodes else nodes + [Leaf(text)]
  }

  /** One past the last space of `s`, or 0. */
  function AfterLastSpace(s: string): (i: nat)
    ensures i <= |s|
    ensures i > 0 ==> s[i - 1] == ' '
    ensures ' ' !in s[i..]
  {
    if s == "" then 0
    else if s[|s| - 1] == ' ' then |s|
    else
      var i := AfterLastSpace(s[..|s| - 1]);
      assert s[i..] == s[..|s| - 1][i..] + [s[|s| - 1]];
      i
  }

  /** The remaining text and the group prefix split off its end. */
  function SplitPrefix(text: string, delimiter: char): (r: (string, string))
    ensures delimiter != '{' ==> r.0 + r.1 == text
    ensures delimiter == '{' && r.1 != "" ==> r.0 + r.1 + " " == text
    ensures delimiter == '{' && r.1 == "" ==> r.0 == text
  {
    if delimiter == '{' then
      if text == "" || text[|text| - 1] != ' ' then (text, "")
      else
        var withoutSpace := text[..|text| - 1];
        var start := AfterLastSpace(withoutSpace);
        var prefix := withoutSpace[start..];
        if prefix == "" then (text, "")
        else
          assert withoutSpace[..start] + prefix == withoutSpace;
          assert withoutSpace + " " == text;
          (withoutSpace[..start], prefix)
    else
      var start := AfterLastSpace(text);
      (text[..start], text[start..])
  }

  /** The position after the closing `quote` of a literal being scanned at
      `pos`; a backslash takes the next character with it. */
  function LexEnd(s: string, quote: char, pos: nat): (r: Option<nat>)
    requires pos <= |s|
    ensures r.Some? ==> pos < r.value <= |s|
    decreases |s| - pos
  {
    if pos == |s| then None
    else if s[pos] == '\\' then
      if pos + 1 == |s| then None else LexEnd(s, quote, pos + 2)
    else if s[pos] == quote then Some(pos + 1)
    else LexEnd(s, quote, pos + 1)
  }

  /** The rest of one item, from the loop state (`nodes`, `text`). */
  function ItemFrom(s: string, pos: nat, depth: nat, nodes: seq<Node>, text: string): (r: Option<(seq<Node>, nat)>)
    requires pos <= |s|
    ensures r.Some? ==> pos <= r.value.1 <= |s| && ItemEnds(s, r.value.1)
    decreases |s| - pos, 1
  {
    if ItemEnds(s, pos) then Some((Flush(nodes, text), pos))
    else if s[pos] == '"' || s[pos] == '\'' then
      match LexEnd(s, s[pos], pos + 1)
      case None => None
      case Some(end) => ItemFrom(s, end, depth, Flush(nodes, text) + [Leaf(s[pos..end])], "")
    else if IsOpen(s[pos]) then
      var (rest, prefix) := SplitPrefix(text, s[pos]);
      match GroupFrom(s, pos, depth, prefix)
      case None => None
      case Some((group, end)) => ItemFrom(s, end, depth, Flush(nodes, rest) + [group], "")
    else ItemFrom(s, pos + 1, depth, nodes, text + [s[pos]])
  }

  /** Derived-struct braces: a prefixed `{` followed by a space. */
  predicate Named(s: string, pos: nat, prefix: string) {
    At(s, pos, '{') && prefix != "" && At(s, pos + 1, ' ')
  }

  function GroupFrom(s: string, pos: nat, depth: nat, prefix: string): (r: Option<(Node, nat)>)
    requires pos < |s| && IsOpen(s[pos])
    ensures r.Some? ==> pos < r.value.1 <= |s| && r.value.0.Group?
    decreases |s| - pos, 0
  {
    if depth == MAX_DEBUG_DEPTH then None
    else
      var close := CloseOf(s[pos]);
      var named := Named(s, pos, prefix);
      var start := if named then pos + 2 else pos + 1;
      if !named && At(s, start, close) then Some((Group(prefix, s[pos], false, []), start + 1))
      else
        match ItemsFrom(s, start, depth + 1, close, named, [])
        case None => None
        case Some((items, end)) => Some((Group(prefix, s[pos], named, items), end))
  }

  /** The rest of a group's items and its close. */
  function ItemsFrom(s: string, pos: nat, depth: nat, close: char, named: bool, items: seq<Item>)
    : (r: Option<(seq<Item>, nat)>)
    requires pos <= |s|
    ensures r.Some? ==> pos < r.value.1 <= |s| && |r.value.0| > |items|
    decreases |s| - pos, 2
  {
    match ItemFrom(s, pos, depth, [], "")
    case None => None
    case Some((nodes, p)) =>
      var items' := items + [Item(nodes)];
      if At(s, p, ',') && At(s, p + 1, ' ') then ItemsFrom(s, p + 2, depth, close, named, items')
      else if named && At(s, p, ' ') && At(s, p + 1, close) then Some((items', p + 2))
      else if !named && At(s, p, close) then Some((items', p + 1))
      else None
  }

  function Parse(repr: string): Option<seq<Node>> {
    if '\n' in repr then None
    else
      match ItemFrom(repr, 0, 0, [], "")
      case None => None
      case Some((nodes, end)) => if end == |repr| then Some(nodes) else None
  }

  // ---------- the parser object ----------

  method FlushText(text: string, nodes: seq<Node>) returns (text': string, nodes': seq<Node>)
    ensures text' == "" && nodes' == Flush(nodes, text)
  {
    text', nodes' := text, nodes;
    if text' != "" {
      nodes' := nodes' + [Leaf(text')];
      text' := "";
    }
  }

  /** `str::rfind(' ')`, plus one, or 0. */
  method RFindSpace(s: string) returns (start: nat)
    ensures start == AfterLastSpace(s)
  {
    start := |s|;
    while start > 0 && s[start - 1] != ' '
      invariant start <= |s|
      invariant AfterLastSpace(s) == AfterLastSpace(s[..start])
    {
      assert s[..start][..start - 1] == s[..start - 1];
      start := start - 1;
    }
    assert start == 0 ==> s[..start] == "";
  }

  method TakeGroupPrefix(text: string, delimiter: char) returns (text': string, prefix: string)
    ensures (text', prefix) == SplitPrefix(text, delimiter)
  {
    text' := text;
    if delimiter == '{' {
      if text == "" || text[|text| - 1] != ' ' {
        return text, "";
      }
      var withoutSpace := text[..|text| - 1];
      var start := RFindSpace(withoutSpace);
      prefix := withoutSpace[start..];
      if prefix == "" {
        return text, "";
      }
      text' := text[..|text| - |prefix| - 1];
      assert text' == withoutSpace[..start];
    } else {
      var start := RFindSpace(text);
      prefix := text[start..];
      text' := text[..start];
    }
  }

  class DebugRepr {
    const chars: string
    var pos: nat
    var depth: nat

    constructor (repr: string)
      ensures chars == repr && pos == 0 && depth == 0
    {
      chars := repr;
      pos := 0;
      depth := 0;
    }

    /** Lex a literal whose opening quote is the current character. */
    method LexQuoted() returns (r: Option<string>)
      requires pos < |chars|
      modifies this`pos
      ensures pos <= |chars|
      ensures r.Some? <==> LexEnd(chars, chars[old(pos)], old(pos) + 1).Some?
      ensures r.Some? ==>
                && LexEnd(chars, chars[old(pos)], old(pos) + 1) == Some(pos)
                && r.value == chars[old(pos)..pos]
    {
      var quote := chars[pos];
      var lit := [quote];
      pos := pos + 1;
      while true
        invariant old(pos) < pos <= |chars|
        invariant lit == chars[old(pos)..pos]
        invariant LexEnd(chars, quote, pos) == LexEnd(chars, quote, old(pos) + 1)
        decreases |chars| - pos
      {
        if pos == |chars| { return None; }
        var c := chars[pos];
        assert chars[old(pos)..pos + 1] == chars[old(pos)..pos] + [c];
        lit := lit + [c];
        pos := pos + 1;
        if c == '\\' {
          if pos == |chars| { return None; }
          assert chars[old(pos)..pos + 1] == chars[old(pos)..pos] + [chars[pos]];
          lit := lit + [chars[pos]];
          pos := pos + 1;
        } else if c == quote {
          return Some(lit);
        }
      }
    }

    method ParseItem() returns (r: Option<seq<Node>>)
      requires pos <= |chars|
      modifies this
      ensures pos <= |chars|
      ensures r.Some? <==> ItemFrom(chars, old(pos), old(depth), [], "").Some?
      ensures r.Some? ==> ItemFrom(chars, old(pos), old(depth), [], "") == Some((r.value, pos))
      ensures r.Some? ==> depth == old(depth)
      decreases |chars| - pos, 1
    {
      var nodes: seq<Node> := [];
      var text := "";
      ghost var whole := ItemFrom(chars, pos, depth, [], "");
      while !ItemEnds(chars, pos)
        invariant old(pos) <= pos <= |chars| && depth == old(depth)
        invariant ItemFrom(chars, pos, depth, nodes, text) == whole
        decreases |chars| - pos
      {
        var c := chars[pos];
        if c == '"' || c == '\'' {
          text, nodes := FlushText(text, nodes);
          var lit := LexQuoted();
          if lit == None { return None; }
          nodes := nodes + [Leaf(lit.value)];
        } else if IsOpen(c) {
          var prefix;
          text, prefix := TakeGroupPrefix(text, c);
          text, nodes := FlushText(text, nodes);
          var group := ParseGroup(prefix);
          if group == None { return None; }
          nodes := nodes + [group.value];
        } else {
          text := text + [c];
          pos := pos + 1;
        }
      }
      text, nodes := FlushText(text, nodes);
      r := Some(nodes);
    }

    /** The loop of `parse_group` over a group's items, up to and including
        its close delimiter. */
    method ParseItems(close: char, named: bool) returns (r: Option<seq<Item>>)
      requires pos <= |chars|
      modifies this
      ensures pos <= |chars|
      ensures r.Some? <==> ItemsFrom(chars, old(pos), old(depth), close, named, []).Some?
      ensures r.Some? ==> ItemsFrom(chars, old(pos), old(depth), close, named, []) == Some((r.value, pos))
      ensures r.Some? ==> depth == old(depth)
      decreases |chars| - pos, 2
    {
      var items: seq<Item> := [];
      ghost var whole := ItemsFrom(chars, pos, depth, close, named, []);
      while true
        invariant old(pos) <= pos <= |chars| && depth == old(depth)
        invariant ItemsFrom(chars, pos, depth, close, named, items) == whole
        decreases |chars| - pos
      {
        var item := ParseItem();
        if item == None { return None; }
        items := items + [Item(item.value)];
        if At(chars, pos, ',') && At(chars, pos + 1, ' ') {
          pos := pos + 2;
        } else if named && At(chars, pos, ' ') && At(chars, pos + 1, close) {
          pos := pos + 2;
          return Some(items);
        } else if !named && At(chars, pos, close) {
          pos := pos + 1;
          return Some(items);
        } else {
          return None;
        }
      }
    }

    method ParseGroup(prefix: string) returns (r: Option<Node>)
      requires pos < |chars| && IsOpen(chars[pos])
      modifies this
      ensures pos <= |chars|
      ensures r.Some? <==> GroupFrom(chars, old(pos), old(depth), prefix).Some?
      ensures r.Some? ==> GroupFrom(chars, old(pos), old(depth), prefix) == Some((r.value, pos))
      ensures r.Some? ==> depth == old(depth)
      decreases |chars| - pos, 0
    {
      if depth == MAX_DEBUG_DEPTH { return None; }
      depth := depth + 1;
      var delimiter := chars[pos];
      pos := pos + 1;
      var close := CloseOf(delimiter);
      var named := delimiter == '{' && prefix != "" && At(chars, pos, ' ');
      if named {
        pos := pos + 1;
      }
      var items: seq<Item> := [];
      if !named && At(chars, pos, close) {
        pos := pos + 1;
      } else {
        var parsed := ParseItems(close, named);
        if parsed == None { return None; }
        items := parsed.value;
      }
      depth := depth - 1;
      r := Some(Group(prefix, delimiter, named, items));
    }
  }

  method ParseRepr(repr: string) returns (r: Option<seq<Node>>)
    ensures r == Parse(repr)
  {
    if '\n' in repr { return None; }
    var parser := new DebugRepr(repr);
    r := parser.ParseItem();
    if r.Some? && parser.pos != |repr| { return None; }
  }
}
