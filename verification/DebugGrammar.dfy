/** Derived-Debug values, the text they print as, and the tree the parser
    builds from that text (src/pretty.rs). */
module DebugGrammar {
  import opened Wrappers
  import opened DebugTree
  import opened DebugParser

  /** One character of a literal's body, as Debug escapes it. */
  datatype LitChar = Plain(c: char) | Escaped(c: char)

  datatype Value =
    | Atom(text: string)                               // a number, a unit variant, …
    | Quoted(quote: char, body: seq<LitChar>)          // a string or a character
    | List(children: seq<Child>)
    | Tuple(name: string, children: seq<Child>)        // a tuple, or `Some(…)`
    | Braces(children: seq<Child>)                     // a map or a set
    | Struct(name: string, children: seq<Child>)

  datatype Child =
    | Bare(value: Value)
    | Field(key: string, value: Value)
    | Entry(index: Value, value: Value)

  // ---------- the printed text ----------

  function ShowBody(body: seq<LitChar>): string {
    if body == [] then ""
    else (match body[0] case Plain(c) => [c] case Escaped(c) => ['\\', c]) + ShowBody(body[1..])
  }

  function Show(v: Value): string {
    match v
    case Atom(text) => text
    case Quoted(quote, body) => [quote] + (ShowBody(body) + [quote])
    case List(children) => "[" + (ShowAll(children) + "]")
    case Tuple(name, children) =>
      name + ("(" + (ShowAll(children) + (if OneTuple(v) then ",)" else ")")))
    case Braces(children) => "{" + (ShowAll(children) + "}")
    case Struct(name, children) =>
      if children == [] then name else name + (" { " + (ShowAll(children) + " }"))
  }

  /** Debug prints a nameless tuple of one with a trailing comma. */
  predicate OneTuple(v: Value) { v.Tuple? && v.name == "" && |v.children| == 1 }

  function ShowChild(c: Child): string {
    match c
    case Bare(v) => Show(v)
    case Field(lead, v) => lead + (": " + Show(v))
    case Entry(k, v) => Show(k) + (": " + Show(v))
  }

  function ShowAll(cs: seq<Child>): string {
    if cs == [] then ""
    else if |cs| == 1 then ShowChild(cs[0])
    else ShowChild(cs[0]) + (", " + ShowAll(cs[1..]))
  }

  /** A character an atom, a name or a label may contain. */
  predicate PlainChar(c: char) {
    !IsOpen(c) && !IsClose(c) && c != ' ' && c != ',' && c != '"' && c != '\'' && c != '\n'
  }

  predicate PlainText(t: string) { forall c <- t :: PlainChar(c) }

  predicate WellFormed(v: Value) {
    match v
    case Atom(text) => text != "" && PlainText(text)
    case Quoted(quote, body) =>
      && (quote == '"' || quote == '\'')
      && (forall x <- body :: x.c != '\n' && (x.Plain? ==> x.c != quote && x.c != '\\'))
    case List(children) => WellFormedAll(children)
    case Tuple(name, children) => PlainText(name) && WellFormedAll(children)
    case Braces(children) => WellFormedAll(children)
    case Struct(name, children) =>
      name != "" && PlainText(name) && WellFormedAll(children)
  }

  predicate WellFormedChild(c: Child) {
    match c
    case Bare(v) => WellFormed(v)
    case Field(lead, v) => lead != "" && PlainText(lead) && WellFormed(v)
    case Entry(k, v) => WellFormed(k) && WellFormed(v)
  }

  predicate WellFormedAll(cs: seq<Child>) {
    cs == [] || (WellFormedChild(cs[0]) && WellFormedAll(cs[1..]))
  }

  /** How many delimited groups deep `v` prints. */
  function Depth(v: Value): nat {
    match v
    case Atom(_) => 0
    case Quoted(_, _) => 0
    case List(children) => 1 + DepthAll(children)
    case Tuple(_, children) => 1 + DepthAll(children)
    case Braces(children) => 1 + DepthAll(children)
    case Struct(_, children) => if children == [] then 0 else 1 + DepthAll(children)
  }

  function DepthChild(c: Child): nat {
    match c
    case Bare(v) => Depth(v)
    case Field(_, v) => Depth(v)
    case Entry(k, v) => Max(Depth(k), Depth(v))
  }

  function DepthAll(cs: seq<Child>): nat {
    if cs == [] then 0 else Max(DepthChild(cs[0]), DepthAll(cs[1..]))
  }

  // ---------- the tree ----------

  /** A pending `label: ` before a value. */
  function LabelText(lead: string): string {
    if lead == "" then "" else lead + " "
  }

  /** The nodes and trailing text after `v`, which follows `label`. A map or
      set takes the lead into its group as the prefix. */
  function Tree(v: Value, lead: string, nodes: seq<Node>): (seq<Node>, string)
    decreases v
  {
    match v
    case Atom(text) => (nodes, LabelText(lead) + text)
    case Quoted(_, _) => (Flush(nodes, LabelText(lead)) + [Leaf(Show(v))], "")
    case List(children) => (Flush(nodes, LabelText(lead)) + [Group("", '[', false, Items(children))], "")
    case Tuple(name, children) =>
      (Flush(nodes, LabelText(lead))
       + [Group(name, '(', false, if OneTuple(v) then [CommaItem(children[0])] else Items(children))], "")
    case Braces(children) => (nodes + [Group(lead, '{', false, Items(children))], "")
    case Struct(name, children) =>
      if children == [] then (nodes, LabelText(lead) + name)
      else (Flush(nodes, LabelText(lead)) + [Group(name, '{', true, Items(children))], "")
  }

  function TreeChild(c: Child): (seq<Node>, string)
    decreases c, 0
  {
    match c
    case Bare(v) => Tree(v, "", [])
    case Field(lead, v) => Tree(v, lead + ":", [])
    case Entry(k, v) =>
      var (nodes, text) := Tree(k, "", []);
      Tree(v, text + ":", nodes)
  }

  function ItemOf(c: Child): Item
    decreases c, 1
  {
    var (nodes, text) := TreeChild(c);
    Item(Flush(nodes, text))
  }

  function CommaItem(c: Child): Item
    decreases c, 1
  {
    var (nodes, text) := TreeChild(c);
    Item(Flush(nodes, text + ","))
  }

  /** One item per child. */
  function Items(cs: seq<Child>): (r: seq<Item>)
    ensures |r| == |cs|
    ensures forall i | 0 <= i < |cs| :: r[i] == ItemOf(cs[i])
  {
    if cs == [] then [] else [ItemOf(cs[0])] + Items(cs[1..])
  }

  // ---------- reading the text back ----------

  /** `s` has `t` at `pos`. */
  predicate Has(s: string, pos: nat, t: string) {
    pos + |t| <= |s| && forall i | 0 <= i < |t| :: s[pos + i] == t[i]
  }

  lemma {:induction false} HasConcat(s: string, pos: nat, a: string, b: string)
    ensures Has(s, pos, a + b) <==> Has(s, pos, a) && Has(s, pos + |a|, b)
  {
    if Has(s, pos, a + b) {
      forall i | 0 <= i < |a| ensures s[pos + i] == a[i] { assert (a + b)[i] == a[i]; }
      forall i | 0 <= i < |b| ensures s[pos + |a| + i] == b[i] { assert (a + b)[|a| + i] == b[i]; }
    }
    if Has(s, pos, a) && Has(s, pos + |a|, b) {
      forall i | 0 <= i < |a + b| ensures s[pos + i] == (a + b)[i] {
        if i >= |a| { assert s[pos + |a| + (i - |a|)] == b[i - |a|]; }
      }
    }
  }

  lemma {:induction false} HasChar(s: string, pos: nat, t: string)
    requires Has(s, pos, t) && t != ""
    ensures At(s, pos, t[0])
  {
    assert s[pos + 0] == t[0];
  }

  /** A value's text starts with a character that ends no item. */
  lemma {:induction false} FirstChar(v: Value)
    requires WellFormed(v)
    ensures Show(v) != "" && !IsClose(Show(v)[0]) && Show(v)[0] != ' ' && Show(v)[0] != ','
  {
    match v {
      case Atom(text) => assert PlainChar(text[0]);
      case Tuple(name, _) => if name != "" { assert PlainChar(name[0]); }
      case Struct(name, _) => assert PlainChar(name[0]);
      case _ =>
    }
  }

  lemma {:induction false} LexBody(s: string, quote: char, pos: nat, body: seq<LitChar>)
    requires Has(s, pos, ShowBody(body) + [quote]) && quote != '\\'
    requires forall x <- body :: x.Plain? ==> x.c != quote && x.c != '\\'
    ensures LexEnd(s, quote, pos) == Some(pos + |ShowBody(body)| + 1)
    decreases body
  {
    if body == [] {
      HasChar(s, pos, ShowBody(body) + [quote]);
    } else {
      var head := match body[0] case Plain(c) => [c] case Escaped(c) => ['\\', c];
      assert ShowBody(body) + [quote] == head + (ShowBody(body[1..]) + [quote]);
      HasConcat(s, pos, head, ShowBody(body[1..]) + [quote]);
      HasChar(s, pos, head);
      LexBody(s, quote, pos + |head|, body[1..]);
    }
  }

  // ---------- following the parser's loop ----------

  /** Where the item loop stands. */
  datatype Cursor = Cursor(pos: nat, nodes: seq<Node>, text: string)

  function Rest(s: string, depth: nat, c: Cursor): Option<(seq<Node>, nat)> {
    if c.pos <= |s| then ItemFrom(s, c.pos, depth, c.nodes, c.text) else None
  }

  /** Always true: naming both is what makes `Leads` unfold. */
  predicate Unfold(step: int) { true }

  predicate Key(step: int) { true }

  /** The loop goes from `from` to `to`, or fails. The parser's definition is
      kept out of a proof that does not mention `Key`. */
  ghost predicate Leads(s: string, depth: nat, from: Cursor, to: Option<Cursor>) {
    forall step: int {:trigger Unfold(step), Key(step)} :: Unfold(step) ==>
      Rest(s, depth, from) == (match to case None => None case Some(c) => Rest(s, depth, c))
  }

  lemma {:induction false} LeadsOn(s: string, depth: nat, a: Cursor, b: Cursor, c: Option<Cursor>)
    requires Leads(s, depth, a, Some(b)) && Leads(s, depth, b, c)
    ensures Leads(s, depth, a, c)
  {
    assert Unfold(0) && Key(0);
  }

  /** How text splits before a delimiter, hidden like `Leads`. */
  ghost predicate Splits(text: string, delimiter: char, rest: string, prefix: string) {
    forall step: int {:trigger Unfold(step), Key(step)} :: Unfold(step) ==> SplitPrefix(text, delimiter) == (rest, prefix)
  }

  /** What a group parses to, hidden like `Leads`. */
  ghost predicate GroupGives(s: string, pos: nat, depth: nat, prefix: string, r: Option<(Node, nat)>) {
    forall step: int {:trigger Unfold(step), Key(step)} :: Unfold(step) ==>
      pos < |s| && IsOpen(s[pos]) && GroupFrom(s, pos, depth, prefix) == r
  }

  /** What the rest of a group's items parse to, hidden like `Leads`. */
  ghost predicate ItemsGive(s: string, pos: nat, depth: nat, close: char, named: bool, items: seq<Item>,
                            r: Option<(seq<Item>, nat)>)
  {
    forall step: int {:trigger Unfold(step), Key(step)} :: Unfold(step) ==>
      pos <= |s| && ItemsFrom(s, pos, depth, close, named, items) == r
  }

  /** A cursor at which the item stops decides what the item parses as. */
  lemma {:induction false} LeadsToEnd(s: string, depth: nat, a: Cursor, b: Cursor)
    requires Leads(s, depth, a, Some(b)) && a.pos <= |s| && b.pos <= |s| && ItemEnds(s, b.pos)
    ensures ItemFrom(s, a.pos, depth, a.nodes, a.text) == Some((Flush(b.nodes, b.text), b.pos))
  {
    assert Unfold(0) && Key(0);
    assert Rest(s, depth, a) == Rest(s, depth, b);
  }

  lemma {:induction false} LeadsToFailure(s: string, depth: nat, a: Cursor)
    requires Leads(s, depth, a, None) && a.pos <= |s|
    ensures ItemFrom(s, a.pos, depth, a.nodes, a.text) == None
  {
    assert Unfold(0) && Key(0);
  }

  lemma {:induction false} LastItem(s: string, pos: nat, depth: nat, close: char, named: bool, items: seq<Item>, to: Cursor)
    requires pos <= |s| && to.pos <= |s| && ItemEnds(s, to.pos) && !At(s, to.pos, ',')
    requires Leads(s, depth, Cursor(pos, [], ""), Some(to))
    requires if named then At(s, to.pos, ' ') && At(s, to.pos + 1, close) else At(s, to.pos, close)
    ensures ItemsGive(s, pos, depth, close, named, items,
                      Some((items + [Item(Flush(to.nodes, to.text))], to.pos + |Tail(close, named)|)))
  {
    assert Unfold(0) && Key(0);
    LeadsToEnd(s, depth, Cursor(pos, [], ""), to);
  }

  lemma {:induction false} NextItem(s: string, pos: nat, depth: nat, close: char, named: bool, items: seq<Item>, to: Cursor,
                 r: Option<(seq<Item>, nat)>)
    requires pos <= |s| && to.pos <= |s| && ItemEnds(s, to.pos) && At(s, to.pos, ',') && At(s, to.pos + 1, ' ')
    requires Leads(s, depth, Cursor(pos, [], ""), Some(to))
    requires ItemsGive(s, to.pos + 2, depth, close, named, items + [Item(Flush(to.nodes, to.text))], r)
    ensures ItemsGive(s, pos, depth, close, named, items, r)
  {
    assert Unfold(0) && Key(0);
    LeadsToEnd(s, depth, Cursor(pos, [], ""), to);
  }

  lemma {:induction false} FailedItem(s: string, pos: nat, depth: nat, close: char, named: bool, items: seq<Item>)
    requires pos <= |s| && Leads(s, depth, Cursor(pos, [], ""), None)
    ensures ItemsGive(s, pos, depth, close, named, items, None)
  {
    assert Unfold(0) && Key(0);
    LeadsToFailure(s, depth, Cursor(pos, [], ""));
  }

  lemma {:induction false} EmptyGroup(s: string, pos: nat, depth: nat, prefix: string)
    requires pos < |s| && IsOpen(s[pos]) && !Named(s, pos, prefix) && At(s, pos + 1, CloseOf(s[pos]))
    ensures GroupGives(s, pos, depth, prefix,
                       if depth == MAX_DEBUG_DEPTH then None else Some((Group(prefix, s[pos], false, []), pos + 2)))
  {
    assert Unfold(0) && Key(0);
  }

  lemma {:induction false} FilledGroup(s: string, pos: nat, depth: nat, prefix: string, r: Option<(seq<Item>, nat)>)
    requires pos < |s| && IsOpen(s[pos])
    requires Named(s, pos, prefix) || !At(s, pos + 1, CloseOf(s[pos]))
    requires depth != MAX_DEBUG_DEPTH ==>
      ItemsGive(s, if Named(s, pos, prefix) then pos + 2 else pos + 1, depth + 1,
                CloseOf(s[pos]), Named(s, pos, prefix), [], r)
    ensures GroupGives(s, pos, depth, prefix,
                       if depth == MAX_DEBUG_DEPTH || r == None then None
                       else Some((Group(prefix, s[pos], Named(s, pos, prefix), r.value.0), r.value.1)))
  {
    assert Unfold(0) && Key(0);
  }

  lemma {:induction false} StepPlain(s: string, depth: nat, c: Cursor)
    requires c.pos < |s| && !ItemEnds(s, c.pos)
    requires !IsOpen(s[c.pos]) && s[c.pos] != '"' && s[c.pos] != '\''
    ensures Leads(s, depth, c, Some(Cursor(c.pos + 1, c.nodes, c.text + [s[c.pos]])))
  {
    assert Unfold(0) && Key(0);
  }

  lemma {:induction false} StepQuoted(s: string, depth: nat, c: Cursor, end: nat)
    requires At(s, c.pos, '"') || At(s, c.pos, '\'')
    requires LexEnd(s, s[c.pos], c.pos + 1) == Some(end)
    ensures Leads(s, depth, c, Some(Cursor(end, Flush(c.nodes, c.text) + [Leaf(s[c.pos..end])], "")))
  {
    assert Unfold(0) && Key(0);
  }

  lemma {:induction false} StepGroup(s: string, depth: nat, c: Cursor, rest: string, prefix: string, group: Option<(Node, nat)>)
    requires c.pos < |s| && IsOpen(s[c.pos])
    requires Splits(c.text, s[c.pos], rest, prefix)
    requires GroupGives(s, c.pos, depth, prefix, group)
    ensures Leads(s, depth, c,
                  if group == None then None
                  else Some(Cursor(group.value.1, Flush(c.nodes, rest) + [group.value.0], "")))
  {
    assert Unfold(0) && Key(0);
  }

  lemma {:induction false} ReadPlain(s: string, depth: nat, c: Cursor, t: string)
    requires Has(s, c.pos, t) && PlainText(t)
    ensures Leads(s, depth, c, Some(Cursor(c.pos + |t|, c.nodes, c.text + t)))
    decreases t
  {
    if t == "" {
      assert c.text + t == c.text;
    } else {
      HasChar(s, c.pos, t);
      assert PlainChar(t[0]);
      assert [t[0]] + t[1..] == t;
      HasConcat(s, c.pos, [t[0]], t[1..]);
      var c' := Cursor(c.pos + 1, c.nodes, c.text + [t[0]]);
      StepPlain(s, depth, c);
      ReadPlain(s, depth, c', t[1..]);
      assert c'.text + t[1..] == c.text + t;
      LeadsOn(s, depth, c, c', Some(Cursor(c.pos + |t|, c.nodes, c.text + t)));
    }
  }

  /** `": "` before a value is kept as text. */
  lemma {:induction false} ReadColon(s: string, depth: nat, c: Cursor, v: Value)
    requires Has(s, c.pos, ": " + Show(v)) && WellFormed(v)
    ensures Has(s, c.pos + 2, Show(v))
    ensures Leads(s, depth, c, Some(Cursor(c.pos + 2, c.nodes, LabelText(c.text + ":"))))
  {
    FirstChar(v);
    HasConcat(s, c.pos, ": ", Show(v));
    HasChar(s, c.pos + 2, Show(v));
    assert ": " == ":" + " ";
    HasConcat(s, c.pos, ":", " ");
    HasChar(s, c.pos, ":");
    HasChar(s, c.pos + 1, " ");
    var c' := Cursor(c.pos + 1, c.nodes, c.text + ":");
    StepPlain(s, depth, c);
    StepPlain(s, depth, c');
    LeadsOn(s, depth, c, c', Some(Cursor(c.pos + 2, c.nodes, c'.text + " ")));
  }

  lemma {:induction false} NoSpaceAfter(t: string, u: string)
    requires PlainText(u)
    ensures AfterLastSpace(LabelText(t) + u) == |LabelText(t)| || t == ""
    ensures t == "" ==> AfterLastSpace(LabelText(t) + u) == 0
    decreases |u|
  {
    var whole := LabelText(t) + u;
    if u == "" {
      assert whole == LabelText(t);
    } else {
      assert PlainChar(u[|u| - 1]);
      assert whole[..|whole| - 1] == LabelText(t) + u[..|u| - 1];
      NoSpaceAfter(t, u[..|u| - 1]);
    }
  }

  /** How a name or a pending label splits off as a group's prefix. */
  lemma {:induction false} SplitName(lead: string, name: string, delimiter: char)
    requires PlainText(name) && PlainText(lead) && delimiter != '{'
    ensures Splits(LabelText(lead) + name, delimiter, LabelText(lead), name)
  {
    assert Unfold(0) && Key(0);
    NoSpaceAfter(lead, name);
    var whole := LabelText(lead) + name;
    assert whole[..|LabelText(lead)|] == LabelText(lead) && whole[|LabelText(lead)|..] == name;
  }

  lemma {:induction false} SplitSpacedName(lead: string, name: string)
    requires PlainText(name) && PlainText(lead) && name != ""
    ensures Splits(LabelText(lead) + name + " ", '{', LabelText(lead), name)
  {
    assert Unfold(0) && Key(0);
    NoSpaceAfter(lead, name);
    var whole := LabelText(lead) + name;
    assert whole[..|LabelText(lead)|] == LabelText(lead) && whole[|LabelText(lead)|..] == name;
    assert (whole + " ")[..|whole|] == whole;
  }

  lemma {:induction false} SplitLabel(lead: string)
    requires PlainText(lead)
    ensures Splits(LabelText(lead), '{', "", lead)
  {
    assert Unfold(0) && Key(0);
    if lead != "" {
      NoSpaceAfter("", lead);
      assert LabelText("") + lead == lead;
      assert LabelText(lead)[..|lead|] == lead;
    }
  }

  // ---------- the parser on derived text ----------

  /** The loop after `v`, which follows `lead`. */
  function AfterValue(v: Value, lead: string, nodes: seq<Node>, pos: nat): Cursor {
    Cursor(pos + |Show(v)|, Tree(v, lead, nodes).0, Tree(v, lead, nodes).1)
  }

  function AfterChild(c: Child, pos: nat): Cursor {
    Cursor(pos + |ShowChild(c)|, TreeChild(c).0, TreeChild(c).1)
  }

  /** `to`, unless `size` more groups than `depth` exceed the cap. */
  function Within(depth: nat, size: nat, to: Cursor): Option<Cursor> {
    if depth + size <= MAX_DEBUG_DEPTH then Some(to) else None
  }

  /** A group result, unless it nests beyond the cap. */
  function GroupWithin(depth: nat, size: nat, group: Node, end: nat): Option<(Node, nat)> {
    if depth + size <= MAX_DEBUG_DEPTH then Some((group, end)) else None
  }

  /** What a group of value `v` parses to decides where the loop goes. */
  lemma {:induction false} AfterGroup(s: string, depth: nat, c: Cursor, rest: string, prefix: string, size: nat, group: Node, to: Cursor)
    requires c.pos < |s| && IsOpen(s[c.pos])
    requires Splits(c.text, s[c.pos], rest, prefix)
    requires GroupGives(s, c.pos, depth, prefix, GroupWithin(depth, size, group, to.pos))
    requires to.nodes == Flush(c.nodes, rest) + [group] && to.text == ""
    ensures Leads(s, depth, c, Within(depth, size, to))
  {
    var found := GroupWithin(depth, size, group, to.pos);
    StepGroup(s, depth, c, rest, prefix, found);
    assert to == Cursor(to.pos, Flush(c.nodes, rest) + [group], "");
    assert Within(depth, size, to)
        == if found == None then None else Some(Cursor(found.value.1, Flush(c.nodes, rest) + [found.value.0], ""));
  }

  /** The parser takes a value's text exactly when it nests within the cap. */
  lemma {:induction false} ReadValue(s: string, pos: nat, depth: nat, v: Value, lead: string, nodes: seq<Node>)
    requires Has(s, pos, Show(v)) && WellFormed(v) && PlainText(lead) && depth <= MAX_DEBUG_DEPTH
    ensures Leads(s, depth, Cursor(pos, nodes, LabelText(lead)), Within(depth, Depth(v), AfterValue(v, lead, nodes, pos)))
    decreases v, 1
  {
    var c := Cursor(pos, nodes, LabelText(lead));
    match v {
      case Atom(text) => ReadPlain(s, depth, c, text);
      case Quoted(_, _) => ReadQuoted(s, pos, depth, v, lead, nodes);
      case List(_) => ReadList(s, pos, depth, v, lead, nodes);
      case Tuple(_, _) => ReadTuple(s, pos, depth, v, lead, nodes);
      case Braces(_) => ReadBraces(s, pos, depth, v, lead, nodes);
      case Struct(name, children) =>
        if children == [] {
          ReadPlain(s, depth, c, name);
        } else {
          ReadStruct(s, pos, depth, v, lead, nodes);
        }
    }
  }

  lemma {:induction false} ReadQuoted(s: string, pos: nat, depth: nat, v: Value, lead: string, nodes: seq<Node>)
    requires v.Quoted? && Has(s, pos, Show(v)) && WellFormed(v)
    ensures Leads(s, depth, Cursor(pos, nodes, LabelText(lead)), Within(depth, Depth(v), AfterValue(v, lead, nodes, pos)))
      || depth > MAX_DEBUG_DEPTH
  {
    var c := Cursor(pos, nodes, LabelText(lead));
    HasConcat(s, pos, [v.quote], ShowBody(v.body) + [v.quote]);
    HasChar(s, pos, [v.quote]);
    LexBody(s, v.quote, pos + 1, v.body);
    assert s[pos..pos + |Show(v)|] == Show(v);
    StepQuoted(s, depth, c, pos + |Show(v)|);
    assert AfterValue(v, lead, nodes, pos)
        == Cursor(pos + |Show(v)|, Flush(nodes, c.text) + [Leaf(s[pos..pos + |Show(v)|])], "");
  }

  /** A group of `children`, written with `gap` and `tail` inside its delimiters,
      and where the loop goes after it. */
  lemma {:induction false} ReadDelimited(s: string, depth: nat, c: Cursor, rest: string, prefix: string, open: char,
                                         children: seq<Child>, gap: string, tail: string, to: Cursor)
    requires IsOpen(open) && depth <= MAX_DEBUG_DEPTH && WellFormedAll(children)
    requires Splits(c.text, open, rest, prefix)
    requires Has(s, c.pos, [open] + (gap + (ShowAll(children) + tail)))
    requires tail == gap + [CloseOf(open)]
    requires gap == "" || (gap == " " && open == '{' && prefix != "" && children != [])
    requires to.pos == c.pos + 1 + |gap| + |ShowAll(children)| + |tail| && to.text == ""
    requires to.nodes == Flush(c.nodes, rest) + [Group(prefix, open, gap != "", Items(children))]
    ensures Leads(s, depth, c, Within(depth, 1 + DepthAll(children), to))
    decreases children, 4
  {
    GroupText(s, c.pos, prefix, open, children, gap, tail);
    assert |tail| == |Tail(CloseOf(open), gap != "")| && to.pos == GroupEnd(c.pos, open, children, gap != "");
    ReadGroup(s, c.pos, depth, prefix, open, children, gap != "");
    AfterGroup(s, depth, c, rest, prefix, 1 + DepthAll(children),
               Group(prefix, open, gap != "", Items(children)), to);
  }

  lemma {:induction false} NoGap(t: string)
    ensures "" + t == t
  {}

  lemma {:induction false} ReadList(s: string, pos: nat, depth: nat, v: Value, lead: string, nodes: seq<Node>)
    requires v.List?
    requires Has(s, pos, Show(v)) && WellFormed(v) && PlainText(lead) && depth <= MAX_DEBUG_DEPTH
    ensures Leads(s, depth, Cursor(pos, nodes, LabelText(lead)), Within(depth, Depth(v), AfterValue(v, lead, nodes, pos)))
    decreases v, 0
  {
    ShowList(v, lead, nodes, pos, depth);
    ReadBrackets(s, pos, depth, v.children, lead, nodes);
  }

  lemma {:induction false} ReadBrackets(s: string, pos: nat, depth: nat, children: seq<Child>,
                                        lead: string, nodes: seq<Node>)
    requires Has(s, pos, "[" + (ShowAll(children) + "]"))
    requires WellFormedAll(children) && PlainText(lead) && depth <= MAX_DEBUG_DEPTH
    ensures Leads(s, depth, Cursor(pos, nodes, LabelText(lead)),
                  Within(depth, 1 + DepthAll(children), AfterBrackets(pos, children, lead, nodes)))
    decreases children, 5
  {
    SplitName(lead, "", '[');
    assert LabelText(lead) + "" == LabelText(lead);
    NoGap(ShowAll(children) + "]");
    ReadDelimited(s, depth, Cursor(pos, nodes, LabelText(lead)), LabelText(lead), "", '[', children, "", "]",
                  AfterBrackets(pos, children, lead, nodes));
  }

  function AfterBrackets(pos: nat, children: seq<Child>, lead: string, nodes: seq<Node>): Cursor {
    Cursor(pos + 1 + |ShowAll(children)| + 1,
           Flush(nodes, LabelText(lead)) + [Group("", '[', false, Items(children))], "")
  }

  lemma {:induction false} ShowList(v: Value, lead: string, nodes: seq<Node>, pos: nat, depth: nat)
    requires v.List?
    ensures Show(v) == "[" + (ShowAll(v.children) + "]")
    ensures Within(depth, 1 + DepthAll(v.children), AfterBrackets(pos, v.children, lead, nodes))
         == Within(depth, Depth(v), AfterValue(v, lead, nodes, pos))
  {
  }

  /** A map or a set takes the label before it as its prefix. */
  lemma {:induction false} ReadBraces(s: string, pos: nat, depth: nat, v: Value, lead: string, nodes: seq<Node>)
    requires v.Braces?
    requires Has(s, pos, Show(v)) && WellFormed(v) && PlainText(lead) && depth <= MAX_DEBUG_DEPTH
    ensures Leads(s, depth, Cursor(pos, nodes, LabelText(lead)), Within(depth, Depth(v), AfterValue(v, lead, nodes, pos)))
    decreases v, 0
  {
    ShowBraces(v, lead, nodes, pos, depth);
    ReadMap(s, pos, depth, v.children, lead, nodes);
  }

  lemma {:induction false} ReadMap(s: string, pos: nat, depth: nat, children: seq<Child>,
                                   lead: string, nodes: seq<Node>)
    requires Has(s, pos, "{" + (ShowAll(children) + "}"))
    requires WellFormedAll(children) && PlainText(lead) && depth <= MAX_DEBUG_DEPTH
    ensures Leads(s, depth, Cursor(pos, nodes, LabelText(lead)),
                  Within(depth, 1 + DepthAll(children), AfterMap(pos, children, lead, nodes)))
    decreases children, 5
  {
    SplitLabel(lead);
    NoGap(ShowAll(children) + "}");
    ReadDelimited(s, depth, Cursor(pos, nodes, LabelText(lead)), "", lead, '{', children, "", "}",
                  AfterMap(pos, children, lead, nodes));
  }

  function AfterMap(pos: nat, children: seq<Child>, lead: string, nodes: seq<Node>): Cursor {
    Cursor(pos + 1 + |ShowAll(children)| + 1, nodes + [Group(lead, '{', false, Items(children))], "")
  }

  lemma {:induction false} ShowBraces(v: Value, lead: string, nodes: seq<Node>, pos: nat, depth: nat)
    requires v.Braces?
    ensures Show(v) == "{" + (ShowAll(v.children) + "}")
    ensures Within(depth, 1 + DepthAll(v.children), AfterMap(pos, v.children, lead, nodes))
         == Within(depth, Depth(v), AfterValue(v, lead, nodes, pos))
  {
  }

  lemma {:induction false} ReadTuple(s: string, pos: nat, depth: nat, v: Value, lead: string, nodes: seq<Node>)
    requires v.Tuple?
    requires Has(s, pos, Show(v)) && WellFormed(v) && PlainText(lead) && depth <= MAX_DEBUG_DEPTH
    ensures Leads(s, depth, Cursor(pos, nodes, LabelText(lead)), Within(depth, Depth(v), AfterValue(v, lead, nodes, pos)))
    decreases v, 0
  {
    if OneTuple(v) {
      ShowOneTuple(v, lead, nodes, pos, depth);
      ReadSingle(s, pos, depth, v.children[0], lead, nodes);
    } else {
      ShowTuple(v, lead, nodes, pos, depth);
      ReadParens(s, pos, depth, v.name, v.children, lead, nodes);
    }
  }

  lemma {:induction false} ReadSingle(s: string, pos: nat, depth: nat, child: Child, lead: string, nodes: seq<Node>)
    requires Has(s, pos, "(" + (ShowChild(child) + ",)"))
    requires WellFormedChild(child) && PlainText(lead) && depth <= MAX_DEBUG_DEPTH
    ensures Leads(s, depth, Cursor(pos, nodes, LabelText(lead)),
                  Within(depth, 1 + DepthChild(child), AfterSingle(pos, child, lead, nodes)))
    decreases child, 3
  {
    ReadOneTuple(s, pos, depth, child);
    LeadsPastSingle(s, pos, depth, child, lead, nodes);
  }

  lemma {:induction false} LeadsPastSingle(s: string, pos: nat, depth: nat, child: Child, lead: string, nodes: seq<Node>)
    requires At(s, pos, '(') && PlainText(lead)
    requires GroupGives(s, pos, depth, "",
                        GroupWithin(depth, 1 + DepthChild(child), Group("", '(', false, [CommaItem(child)]),
                                    pos + |ShowChild(child)| + 3))
    ensures Leads(s, depth, Cursor(pos, nodes, LabelText(lead)),
                  Within(depth, 1 + DepthChild(child), AfterSingle(pos, child, lead, nodes)))
  {
    SplitName(lead, "", '(');
    assert LabelText(lead) + "" == LabelText(lead);
    AfterGroup(s, depth, Cursor(pos, nodes, LabelText(lead)), LabelText(lead), "", 1 + DepthChild(child),
               Group("", '(', false, [CommaItem(child)]), AfterSingle(pos, child, lead, nodes));
  }

  function AfterSingle(pos: nat, child: Child, lead: string, nodes: seq<Node>): Cursor {
    Cursor(pos + |ShowChild(child)| + 3,
           Flush(nodes, LabelText(lead)) + [Group("", '(', false, [CommaItem(child)])], "")
  }

  lemma {:induction false} ShowOneTuple(v: Value, lead: string, nodes: seq<Node>, pos: nat, depth: nat)
    requires OneTuple(v)
    ensures Show(v) == "(" + (ShowChild(v.children[0]) + ",)")
    ensures Within(depth, 1 + DepthChild(v.children[0]), AfterSingle(pos, v.children[0], lead, nodes))
         == Within(depth, Depth(v), AfterValue(v, lead, nodes, pos))
  {
    assert v.name == "" && DepthAll(v.children[1..]) == 0;
    assert ShowAll(v.children) == ShowChild(v.children[0]);
  }

  lemma {:induction false} ReadParens(s: string, pos: nat, depth: nat, name: string, children: seq<Child>,
                                      lead: string, nodes: seq<Node>)
    requires Has(s, pos, name + ("(" + (ShowAll(children) + ")")))
    requires PlainText(name) && WellFormedAll(children) && PlainText(lead) && depth <= MAX_DEBUG_DEPTH
    ensures Leads(s, depth, Cursor(pos, nodes, LabelText(lead)),
                  Within(depth, 1 + DepthAll(children), AfterParens(pos, name, children, lead, nodes)))
    decreases children, 5
  {
    var c := Cursor(pos, nodes, LabelText(lead));
    var c' := Cursor(pos + |name|, nodes, LabelText(lead) + name);
    var to := AfterParens(pos, name, children, lead, nodes);
    HasConcat(s, pos, name, "(" + (ShowAll(children) + ")"));
    SplitName(lead, name, '(');
    ReadPlain(s, depth, c, name);
    NoGap(ShowAll(children) + ")");
    ReadDelimited(s, depth, c', LabelText(lead), name, '(', children, "", ")", to);
    LeadsOn(s, depth, c, c', Within(depth, 1 + DepthAll(children), to));
  }

  function AfterParens(pos: nat, name: string, children: seq<Child>, lead: string, nodes: seq<Node>): Cursor {
    Cursor(pos + |name| + 1 + |ShowAll(children)| + 1,
           Flush(nodes, LabelText(lead)) + [Group(name, '(', false, Items(children))], "")
  }

  lemma {:induction false} ShowTuple(v: Value, lead: string, nodes: seq<Node>, pos: nat, depth: nat)
    requires v.Tuple? && !OneTuple(v)
    ensures Show(v) == v.name + ("(" + (ShowAll(v.children) + ")"))
    ensures Within(depth, 1 + DepthAll(v.children), AfterParens(pos, v.name, v.children, lead, nodes))
         == Within(depth, Depth(v), AfterValue(v, lead, nodes, pos))
  {
  }

  lemma {:induction false} ReadStruct(s: string, pos: nat, depth: nat, v: Value, lead: string, nodes: seq<Node>)
    requires v.Struct? && v.children != []
    requires Has(s, pos, Show(v)) && WellFormed(v) && PlainText(lead) && depth <= MAX_DEBUG_DEPTH
    ensures Leads(s, depth, Cursor(pos, nodes, LabelText(lead)), Within(depth, Depth(v), AfterValue(v, lead, nodes, pos)))
    decreases v, 0
  {
    StructText(s, pos, v);
    StructParts(v);
    ReadFields(s, pos, depth, v.name, v.children, lead, nodes);
    AfterStruct(v, lead, nodes, pos, depth);
  }

  lemma {:induction false} StructParts(v: Value)
    requires v.Struct? && WellFormed(v)
    ensures v.name != "" && PlainText(v.name) && WellFormedAll(v.children)
  {}

  lemma {:induction false} ReadFields(s: string, pos: nat, depth: nat, name: string, children: seq<Child>,
                                      lead: string, nodes: seq<Node>)
    requires Has(s, pos, name) && At(s, pos + |name|, ' ') && At(s, pos + |name| + 1, '{')
    requires Has(s, pos + |name| + 1, "{" + (" " + (ShowAll(children) + " }")))
    requires name != "" && PlainText(name) && PlainText(lead) && depth <= MAX_DEBUG_DEPTH
    requires children != [] && WellFormedAll(children)
    ensures Leads(s, depth, Cursor(pos, nodes, LabelText(lead)),
                  Within(depth, 1 + DepthAll(children), AfterFields(pos, name, children, lead, nodes)))
    decreases children, 5
  {
    var c := Cursor(pos, nodes, LabelText(lead));
    var spaced := Cursor(pos + |name| + 1, nodes, LabelText(lead) + name + " ");
    var to := AfterFields(pos, name, children, lead, nodes);
    ReadName(s, depth, c, name);
    SplitSpacedName(lead, name);
    ReadDelimited(s, depth, spaced, LabelText(lead), name, '{', children, " ", " }", to);
    LeadsOn(s, depth, c, spaced, Within(depth, 1 + DepthAll(children), to));
  }

  lemma {:induction false} ReadName(s: string, depth: nat, c: Cursor, name: string)
    requires Has(s, c.pos, name) && At(s, c.pos + |name|, ' ') && At(s, c.pos + |name| + 1, '{')
    requires PlainText(name)
    ensures Leads(s, depth, c, Some(Cursor(c.pos + |name| + 1, c.nodes, c.text + name + " ")))
  {
    var named := Cursor(c.pos + |name|, c.nodes, c.text + name);
    ReadPlain(s, depth, c, name);
    StepPlain(s, depth, named);
    LeadsOn(s, depth, c, named, Some(Cursor(named.pos + 1, c.nodes, named.text + " ")));
  }

  function AfterFields(pos: nat, name: string, children: seq<Child>, lead: string, nodes: seq<Node>): Cursor {
    Cursor(pos + |name| + 1 + 1 + 1 + |ShowAll(children)| + 2,
           Flush(nodes, LabelText(lead)) + [Group(name, '{', true, Items(children))], "")
  }

  lemma {:induction false} AfterStruct(v: Value, lead: string, nodes: seq<Node>, pos: nat, depth: nat)
    requires v.Struct? && v.children != []
    ensures Within(depth, 1 + DepthAll(v.children), AfterFields(pos, v.name, v.children, lead, nodes))
         == Within(depth, Depth(v), AfterValue(v, lead, nodes, pos))
  {
  }

  lemma {:induction false} StructText(s: string, pos: nat, v: Value)
    requires v.Struct? && v.children != [] && Has(s, pos, Show(v))
    ensures Has(s, pos, v.name) && At(s, pos + |v.name|, ' ') && At(s, pos + |v.name| + 1, '{')
    ensures Has(s, pos + |v.name| + 1, "{" + (" " + (ShowAll(v.children) + " }")))
  {
    var braces := "{" + (" " + (ShowAll(v.children) + " }"));
    assert " { " + (ShowAll(v.children) + " }") == " " + braces;
    HasConcat(s, pos, v.name, " " + braces);
    HasConcat(s, pos + |v.name|, " ", braces);
    HasChar(s, pos + |v.name|, " ");
    HasChar(s, pos + |v.name| + 1, braces);
  }

  /** A group of `children` between its delimiters, with spaces inside if it is
      `named`. */
  lemma {:induction false} ReadGroup(s: string, pos: nat, depth: nat, prefix: string, open: char,
                                     children: seq<Child>, named: bool)
    requires IsOpen(open) && depth <= MAX_DEBUG_DEPTH && WellFormedAll(children)
    requires GroupAt(s, pos, prefix, open, children, named)
    ensures GroupGives(s, pos, depth, prefix,
                       GroupWithin(depth, 1 + DepthAll(children), Group(prefix, open, named, Items(children)),
                                   GroupEnd(pos, open, children, named)))
    decreases children, 3
  {
    if children == [] {
      ReadEmptyGroup(s, pos, depth, prefix, open);
    } else {
      ReadFilledGroup(s, pos, depth, prefix, open, children, named);
    }
  }

  /** The text of a group stands at `pos`. */
  predicate GroupAt(s: string, pos: nat, prefix: string, open: char, children: seq<Child>, named: bool) {
    var start := pos + if named then 2 else 1;
    && At(s, pos, open) && Named(s, pos, prefix) == named && (named ==> CloseOf(open) == '}' && children != [])
    && (!named ==> (children == [] <==> At(s, pos + 1, CloseOf(open))))
    && Has(s, start, ShowAll(children)) && Has(s, start + |ShowAll(children)|, Tail(CloseOf(open), named))
  }

  function GroupEnd(pos: nat, open: char, children: seq<Child>, named: bool): nat {
    pos + (if named then 2 else 1) + |ShowAll(children)| + |Tail(CloseOf(open), named)|
  }

  lemma {:induction false} ReadEmptyGroup(s: string, pos: nat, depth: nat, prefix: string, open: char)
    requires IsOpen(open) && depth <= MAX_DEBUG_DEPTH && GroupAt(s, pos, prefix, open, [], false)
    ensures GroupGives(s, pos, depth, prefix,
                       GroupWithin(depth, 1 + DepthAll([]), Group(prefix, open, false, Items([])),
                                   GroupEnd(pos, open, [], false)))
  {
    EmptyGroup(s, pos, depth, prefix);
  }

  lemma {:induction false} ReadFilledGroup(s: string, pos: nat, depth: nat, prefix: string, open: char,
                                           children: seq<Child>, named: bool)
    requires IsOpen(open) && depth <= MAX_DEBUG_DEPTH && WellFormedAll(children) && children != []
    requires GroupAt(s, pos, prefix, open, children, named)
    ensures GroupGives(s, pos, depth, prefix,
                       GroupWithin(depth, 1 + DepthAll(children), Group(prefix, open, named, Items(children)),
                                   GroupEnd(pos, open, children, named)))
    decreases children, 2
  {
    var start := pos + if named then 2 else 1;
    var found := ItemsResult(depth + 1, [], children, start, CloseOf(open), named);
    if depth < MAX_DEBUG_DEPTH { ReadItems(s, start, depth + 1, CloseOf(open), named, [], children); }
    assert [] + Items(children) == Items(children);
    FilledGroup(s, pos, depth, prefix, found);
  }

  /** What the items `cs`, after `items`, are read as. */
  function ItemsResult(depth: nat, items: seq<Item>, cs: seq<Child>, pos: nat, close: char, named: bool): Option<(seq<Item>, nat)> {
    ItemsWithin(depth, DepthAll(cs), items + Items(cs), pos + |ShowAll(cs)| + |Tail(close, named)|)
  }

  function ItemsWithin(depth: nat, size: nat, items: seq<Item>, end: nat): Option<(seq<Item>, nat)> {
    if depth + size <= MAX_DEBUG_DEPTH then Some((items, end)) else None
  }

  lemma {:induction false} GroupText(s: string, pos: nat, prefix: string, open: char, children: seq<Child>, gap: string, tail: string)
    requires IsOpen(open) && WellFormedAll(children)
    requires Has(s, pos, [open] + (gap + (ShowAll(children) + tail)))
    requires tail == gap + [CloseOf(open)]
    requires gap == "" || (gap == " " && open == '{' && prefix != "" && children != [])
    ensures GroupAt(s, pos, prefix, open, children, gap != "")
  {
    var start := pos + 1 + |gap|;
    var body := ShowAll(children) + tail;
    HasConcat(s, pos, [open], gap + body);
    HasChar(s, pos, [open]);
    HasConcat(s, pos + 1, gap, body);
    HasConcat(s, start, ShowAll(children), tail);
    assert tail == Tail(CloseOf(open), gap != "");
    if gap != "" {
      HasChar(s, pos + 1, gap);
    } else if children != [] {
      AllFirstChar(children);
      HasChar(s, start, ShowAll(children));
    } else {
      HasChar(s, start, tail);
    }
  }

  lemma {:induction false} FirstCharOfChild(c: Child)
    requires WellFormedChild(c)
    ensures ShowChild(c) != "" && !IsClose(ShowChild(c)[0]) && ShowChild(c)[0] != ' '
  {
    match c {
      case Bare(v) => FirstChar(v);
      case Field(lead, _) => assert PlainChar(lead[0]);
      case Entry(k, _) => FirstChar(k);
    }
  }

  lemma {:induction false} AllFirstChar(children: seq<Child>)
    requires children != [] && WellFormedAll(children)
    ensures ShowAll(children) != "" && !IsClose(ShowAll(children)[0]) && ShowAll(children)[0] != ' '
  {
    FirstCharOfChild(children[0]);
  }

  lemma {:induction false} ReadOneTuple(s: string, pos: nat, depth: nat, c: Child)
    requires depth <= MAX_DEBUG_DEPTH && WellFormedChild(c)
    requires Has(s, pos, "(" + (ShowChild(c) + ",)"))
    ensures At(s, pos, '(')
    ensures GroupGives(s, pos, depth, "",
                       GroupWithin(depth, 1 + DepthChild(c), Group("", '(', false, [CommaItem(c)]),
                                   pos + |ShowChild(c)| + 3))
    decreases c, 2
  {
    var p := pos + 1 + |ShowChild(c)|;
    OneTupleText(s, pos, c);
    var found := ItemsWithin(depth + 1, DepthChild(c), [CommaItem(c)], p + 2);
    if depth < MAX_DEBUG_DEPTH {
      var start, end := Cursor(pos + 1, [], ""), AfterChild(c, pos + 1);
      ReadChild(s, pos + 1, depth + 1, c);
      if depth + 1 + DepthChild(c) <= MAX_DEBUG_DEPTH {
        var comma := Cursor(p + 1, end.nodes, end.text + ",");
        StepPlain(s, depth + 1, end);
        LeadsOn(s, depth + 1, start, end, Some(comma));
        LastItem(s, pos + 1, depth + 1, ')', false, [], comma);
        assert [] + [CommaItem(c)] == [CommaItem(c)];
      } else {
        FailedItem(s, pos + 1, depth + 1, ')', false, []);
      }
    }
    FilledGroup(s, pos, depth, "", found);
  }

  lemma {:induction false} OneTupleText(s: string, pos: nat, c: Child)
    requires WellFormedChild(c) && Has(s, pos, "(" + (ShowChild(c) + ",)"))
    ensures At(s, pos, '(') && !At(s, pos + 1, ')')
    ensures Has(s, pos + 1, ShowChild(c))
    ensures At(s, pos + 1 + |ShowChild(c)|, ',') && At(s, pos + 2 + |ShowChild(c)|, ')')
  {
    var p := pos + 1 + |ShowChild(c)|;
    HasConcat(s, pos, "(", ShowChild(c) + ",)");
    HasConcat(s, pos + 1, ShowChild(c), ",)");
    HasChar(s, pos, "(");
    FirstCharOfChild(c);
    HasChar(s, pos + 1, ShowChild(c));
    assert ",)" == "," + ")";
    HasConcat(s, p, ",", ")");
    HasChar(s, p, ",");
    HasChar(s, p + 1, ")");
  }

  lemma {:induction false} ReadChild(s: string, pos: nat, depth: nat, c: Child)
    requires Has(s, pos, ShowChild(c)) && WellFormedChild(c) && depth <= MAX_DEBUG_DEPTH
    ensures Leads(s, depth, Cursor(pos, [], ""), Within(depth, DepthChild(c), AfterChild(c, pos)))
    decreases c, 1
  {
    match c {
      case Bare(v) => ReadValue(s, pos, depth, v, "", []);
      case Field(_, _) => ReadField(s, pos, depth, c);
      case Entry(_, _) => ReadEntry(s, pos, depth, c);
    }
  }

  lemma {:induction false} ReadField(s: string, pos: nat, depth: nat, c: Child)
    requires c.Field? && Has(s, pos, ShowChild(c)) && WellFormedChild(c) && depth <= MAX_DEBUG_DEPTH
    ensures Leads(s, depth, Cursor(pos, [], ""), Within(depth, DepthChild(c), AfterChild(c, pos)))
    decreases c, 0
  {
    var start := Cursor(pos, [], "");
    var colon := Cursor(pos + |c.key|, [], c.key);
    HasConcat(s, pos, c.key, ": " + Show(c.value));
    ReadPlain(s, depth, start, c.key);
    assert "" + c.key == c.key;
    ReadLabelled(s, depth, start, colon, c.value);
  }

  lemma {:induction false} ReadEntry(s: string, pos: nat, depth: nat, c: Child)
    requires c.Entry? && Has(s, pos, ShowChild(c)) && WellFormedChild(c) && depth <= MAX_DEBUG_DEPTH
    ensures Leads(s, depth, Cursor(pos, [], ""), Within(depth, DepthChild(c), AfterChild(c, pos)))
    decreases c, 0
  {
    var k, v := c.index, c.value;
    HasConcat(s, pos, Show(k), ": " + Show(v));
    ReadValue(s, pos, depth, k, "", []);
    if depth + Depth(k) <= MAX_DEBUG_DEPTH {
      TrailingTextIsPlain(k, "", []);
      ReadLabelled(s, depth, Cursor(pos, [], ""), AfterValue(k, "", [], pos), v);
    }
  }

  /** `": "` and the value after it. */
  lemma {:induction false} ReadLabelled(s: string, depth: nat, start: Cursor, c: Cursor, v: Value)
    requires Has(s, c.pos, ": " + Show(v)) && WellFormed(v) && PlainText(c.text) && depth <= MAX_DEBUG_DEPTH
    requires Leads(s, depth, start, Some(c))
    ensures Leads(s, depth, start, Within(depth, Depth(v), AfterValue(v, c.text + ":", c.nodes, c.pos + 2)))
    decreases v, 2
  {
    var value := Cursor(c.pos + 2, c.nodes, LabelText(c.text + ":"));
    ReadColon(s, depth, c, v);
    LeadsOn(s, depth, start, c, Some(value));
    ReadValue(s, value.pos, depth, v, c.text + ":", c.nodes);
    LeadsOn(s, depth, start, value, Within(depth, Depth(v), AfterValue(v, c.text + ":", c.nodes, c.pos + 2)));
  }

  lemma {:induction false} TrailingTextIsPlain(v: Value, lead: string, nodes: seq<Node>)
    requires WellFormed(v) && lead == ""
    ensures PlainText(Tree(v, lead, nodes).1)
  {
  }

  lemma {:induction false} ReadItems(s: string, pos: nat, depth: nat, close: char, named: bool,
                                     items: seq<Item>, cs: seq<Child>)
    requires cs != [] && WellFormedAll(cs) && depth <= MAX_DEBUG_DEPTH
    requires IsClose(close) && (named ==> close == '}')
    requires Has(s, pos, ShowAll(cs)) && Has(s, pos + |ShowAll(cs)|, Tail(close, named))
    ensures ItemsGive(s, pos, depth, close, named, items, ItemsResult(depth, items, cs, pos, close, named))
    decreases cs, 1
  {
    ItemsText(s, pos, cs, close, named);
    ReadChild(s, pos, depth, cs[0]);
    if depth + DepthChild(cs[0]) > MAX_DEBUG_DEPTH {
      ReadTooDeep(s, pos, depth, close, named, items, cs);
    } else if |cs| > 1 {
      ReadMoreItems(s, pos, depth, close, named, items, cs);
    } else {
      ReadLast(s, pos, depth, close, named, items, cs);
    }
  }

  lemma {:induction false} ReadMoreItems(s: string, pos: nat, depth: nat, close: char, named: bool,
                                         items: seq<Item>, cs: seq<Child>)
    requires |cs| > 1 && WellFormedAll(cs) && depth + DepthChild(cs[0]) <= MAX_DEBUG_DEPTH
    requires IsClose(close) && (named ==> close == '}')
    requires Has(s, pos, ShowAll(cs)) && Has(s, pos + |ShowAll(cs)|, Tail(close, named))
    requires pos + |ShowChild(cs[0])| <= |s|
    requires Leads(s, depth, Cursor(pos, [], ""), Some(AfterChild(cs[0], pos)))
    ensures ItemsGive(s, pos, depth, close, named, items, ItemsResult(depth, items, cs, pos, close, named))
    decreases cs, 0
  {
    ItemsText(s, pos, cs, close, named);
    ReadItems(s, pos + |ShowChild(cs[0])| + 2, depth, close, named, items + [ItemOf(cs[0])], cs[1..]);
    ReadOneMore(s, pos, depth, close, named, items, cs);
  }

  lemma {:induction false} ReadTooDeep(s: string, pos: nat, depth: nat, close: char, named: bool,
                                       items: seq<Item>, cs: seq<Child>)
    requires cs != [] && pos <= |s| && depth + DepthChild(cs[0]) > MAX_DEBUG_DEPTH
    requires Leads(s, depth, Cursor(pos, [], ""), None)
    ensures ItemsGive(s, pos, depth, close, named, items, ItemsResult(depth, items, cs, pos, close, named))
  {
    FailedItem(s, pos, depth, close, named, items);
  }

  lemma {:induction false} ReadLast(s: string, pos: nat, depth: nat, close: char, named: bool,
                                    items: seq<Item>, cs: seq<Child>)
    requires |cs| == 1 && pos + |ShowChild(cs[0])| <= |s| && depth + DepthChild(cs[0]) <= MAX_DEBUG_DEPTH
    requires Leads(s, depth, Cursor(pos, [], ""), Some(AfterChild(cs[0], pos)))
    requires var p := pos + |ShowChild(cs[0])|;
             && ItemEnds(s, p) && !At(s, p, ',')
             && if named then At(s, p, ' ') && At(s, p + 1, close) else At(s, p, close)
    ensures ItemsGive(s, pos, depth, close, named, items, ItemsResult(depth, items, cs, pos, close, named))
  {
    assert Items(cs) == [ItemOf(cs[0])] && DepthAll(cs[1..]) == 0;
    LastItem(s, pos, depth, close, named, items, AfterChild(cs[0], pos));
  }

  lemma {:induction false} ReadOneMore(s: string, pos: nat, depth: nat, close: char, named: bool,
                                       items: seq<Item>, cs: seq<Child>)
    requires |cs| > 1 && depth + DepthChild(cs[0]) <= MAX_DEBUG_DEPTH
    requires pos + |ShowChild(cs[0])| <= |s| && |ShowAll(cs)| == |ShowChild(cs[0])| + 2 + |ShowAll(cs[1..])|
    requires Leads(s, depth, Cursor(pos, [], ""), Some(AfterChild(cs[0], pos)))
    requires var p := pos + |ShowChild(cs[0])|;
             && ItemEnds(s, p) && At(s, p, ',') && At(s, p + 1, ' ')
             && ItemsGive(s, p + 2, depth, close, named, items + [ItemOf(cs[0])],
                          ItemsResult(depth, items + [ItemOf(cs[0])], cs[1..], p + 2, close, named))
    ensures ItemsGive(s, pos, depth, close, named, items, ItemsResult(depth, items, cs, pos, close, named))
  {
    MoreItems(items, cs, depth, pos, close, named);
    NextItem(s, pos, depth, close, named, items, AfterChild(cs[0], pos), ItemsResult(depth, items, cs, pos, close, named));
  }

  lemma {:induction false} ItemsText(s: string, pos: nat, cs: seq<Child>, close: char, named: bool)
    requires cs != [] && IsClose(close) && (named ==> close == '}')
    requires Has(s, pos, ShowAll(cs)) && Has(s, pos + |ShowAll(cs)|, Tail(close, named))
    ensures Has(s, pos, ShowChild(cs[0])) && pos + |ShowChild(cs[0])| <= |s|
    ensures var p := pos + |ShowChild(cs[0])|;
            if |cs| == 1 then
              && |ShowAll(cs)| == |ShowChild(cs[0])|
              && ItemEnds(s, p) && !At(s, p, ',')
              && if named then At(s, p, ' ') && At(s, p + 1, close) else At(s, p, close)
            else
              && |ShowAll(cs)| == |ShowChild(cs[0])| + 2 + |ShowAll(cs[1..])|
              && ItemEnds(s, p) && At(s, p, ',') && At(s, p + 1, ' ')
              && Has(s, p + 2, ShowAll(cs[1..]))
  {
    var p := pos + |ShowChild(cs[0])|;
    if |cs| > 1 {
      HasConcat(s, pos, ShowChild(cs[0]), ", " + ShowAll(cs[1..]));
      HasConcat(s, p, ", ", ShowAll(cs[1..]));
      CommaEnds(s, p);
    } else {
      TailEnds(s, p, close, named);
    }
  }

  lemma {:induction false} MoreItems(items: seq<Item>, cs: seq<Child>, depth: nat, pos: nat, close: char, named: bool)
    requires |cs| > 1 && depth + DepthChild(cs[0]) <= MAX_DEBUG_DEPTH
    requires |ShowAll(cs)| == |ShowChild(cs[0])| + 2 + |ShowAll(cs[1..])|
    ensures ItemsResult(depth, items + [ItemOf(cs[0])], cs[1..], pos + |ShowChild(cs[0])| + 2, close, named)
         == ItemsResult(depth, items, cs, pos, close, named)
  {
    assert items + [ItemOf(cs[0])] + Items(cs[1..]) == items + Items(cs);
  }

  function Tail(close: char, named: bool): string {
    if named then [' ', close] else [close]
  }

  lemma {:induction false} TailEnds(s: string, p: nat, close: char, named: bool)
    requires IsClose(close) && (named ==> close == '}')
    requires Has(s, p, Tail(close, named))
    ensures ItemEnds(s, p) && !At(s, p, ',')
    ensures if named then At(s, p, ' ') && At(s, p + 1, close) else At(s, p, close)
  {
    if named {
      assert [' ', close] == " " + [close];
      HasConcat(s, p, " ", [close]);
      HasChar(s, p, " ");
      HasChar(s, p + 1, [close]);
    } else {
      HasChar(s, p, [close]);
    }
  }

  lemma {:induction false} CommaEnds(s: string, p: nat)
    requires Has(s, p, ", ")
    ensures ItemEnds(s, p) && At(s, p, ',') && At(s, p + 1, ' ')
  {
    assert ", " == "," + " ";
    HasConcat(s, p, ",", " ");
    HasChar(s, p, ",");
    HasChar(s, p + 1, " ");
  }

  // ---------- main results ----------

  lemma {:induction false} NoNewlineInBody(body: seq<LitChar>)
    requires forall x <- body :: x.c != '\n'
    ensures '\n' !in ShowBody(body)
  {
    if body != [] { NoNewlineInBody(body[1..]); }
  }

  lemma {:induction false} NoNewlineInValue(v: Value)
    requires WellFormed(v)
    ensures '\n' !in Show(v)
    decreases v
  {
    match v {
      case Atom(text) => PlainHasNoNewline(text);
      case Quoted(_, body) => NoNewlineInBody(body);
      case List(children) => NoNewlineInAll(children);
      case Tuple(name, children) => PlainHasNoNewline(name); NoNewlineInAll(children);
      case Braces(children) => NoNewlineInAll(children);
      case Struct(name, children) => PlainHasNoNewline(name); NoNewlineInAll(children);
    }
  }

  lemma {:induction false} PlainHasNoNewline(t: string)
    requires PlainText(t)
    ensures '\n' !in t
  {
    assert !PlainChar('\n');
  }

  lemma {:induction false} NoNewlineInChild(c: Child)
    requires WellFormedChild(c)
    ensures '\n' !in ShowChild(c)
    decreases c
  {
    match c {
      case Bare(v) => NoNewlineInValue(v);
      case Field(lead, v) => PlainHasNoNewline(lead); NoNewlineInValue(v);
      case Entry(k, v) => NoNewlineInValue(k); NoNewlineInValue(v);
    }
  }

  lemma {:induction false} NoNewlineInAll(cs: seq<Child>)
    requires WellFormedAll(cs)
    ensures '\n' !in ShowAll(cs)
    decreases cs
  {
    if cs != [] {
      NoNewlineInChild(cs[0]);
      NoNewlineInAll(cs[1..]);
    }
  }

  /** The printed text of every derived value parses, into exactly its tree,
      when it nests at most 64 groups deep, and is rejected otherwise. */
  lemma {:induction false} DerivedDebugParses(v: Value)
    requires WellFormed(v)
    ensures Parse(Show(v))
         == if Depth(v) <= MAX_DEBUG_DEPTH then Some(Flush(Tree(v, "", []).0, Tree(v, "", []).1)) else None
  {
    var s := Show(v);
    var start, end := Cursor(0, [], ""), AfterValue(v, "", [], 0);
    NoNewlineInValue(v);
    assert Has(s, 0, s);
    ReadValue(s, 0, 0, v, "", []);
    if Depth(v) <= MAX_DEBUG_DEPTH {
      LeadsToEnd(s, 0, start, end);
    } else {
      LeadsToFailure(s, 0, start);
    }
  }

  predicate Delimited(v: Value) {
    v.List? || v.Tuple? || v.Braces? || (v.Struct? && v.children != [])
  }

  /** The group a delimited value prints as. */
  function GroupOf(v: Value): Node
    requires Delimited(v)
  {
    match v
    case List(children) => Group("", '[', false, Items(children))
    case Tuple(name, children) =>
      Group(name, '(', false, if OneTuple(v) then [CommaItem(children[0])] else Items(children))
    case Braces(children) => Group("", '{', false, Items(children))
    case Struct(name, children) => Group(name, '{', true, Items(children))
  }

  lemma {:induction false} TreeIsGroup(v: Value)
    requires Delimited(v)
    ensures Flush(Tree(v, "", []).0, Tree(v, "", []).1) == [GroupOf(v)]
  {
    assert Flush([], LabelText("")) == [];
  }

  /** Each group of an accepted representation has one item per child, and only
      a struct with fields is a named group. */
  lemma {:induction false} GroupsMatchChildren(v: Value)
    requires WellFormed(v) && Delimited(v) && Depth(v) <= MAX_DEBUG_DEPTH
    ensures Parse(Show(v)) == Some([GroupOf(v)])
    ensures |GroupOf(v).items| == |v.children| && GroupOf(v).named == v.Struct?
    ensures forall i | 0 <= i < |v.children| && !OneTuple(v) :: GroupOf(v).items[i] == ItemOf(v.children[i])
  {
    DerivedDebugParses(v);
    TreeIsGroup(v);
  }

  /** A field that holds a map or a set is read as a single group, which takes the
      field's label as its prefix and has one item per entry. */
  lemma {:induction false} MapFieldItem(v: Value, i: nat)
    requires WellFormed(v) && Delimited(v) && !OneTuple(v) && Depth(v) <= MAX_DEBUG_DEPTH
    requires i < |v.children| && v.children[i].Field? && v.children[i].value.Braces?
    ensures Parse(Show(v)).Some? && |Parse(Show(v)).value| == 1 && Parse(Show(v)).value[0].Group?
    ensures var root, field := Parse(Show(v)).value[0], v.children[i];
            && |root.items| == |v.children| && |root.items[i].nodes| == 1
            && var group := root.items[i].nodes[0];
            && group.Group? && group.prefix == field.key + ":" && group.delimiter == '{' && !group.named
            && |group.items| == |field.value.children|
  {
    GroupsMatchChildren(v);
    var key, map_ := v.children[i].key, v.children[i].value;
    assert TreeChild(v.children[i]) == Tree(map_, key + ":", []);
    assert Tree(map_, key + ":", []) == ([] + [Group(key + ":", '{', false, Items(map_.children))], "");
  }

  // ---------- the groups of the whole tree ----------

  /** What a group looks like from outside. */
  datatype Shape = Shape(prefix: string, delimiter: char, named: bool, size: nat)

  /** The groups of parsed nodes, outer before inner, left to right. */
  function NodesShapes(nodes: seq<Node>): seq<Shape> {
    if nodes == [] then [] else NodesShapes(nodes[..|nodes| - 1]) + NodeShapes(nodes[|nodes| - 1])
  }

  function NodeShapes(node: Node): seq<Shape> {
    match node
    case Leaf(_) => []
    case Group(prefix, delimiter, named, items) => [Shape(prefix, delimiter, named, |items|)] + ItemsShapes(items)
  }

  function ItemsShapes(items: seq<Item>): seq<Shape> {
    if items == [] then [] else NodesShapes(items[0].nodes) + ItemsShapes(items[1..])
  }

  /** The collections a value is made of, outer before inner, left to right: each
      with its name, or for a map or a set the label before it, and its number of
      children. */
  function ValueShapes(v: Value, before: string): seq<Shape> {
    match v
    case Atom(_) => []
    case Quoted(_, _) => []
    case List(children) => [Shape("", '[', false, |children|)] + ChildrenShapes(children)
    case Tuple(name, children) => [Shape(name, '(', false, |children|)] + ChildrenShapes(children)
    case Braces(children) => [Shape(before, '{', false, |children|)] + ChildrenShapes(children)
    case Struct(name, children) =>
      if children == [] then [] else [Shape(name, '{', true, |children|)] + ChildrenShapes(children)
  }

  function ChildShapes(c: Child): seq<Shape> {
    match c
    case Bare(v) => ValueShapes(v, "")
    case Field(key, v) => ValueShapes(v, key + ":")
    case Entry(k, v) => ValueShapes(k, "") + ValueShapes(v, Word(k) + ":")
  }

  function ChildrenShapes(cs: seq<Child>): seq<Shape> {
    if cs == [] then [] else ChildShapes(cs[0]) + ChildrenShapes(cs[1..])
  }

  /** The text of a value that is a single word, and nothing for any other. */
  function Word(v: Value): string {
    match v
    case Atom(text) => text
    case Struct(name, children) => if children == [] then name else ""
    case _ => ""
  }

  lemma {:induction false} FlushShapes(nodes: seq<Node>, text: string)
    ensures NodesShapes(Flush(nodes, text)) == NodesShapes(nodes)
  {
    if text != "" {
      assert Flush(nodes, text)[..|nodes|] == nodes;
    }
  }

  lemma {:induction false} AppendShapes(nodes: seq<Node>, node: Node)
    ensures NodesShapes(nodes + [node]) == NodesShapes(nodes) + NodeShapes(node)
  {
    assert (nodes + [node])[..|nodes|] == nodes;
  }

  /** The group a delimited value is read as after the label `lead`. */
  function GroupAfter(v: Value, lead: string): Node
    requires Delimited(v)
  {
    if v.Braces? then Group(lead, '{', false, Items(v.children)) else GroupOf(v)
  }

  lemma {:induction false} TreeAppends(v: Value, lead: string, nodes: seq<Node>)
    requires Delimited(v)
    ensures Tree(v, lead, nodes).0 == (if v.Braces? then nodes else Flush(nodes, LabelText(lead))) + [GroupAfter(v, lead)]
  {}

  lemma {:induction false} GroupShapes(v: Value, lead: string)
    requires Delimited(v)
    ensures NodeShapes(GroupAfter(v, lead)) == ValueShapes(v, lead)
    decreases v, 1
  {
    ItemsAreChildren(v.children);
    if OneTuple(v) { OneItem(v); }
  }

  lemma {:induction false} TreeShapes(v: Value, lead: string, nodes: seq<Node>)
    ensures NodesShapes(Tree(v, lead, nodes).0) == NodesShapes(nodes) + ValueShapes(v, lead)
    decreases v, 2
  {
    if Delimited(v) {
      GroupShapes(v, lead);
      TreeAppends(v, lead, nodes);
      FlushShapes(nodes, LabelText(lead));
      AppendShapes(if v.Braces? then nodes else Flush(nodes, LabelText(lead)), GroupAfter(v, lead));
    } else {
      WordShapes(v, lead, nodes);
    }
  }

  lemma {:induction false} WordShapes(v: Value, lead: string, nodes: seq<Node>)
    requires !Delimited(v)
    ensures NodesShapes(Tree(v, lead, nodes).0) == NodesShapes(nodes) && ValueShapes(v, lead) == []
  {
    FlushShapes(nodes, LabelText(lead));
    if v.Quoted? { AppendShapes(Flush(nodes, LabelText(lead)), Leaf(Show(v))); }
  }

  lemma {:induction false} OneItem(v: Value)
    requires OneTuple(v)
    ensures ItemsShapes([CommaItem(v.children[0])]) == ChildrenShapes(v.children)
    decreases v, 0
  {
    ChildIsItem(v.children[0]);
    FlushShapes(TreeChild(v.children[0]).0, TreeChild(v.children[0]).1 + ",");
  }

  lemma {:induction false} ChildIsItem(c: Child)
    ensures NodesShapes(TreeChild(c).0) == ChildShapes(c)
    ensures NodesShapes(ItemOf(c).nodes) == ChildShapes(c)
    decreases c, 1
  {
    match c {
      case Bare(v) => TreeShapes(v, "", []);
      case Field(key, v) => TreeShapes(v, key + ":", []);
      case Entry(k, _) =>
        var before, lead := Tree(k, "", []).0, Word(k) + ":";
        EntryTree(c, before, lead);
        EntryShapes(c, before, lead);
    }
    FlushShapes(TreeChild(c).0, TreeChild(c).1);
  }

  lemma {:induction false} EntryShapes(c: Child, before: seq<Node>, lead: string)
    requires c.Entry? && before == Tree(c.index, "", []).0
    ensures NodesShapes(Tree(c.value, lead, before).0) == ValueShapes(c.index, "") + ValueShapes(c.value, lead)
    decreases c, 0
  {
    LoneTreeShapes(c.index, "");
    assert NodesShapes(before) == ValueShapes(c.index, "");
    TreeShapes(c.value, lead, before);
  }

  lemma {:induction false} LoneTreeShapes(v: Value, lead: string)
    ensures NodesShapes(Tree(v, lead, []).0) == ValueShapes(v, lead)
    decreases v, 3
  {
    TreeShapes(v, lead, []);
    NothingBefore(ValueShapes(v, lead));
  }

  lemma {:induction false} NothingBefore(shapes: seq<Shape>)
    ensures NodesShapes([]) + shapes == shapes
  {}

  lemma {:induction false} EntryTree(c: Child, before: seq<Node>, lead: string)
    requires c.Entry? && before == Tree(c.index, "", []).0 && lead == Word(c.index) + ":"
    ensures TreeChild(c) == Tree(c.value, lead, before)
    ensures ChildShapes(c) == ValueShapes(c.index, "") + ValueShapes(c.value, lead)
  {
    WordOf(c.index);
  }

  lemma {:induction false} WordOf(v: Value)
    ensures Tree(v, "", []).1 == Word(v)
  {}

  lemma {:induction false} ItemsAreChildren(cs: seq<Child>)
    ensures ItemsShapes(Items(cs)) == ChildrenShapes(cs)
    decreases cs
  {
    if cs != [] {
      ChildIsItem(cs[0]);
      ItemsAreChildren(cs[1..]);
      assert Items(cs)[1..] == Items(cs[1..]);
    }
  }

  /** Every group of an accepted representation, however deep, is one of the
      value's collections, in place, with its name or label and one item per
      child; and every collection is a group. */
  lemma {:induction false} EveryGroupMatches(v: Value)
    requires WellFormed(v) && Depth(v) <= MAX_DEBUG_DEPTH
    ensures Parse(Show(v)).Some? && NodesShapes(Parse(Show(v)).value) == ValueShapes(v, "")
  {
    DerivedDebugParses(v);
    TreeShapes(v, "", []);
    FlushShapes(Tree(v, "", []).0, Tree(v, "", []).1);
  }
}
