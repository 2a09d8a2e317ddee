/** Naming the draws of a test body: `let x = tc.draw(g)` becomes
    `let x = tc.__draw_named(g, "x", repeatable)`, and `tc.target(e)` becomes
    `tc.target_labelled(e, "e")` (hegel-macros/src/common.rs). */
module DrawNaming {
  import opened Wrappers

  datatype Pat = Ident(name: string) | Typed(pat: Pat, ty: string) | OtherPat(text: string)

  /** A syntax tree. `Let` holds its initializer and its else branch, if any;
      `Other` is any other expression, a `while` loop under the tag LOOP. */
  datatype Node =
    | Path(name: string)
    | Str(text: string)
    | Bool(value: bool)
    | Call(receiver: Node, name: string, args: seq<Node>)
    | Block(stmts: seq<Node>)
    | Closure(params: seq<Pat>, body: Node)
    | Other(tag: string, parts: seq<Node>)
    | Let(pat: Pat, init: seq<Node>)
    | Fn(name: string, stmts: seq<Node>)

  const LOOP: string := "while"

  /** A node's parts, in order. */
  function Children(n: Node): (cs: seq<Node>)
    ensures forall i | 0 <= i < |cs| :: cs[i] < n
  {
    match n
    case Path(_) => []
    case Str(_) => []
    case Bool(_) => []
    case Call(r, _, args) => [r] + args
    case Block(stmts) => stmts
    case Closure(_, body) => [body]
    case Other(_, parts) => parts
    case Let(_, init) => init
    case Fn(_, stmts) => stmts
  }

  function WithChildren(n: Node, cs: seq<Node>): Node
    requires |cs| == |Children(n)|
  {
    match n
    case Path(_) => n
    case Str(_) => n
    case Bool(_) => n
    case Call(_, name, _) => Call(cs[0], name, cs[1..])
    case Block(_) => Block(cs)
    case Closure(ps, _) => Closure(ps, cs[0])
    case Other(tag, _) => Other(tag, cs)
    case Let(pat, _) => Let(pat, cs)
    case Fn(name, _) => Fn(name, cs)
  }

  lemma {:induction false} ChildrenFit(n: Node, cs: seq<Node>)
    requires |cs| == |Children(n)|
    ensures Children(WithChildren(n, cs)) == cs
    ensures WithChildren(n, cs) == n <==> cs == Children(n)
    ensures forall ds: seq<Node> | |ds| == |cs| :: WithChildren(WithChildren(n, cs), ds) == WithChildren(n, ds)
  {
    if n.Call? {
      assert ([n.receiver] + n.args)[1..] == n.args;
      if WithChildren(n, cs) == n { assert cs == [n.receiver] + n.args; }
    }
  }

  function IdentOf(pat: Pat): Option<string> {
    match pat
    case Ident(name) => Some(name)
    case Typed(p, _) => IdentOf(p)
    case OtherPat(_) => None
  }

  const DRAW: string := "draw"
  const DRAW_NAMED: string := "__draw_named"
  const NAMED: string := "draw_named"
  const TARGET: string := "target"
  const TARGET_LABELLED: string := "target_labelled"

  predicate IsDraw(tc: string, n: Node) {
    n.Call? && n.name == DRAW && |n.args| == 1 && n.receiver == Path(tc)
  }

  /** A draw with the name and the flag it was given. */
  datatype Mark = Mark(name: string, flag: bool)

  function NamedDraw(tc: string, n: Node): Option<Mark> {
    if n.Call? && n.name == DRAW_NAMED && |n.args| == 3 && n.receiver == Path(tc) && n.args[1].Str? && n.args[2].Bool?
    then Some(Mark(n.args[1].text, n.args[2].value)) else None
  }

  /** The name a `let` draws from the test case, if that is what it does. */
  function DrawName(tc: string, n: Node): Option<string> {
    if n.Let? && n.init != [] && IsDraw(tc, n.init[0]) then IdentOf(n.pat) else None
  }

  /** The flag of a draw that is already named after its `let`. */
  function DrawMark(tc: string, n: Node): Option<bool> {
    if !n.Let? || n.init == [] then None
    else
      var mark := NamedDraw(tc, n.init[0]);
      if mark.Some? && IdentOf(n.pat) == Some(mark.value.name) then Some(mark.value.flag) else None
  }

  // ---------- rewriting ----------

  type Flags = map<string, bool>

  /** The three bottom-up passes over a body; `Erase` is the way back. */
  datatype Pass = Draws(flags: Flags, forced: bool) | Targets(source: Node -> string) | Erase

  function FlagFor(p: Pass, name: string): bool
    requires p.Draws?
  {
    p.forced || (name in p.flags && p.flags[name])
  }

  /** Whether the pass changes this node itself. */
  predicate Acts(tc: string, p: Pass, n: Node) {
    match p
    case Draws(_, _) => DrawName(tc, n).Some?
    case Targets(_) => n.Call? && n.name == TARGET && |n.args| == 1 && n.receiver == Path(tc)
    case Erase =>
      || DrawMark(tc, n).Some?
      || (n.Call? && n.name == TARGET_LABELLED && |n.args| == 2 && n.args[1].Str? && n.receiver == Path(tc))
  }

  function Step(tc: string, p: Pass, n: Node): Node {
    if !Acts(tc, p, n) then n
    else
      match p
      case Draws(_, _) =>
        var name, call := DrawName(tc, n).value, n.init[0];
        n.(init := n.init[0 := call.(name := DRAW_NAMED, args := call.args + [Str(name), Bool(FlagFor(p, name))])])
      case Targets(source) =>
        n.(name := TARGET_LABELLED, args := n.args + [Str(source(n.args[0]))])
      case Erase =>
        if n.Let? then
          var call := n.init[0];
          n.(init := n.init[0 := call.(name := DRAW, args := call.args[..1])])
        else n.(name := TARGET, args := n.args[..1])
  }

  /** Children first; nested functions are left alone. */
  function Walk(tc: string, p: Pass, n: Node): Node {
    if n.Fn? then n
    else
      var cs := Children(n);
      Step(tc, p, WithChildren(n, seq(|cs|, i requires 0 <= i < |cs| => Walk(tc, p, cs[i]))))
  }

  function WalkAll(tc: string, p: Pass, ns: seq<Node>): seq<Node> {
    seq(|ns|, i requires 0 <= i < |ns| => Walk(tc, p, ns[i]))
  }

  /** The pass finds nothing to change. */
  predicate Clean(tc: string, p: Pass, n: Node) {
    n.Fn? || (!Acts(tc, p, n) && var cs := Children(n); forall i | 0 <= i < |cs| :: Clean(tc, p, cs[i]))
  }

  lemma {:induction false} WalkOf(tc: string, p: Pass, n: Node)
    requires !n.Fn?
    ensures Walk(tc, p, n) == Step(tc, p, WithChildren(n, WalkAll(tc, p, Children(n))))
  {
    var cs := Children(n);
    assert seq(|cs|, i requires 0 <= i < |cs| => Walk(tc, p, cs[i])) == WalkAll(tc, p, cs);
  }

  /** Only `target` calls gain their label, and only labelled ones lose it. */
  lemma {:induction false} CallsKeepTheirName(tc: string, p: Pass, c: Node)
    requires c.Call? && (p.Targets? ==> c.name != TARGET) && (p.Erase? ==> c.name != TARGET_LABELLED)
    ensures Walk(tc, p, c) == WithChildren(c, WalkAll(tc, p, Children(c)))
    ensures Walk(tc, p, c).Call? && Walk(tc, p, c).name == c.name && |Walk(tc, p, c).args| == |c.args|
  {
    WalkOf(tc, p, c);
  }

  /** A pass leaves a tree as it is exactly when it finds nothing to change. */
  lemma {:induction false} WalkFixes(tc: string, p: Pass, n: Node)
    ensures Walk(tc, p, n) == n <==> Clean(tc, p, n)
  {
    if !n.Fn? {
      WalkOf(tc, p, n);
      var cs := Children(n);
      var ds := WalkAll(tc, p, cs);
      forall i | 0 <= i < |cs| ensures ds[i] == cs[i] <==> Clean(tc, p, cs[i]) { WalkFixes(tc, p, cs[i]); }
      assert cs == ds <==> forall i | 0 <= i < |cs| :: Clean(tc, p, cs[i]);
      StepFixes(tc, p, n, ds);
    }
  }

  lemma {:induction false} StepFixes(tc: string, p: Pass, n: Node, ds: seq<Node>)
    requires !n.Fn? && ds == WalkAll(tc, p, Children(n))
    ensures Step(tc, p, WithChildren(n, ds)) == n <==> ds == Children(n) && !Acts(tc, p, n)
  {
    ChildrenFit(n, ds);
    var m := WithChildren(n, ds);
    if Acts(tc, p, m) && n.Let? && Step(tc, p, m).init[0] == n.init[0] {
      assert m.init[0] == Walk(tc, p, n.init[0]);
      CallsKeepTheirName(tc, p, n.init[0]);
      assert false;
    }
  }

  // ---------- rewriting twice, and back ----------

  /** After a pass other than `Erase`, that pass finds nothing more to change. */
  lemma {:induction false} WalkCleans(tc: string, p: Pass, again: Pass, n: Node)
    requires (p.Draws? && again.Draws?) || (p.Targets? && again.Targets?)
    ensures Clean(tc, again, Walk(tc, p, n))
  {
    if !n.Fn? {
      WalkOf(tc, p, n);
      var ds := WalkAll(tc, p, Children(n));
      forall i | 0 <= i < |ds| ensures Clean(tc, again, ds[i]) { WalkCleans(tc, p, again, Children(n)[i]); }
      ChildrenFit(n, ds);
      StepIsClean(tc, p, again, WithChildren(n, ds));
    }
  }

  lemma {:induction false} CallIsClean(tc: string, p: Pass, c: Node)
    requires c.Call?
    ensures Clean(tc, p, c) <==>
              !Acts(tc, p, c) && Clean(tc, p, c.receiver) && forall i | 0 <= i < |c.args| :: Clean(tc, p, c.args[i])
  {
    var cs := Children(c);
    assert cs[0] == c.receiver && forall i | 0 <= i < |c.args| :: cs[i + 1] == c.args[i];
    assert forall i | 0 < i < |cs| :: cs[i] == c.args[i - 1];
  }

  lemma {:induction false} StepIsClean(tc: string, p: Pass, again: Pass, m: Node)
    requires (p.Draws? && again.Draws?) || (p.Targets? && again.Targets?)
    requires !m.Fn? && forall i | 0 <= i < |Children(m)| :: Clean(tc, again, Children(m)[i])
    ensures Clean(tc, again, Step(tc, p, m))
  {
    if Acts(tc, p, m) {
      var t := Step(tc, p, m);
      if p.Draws? {
        assert Clean(tc, again, Children(m)[0]);
        CallIsClean(tc, again, m.init[0]);
        CallIsClean(tc, again, t.init[0]);
        assert forall i | 0 <= i < |t.init| :: Children(t)[i] == if i == 0 then t.init[0] else Children(m)[i];
      } else {
        assert Children(m)[0] == m.receiver && Children(m)[1] == m.args[0];
        CallIsClean(tc, again, t);
      }
    }
  }

  /** No pass makes anything else a path or a literal, or a call. */
  lemma {:induction false} KindStays(tc: string, p: Pass, n: Node)
    ensures Walk(tc, p, n).Call? <==> n.Call?
    ensures n.Path? || n.Str? || n.Bool? || Walk(tc, p, n).Path? || Walk(tc, p, n).Str? || Walk(tc, p, n).Bool? ==>
              Walk(tc, p, n) == n
  {
    if !n.Fn? { WalkOf(tc, p, n); }
  }

  lemma {:induction false} CallWalked(tc: string, p: Pass, c: Node)
    requires c.Call?
    ensures Walk(tc, p, c) == Step(tc, p, Call(Walk(tc, p, c.receiver), c.name, WalkAll(tc, p, c.args)))
  {
    WalkOf(tc, p, c);
    assert WalkAll(tc, p, Children(c))[1..] == WalkAll(tc, p, c.args);
  }

  /** Draws stay draws, and named draws keep their name and flag. */
  lemma {:induction false} DrawsStay(tc: string, p: Pass, c: Node)
    requires !p.Erase?
    ensures IsDraw(tc, Walk(tc, p, c)) <==> IsDraw(tc, c)
    ensures NamedDraw(tc, Walk(tc, p, c)) == NamedDraw(tc, c)
  {
    KindStays(tc, p, c);
    if c.Call? {
      CallWalked(tc, p, c);
      KindStays(tc, p, c.receiver);
      if |c.args| == 3 {
        KindStays(tc, p, c.args[1]);
        KindStays(tc, p, c.args[2]);
      }
    }
  }

  /** Rewriting a `let`'s parts does not change which draw it is. */
  lemma {:induction false} ShapeStays(tc: string, p: Pass, n: Node, m: Node)
    requires !p.Erase? && m == WithChildren(n, WalkAll(tc, p, Children(n)))
    ensures DrawName(tc, m) == DrawName(tc, n) && DrawMark(tc, m) == DrawMark(tc, n)
  {
    if n.Let? && n.init != [] {
      assert m.init[0] == Walk(tc, p, n.init[0]);
      DrawsStay(tc, p, n.init[0]);
    }
  }

  /** Labelling targets creates no new draws. */
  lemma {:induction false} TargetsKeepDrawsClean(tc: string, p: Pass, draws: Pass, n: Node)
    requires p.Targets? && draws.Draws? && Clean(tc, draws, n)
    ensures Clean(tc, draws, Walk(tc, p, n))
  {
    if !n.Fn? {
      WalkOf(tc, p, n);
      var ds := WalkAll(tc, p, Children(n));
      forall i | 0 <= i < |ds| ensures Clean(tc, draws, ds[i]) { TargetsKeepDrawsClean(tc, p, draws, Children(n)[i]); }
      ChildrenFit(n, ds);
      var m := WithChildren(n, ds);
      ShapeStays(tc, p, n, m);
      StepKeepsDrawsClean(tc, p, draws, m);
    }
  }

  lemma {:induction false} StepKeepsDrawsClean(tc: string, p: Pass, draws: Pass, m: Node)
    requires p.Targets? && draws.Draws? && Clean(tc, draws, m)
    ensures Clean(tc, draws, Step(tc, p, m))
  {
    if Acts(tc, p, m) {
      CallIsClean(tc, draws, m);
      CallIsClean(tc, draws, Step(tc, p, m));
    }
  }

  /** Erasing after a pass is erasing before it. */
  lemma {:induction false} EraseUndoes(tc: string, p: Pass, n: Node)
    requires !p.Erase?
    ensures Walk(tc, Erase, Walk(tc, p, n)) == Walk(tc, Erase, n)
  {
    if !n.Fn? {
      WalkOf(tc, p, n);
      WalkOf(tc, Erase, n);
      var cs := Children(n);
      var ds := WalkAll(tc, p, cs);
      forall i | 0 <= i < |cs| ensures Walk(tc, Erase, ds[i]) == Walk(tc, Erase, cs[i]) { EraseUndoes(tc, p, cs[i]); }
      assert WalkAll(tc, Erase, ds) == WalkAll(tc, Erase, cs);
      ChildrenFit(n, ds);
      var m := WithChildren(n, ds);
      WalkOf(tc, Erase, m);
      assert Walk(tc, Erase, m) == Walk(tc, Erase, n);
      if Acts(tc, p, m) { EraseUndoesStep(tc, p, m); }
    }
  }

  /** Erasing a named draw's tree keeps it one, and so for a plain draw. */
  lemma {:induction false} EraseKeepsDraws(tc: string, c: Node)
    requires IsDraw(tc, c) || NamedDraw(tc, c).Some?
    ensures Walk(tc, Erase, c) == Call(Path(tc), c.name, [Walk(tc, Erase, c.args[0])] + c.args[1..])
  {
    CallWalked(tc, Erase, c);
    KindStays(tc, Erase, c.receiver);
    forall i | 1 <= i < |c.args| ensures Walk(tc, Erase, c.args[i]) == c.args[i] { KindStays(tc, Erase, c.args[i]); }
    assert WalkAll(tc, Erase, c.args) == [Walk(tc, Erase, c.args[0])] + c.args[1..];
  }

  lemma {:induction false} EraseUndoesStep(tc: string, p: Pass, m: Node)
    requires !p.Erase? && Acts(tc, p, m)
    ensures Walk(tc, Erase, Step(tc, p, m)) == Walk(tc, Erase, m)
  {
    if p.Draws? {
      EraseUndoesDraw(tc, p, m);
    } else {
      var t := Step(tc, p, m);
      CallWalked(tc, Erase, m);
      CallWalked(tc, Erase, t);
      KindStays(tc, Erase, Path(tc));
      assert WalkAll(tc, Erase, t.args)[..1] == WalkAll(tc, Erase, m.args);
    }
  }

  lemma {:induction false} EraseUndoesDraw(tc: string, p: Pass, m: Node)
    requires p.Draws? && Acts(tc, p, m)
    ensures Walk(tc, Erase, Step(tc, p, m)) == Walk(tc, Erase, m)
  {
    var t := Step(tc, p, m);
    var before, after := WalkAll(tc, Erase, m.init), WalkAll(tc, Erase, t.init);
    WalkOf(tc, Erase, m);
    WalkOf(tc, Erase, t);
    EraseKeepsDraws(tc, m.init[0]);
    EraseKeepsDraws(tc, t.init[0]);
    assert after[0].args[..1] == before[0].args;
    assert DrawMark(tc, Let(m.pat, after)).Some?;
    assert Step(tc, Erase, Let(m.pat, after)).init == before;
  }

  // ---------- a whole body ----------

  /** A body's statements, outside every block. */
  function Top(stmts: seq<Node>): Node { Other("", stmts) }

  method WalkEach(tc: string, p: Pass, stmts: seq<Node>) returns (r: seq<Node>)
    ensures r == WalkAll(tc, p, stmts)
  {
    r := stmts;
    for i := 0 to |stmts|
      invariant |r| == |stmts|
      invariant forall k | 0 <= k < i :: r[k] == Walk(tc, p, stmts[k])
      invariant forall k | i <= k < |stmts| :: r[k] == stmts[k]
    {
      r := r[i := Walk(tc, p, r[i])];
    }
  }

  lemma {:induction false} TopWalk(tc: string, p: Pass, stmts: seq<Node>)
    ensures Walk(tc, p, Top(stmts)) == Top(WalkAll(tc, p, stmts))
  {
    WalkOf(tc, p, Top(stmts));
  }
}
