/** Every draw a body makes on its test case, the flags collected over the ones
    that a `let` names, and the whole rewriting (hegel-macros/src/common.rs). */
module DrawUses {
  import opened Wrappers
  import opened DrawNaming

  // ---------- the draws of a tree ----------

  /** How a call on the test case draws: as a `let` that gives the name, with its
      flag once it is named; without a name; under a name of its own; or with name
      and flag spelled out. What is not a literal is not known. */
  datatype Kind =
    | LetDraw(name: string, mark: Option<bool>)
    | Unbound
    | Named(title: Option<string>)
    | Explicit(title: Option<string>, flag: Option<bool>)

  /** A draw, whether it is inside a block or a closure, and whether it may happen
      more than once each time the body runs. */
  datatype Use = Use(kind: Kind, nested: bool, repeated: bool)

  /** Where a node stands; `spoken` if its `let` speaks for it. */
  datatype Spot = Spot(nested: bool, repeated: bool, spoken: bool)

  function TextOf(n: Node): Option<string> { if n.Str? then Some(n.text) else None }

  function FlagOf(n: Node): Option<bool> { if n.Bool? then Some(n.value) else None }

  function KindOf(tc: string, n: Node): Option<Kind> {
    if !n.Call? || n.receiver != Path(tc) then None
    else if n.name == DRAW && |n.args| == 1 then Some(Unbound)
    else if n.name == NAMED && |n.args| == 2 then Some(Named(TextOf(n.args[0])))
    else if n.name == DRAW_NAMED && |n.args| == 3 then Some(Explicit(TextOf(n.args[1]), FlagOf(n.args[2])))
    else None
  }

  /** A `let` that gives its draw the name. */
  predicate Takes(tc: string, n: Node) { DrawName(tc, n).Some? || DrawMark(tc, n).Some? }

  function OwnUse(tc: string, n: Node, at: Spot): seq<Use> {
    if DrawName(tc, n).Some? then [Use(LetDraw(DrawName(tc, n).value, None), at.nested, at.repeated)]
    else if DrawMark(tc, n).Some? then [Use(LetDraw(IdentOf(n.pat).value, DrawMark(tc, n)), at.nested, at.repeated)]
    else if KindOf(tc, n).Some? && !at.spoken then [Use(KindOf(tc, n).value, at.nested, at.repeated)]
    else []
  }

  predicate Nests(n: Node) { n.Block? || n.Closure? }

  predicate Repeats(n: Node) { Nests(n) || (n.Other? && n.tag == LOOP) }

  /** Where the `i`-th part of `n` stands. */
  function Inside(tc: string, n: Node, at: Spot, i: nat): Spot {
    Spot(at.nested || Nests(n), at.repeated || Repeats(n), i == 0 && Takes(tc, n))
  }

  /** The draws in the order they are made; nested functions hold none. */
  function Uses(tc: string, n: Node, at: Spot): seq<Use>
    decreases n, |Children(n)| + 1
  {
    if n.Fn? then [] else UsesOf(tc, n, |Children(n)|, at) + OwnUse(tc, n, at)
  }

  /** The draws in the first `k` parts of `n`, which stands at `at`. */
  function UsesOf(tc: string, n: Node, k: nat, at: Spot): seq<Use>
    requires k <= |Children(n)|
    decreases n, k
  {
    if k == 0 then [] else UsesOf(tc, n, k - 1, at) + Uses(tc, Children(n)[k - 1], Inside(tc, n, at, k - 1))
  }

  lemma {:induction false} UsesUnfold(tc: string, n: Node, at: Spot)
    requires !n.Fn?
    ensures Uses(tc, n, at) == UsesOf(tc, n, |Children(n)|, at) + OwnUse(tc, n, at)
  {}

  // ---------- collecting flags ----------

  /** A draw that its `let` names and nothing has marked. */
  predicate Plain(u: Use) { u.kind.LetDraw? && u.kind.mark == None }

  predicate PlainDraw(u: Use, name: string) { Plain(u) && u.kind.name == name }

  function Noted(flags: Flags, u: Use): Flags {
    if Plain(u) then flags[u.kind.name := u.nested || u.kind.name in flags] else flags
  }

  function Fold(flags: Flags, us: seq<Use>): Flags {
    if us == [] then flags else Noted(Fold(flags, us[..|us| - 1]), us[|us| - 1])
  }

  lemma {:induction false} FoldAppend(flags: Flags, us: seq<Use>, vs: seq<Use>)
    ensures Fold(flags, us + vs) == Fold(Fold(flags, us), vs)
  {
    if vs == [] {
      assert us + vs == us;
    } else {
      assert (us + vs)[..|us + vs| - 1] == us + vs[..|vs| - 1];
      FoldAppend(flags, us, vs[..|vs| - 1]);
    }
  }

  /** The flags after the first `k` parts of `n`. */
  ghost function FoldParts(tc: string, flags: Flags, n: Node, k: nat, at: Spot): Flags
    requires k <= |Children(n)|
  {
    Fold(flags, UsesOf(tc, n, k, at))
  }

  lemma {:induction false} FoldNext(tc: string, flags: Flags, n: Node, k: nat, at: Spot)
    requires k < |Children(n)|
    ensures FoldParts(tc, flags, n, k + 1, at)
            == Fold(FoldParts(tc, flags, n, k, at), Uses(tc, Children(n)[k], Inside(tc, n, at, k)))
  {
    FoldAppend(flags, UsesOf(tc, n, k, at), Uses(tc, Children(n)[k], Inside(tc, n, at, k)));
  }

  lemma {:induction false} FoldNode(tc: string, flags: Flags, n: Node, at: Spot)
    requires !n.Fn?
    ensures Fold(flags, Uses(tc, n, at)) == Fold(FoldParts(tc, flags, n, |Children(n)|, at), OwnUse(tc, n, at))
  {
    UsesUnfold(tc, n, at);
    FoldAppend(flags, UsesOf(tc, n, |Children(n)|, at), OwnUse(tc, n, at));
  }

  class DrawNameCollector {
    const testCase: string
    var blockDepth: nat
    var nameFlags: Flags

    constructor (testCase: string)
      ensures this.testCase == testCase && blockDepth == 0 && nameFlags == map[]
    {
      this.testCase, blockDepth, nameFlags := testCase, 0, map[];
    }

    /** The collector knows how deep in blocks it is; `at` says the rest of where
        the node stands. */
    method Visit(n: Node, ghost at: Spot)
      requires at.nested == (blockDepth > 0)
      modifies this
      ensures blockDepth == old(blockDepth)
      ensures nameFlags == Fold(old(nameFlags), Uses(testCase, n, at))
      decreases n, 2
    {
      if n.Fn? { return; }
      FoldNode(testCase, nameFlags, n, at);
      if Nests(n) { blockDepth := blockDepth + 1; }
      VisitParts(n, at);
      if Nests(n) { blockDepth := blockDepth - 1; }
      VisitLocal(n, at);
    }

    method VisitParts(n: Node, ghost at: Spot)
      requires (at.nested || Nests(n)) == (blockDepth > 0)
      modifies this
      ensures blockDepth == old(blockDepth)
      ensures nameFlags == FoldParts(testCase, old(nameFlags), n, |Children(n)|, at)
      decreases n, 1
    {
      ghost var start := nameFlags;
      for k := 0 to |Children(n)|
        invariant blockDepth == old(blockDepth)
        invariant nameFlags == FoldParts(testCase, start, n, k, at)
      {
        VisitPart(n, k, at, start);
      }
    }

    method VisitPart(n: Node, k: nat, ghost at: Spot, ghost start: Flags)
      requires k < |Children(n)| && (at.nested || Nests(n)) == (blockDepth > 0)
      requires nameFlags == FoldParts(testCase, start, n, k, at)
      modifies this
      ensures blockDepth == old(blockDepth)
      ensures nameFlags == FoldParts(testCase, start, n, k + 1, at)
      decreases n, 0
    {
      FoldNext(testCase, start, n, k, at);
      Visit(Children(n)[k], Inside(testCase, n, at, k));
    }

    method VisitLocal(n: Node, ghost at: Spot)
      requires at.nested == (blockDepth > 0)
      modifies this
      ensures blockDepth == old(blockDepth)
      ensures nameFlags == Fold(old(nameFlags), OwnUse(testCase, n, at))
    {
      var name := DrawName(testCase, n);
      if name.Some? {
        var repeatable := blockDepth > 0 || name.value in nameFlags;
        if name.value !in nameFlags { nameFlags := nameFlags[name.value := false]; }
        if repeatable { nameFlags := nameFlags[name.value := true]; }
      }
    }
  }

  function Count(us: seq<Use>, name: string): nat {
    if us == [] then 0
    else Count(us[..|us| - 1], name) + if PlainDraw(us[|us| - 1], name) then 1 else 0
  }

  predicate HasNested(us: seq<Use>, name: string) {
    exists i | 0 <= i < |us| :: PlainDraw(us[i], name) && us[i].nested
  }

  lemma {:induction false} NestedCounts(us: seq<Use>, name: string)
    requires HasNested(us, name)
    ensures Count(us, name) > 0
  {
    var i :| 0 <= i < |us| && PlainDraw(us[i], name) && us[i].nested;
    Counted(us, i);
  }

  lemma {:induction false} LastNested(init: seq<Use>, u: Use, name: string)
    ensures HasNested(init + [u], name) <==> HasNested(init, name) || (PlainDraw(u, name) && u.nested)
  {
    var us := init + [u];
    assert us[|init|] == u && forall i | 0 <= i < |init| :: us[i] == init[i];
  }

  /** A name is flagged exactly when it is drawn more than once, or inside a block
      or a closure. */
  lemma {:induction false} FlagsMean(us: seq<Use>, name: string)
    ensures name in Fold(map[], us) <==> Count(us, name) > 0
    ensures name in Fold(map[], us) ==> (Fold(map[], us)[name] <==> Count(us, name) > 1 || HasNested(us, name))
  {
    if us != [] {
      var init, u := us[..|us| - 1], us[|us| - 1];
      FlagsMean(init, name);
      LastNested(init, u, name);
      assert us == init + [u];
      if HasNested(init, name) { NestedCounts(init, name); }
    }
  }

  lemma {:induction false} Counted(us: seq<Use>, i: nat)
    requires i < |us| && Plain(us[i])
    ensures Count(us, us[i].kind.name) > 0
  {
    if i < |us| - 1 { Counted(us[..|us| - 1], i); }
  }

  lemma {:induction false} CountedTwice(us: seq<Use>, i: nat, j: nat)
    requires i < j < |us| && Plain(us[i]) && PlainDraw(us[j], us[i].kind.name)
    ensures Count(us, us[i].kind.name) > 1
  {
    if j < |us| - 1 { CountedTwice(us[..|us| - 1], i, j); } else { Counted(us[..j], i); }
  }

  lemma {:induction false} CountedMeans(us: seq<Use>, name: string)
    ensures Count(us, name) > 0 ==> exists i | 0 <= i < |us| :: PlainDraw(us[i], name)
  {
    if us != [] {
      CountedMeans(us[..|us| - 1], name);
      assert forall i | 0 <= i < |us| - 1 :: us[..|us| - 1][i] == us[i];
    }
  }

  // ---------- rewriting and the draws ----------

  function Marked(p: Pass, u: Use): Use {
    if p.Draws? && Plain(u) then u.(kind := LetDraw(u.kind.name, Some(FlagFor(p, u.kind.name)))) else u
  }

  function MarkedAll(p: Pass, us: seq<Use>): seq<Use> { seq(|us|, i requires 0 <= i < |us| => Marked(p, us[i])) }

  lemma {:induction false} MarkedAppend(p: Pass, us: seq<Use>, vs: seq<Use>)
    ensures MarkedAll(p, us + vs) == MarkedAll(p, us) + MarkedAll(p, vs)
  {}

  /** Rewriting keeps every call the kind of draw it is. */
  lemma {:induction false} KindsStay(tc: string, p: Pass, c: Node)
    requires !p.Erase?
    ensures KindOf(tc, Walk(tc, p, c)) == KindOf(tc, c)
  {
    KindStays(tc, p, c);
    if c.Call? {
      CallWalked(tc, p, c);
      KindStays(tc, p, c.receiver);
      ArgumentsStay(tc, p, c);
    }
  }

  lemma {:induction false} ArgumentsStay(tc: string, p: Pass, c: Node)
    requires c.Call?
    ensures forall i | 0 <= i < |c.args| ::
              TextOf(Walk(tc, p, c.args[i])) == TextOf(c.args[i]) && FlagOf(Walk(tc, p, c.args[i])) == FlagOf(c.args[i])
  {
    forall i | 0 <= i < |c.args|
      ensures TextOf(Walk(tc, p, c.args[i])) == TextOf(c.args[i]) && FlagOf(Walk(tc, p, c.args[i])) == FlagOf(c.args[i])
    {
      KindStays(tc, p, c.args[i]);
    }
  }

  /** Rewriting a node's parts leaves the node the draw it is, and its parts where
      they stand. */
  lemma {:induction false} SpotsStay(tc: string, p: Pass, n: Node, m: Node, at: Spot)
    requires !p.Erase? && !n.Fn? && m == WithChildren(n, WalkAll(tc, p, Children(n)))
    ensures OwnUse(tc, m, at) == OwnUse(tc, n, at)
    ensures forall i: nat :: Inside(tc, m, at, i) == Inside(tc, n, at, i)
  {
    ShapeStays(tc, p, n, m);
    if n.Call? { PartsKeepKind(tc, p, n, m); }
  }

  lemma {:induction false} PartsKeepKind(tc: string, p: Pass, n: Node, m: Node)
    requires !p.Erase? && n.Call? && m == WithChildren(n, WalkAll(tc, p, Children(n)))
    ensures KindOf(tc, m) == KindOf(tc, n)
  {
    var ds := WalkAll(tc, p, Children(n));
    assert ds[0] == Walk(tc, p, n.receiver) && ds[1..] == WalkAll(tc, p, n.args);
    KindStays(tc, p, n.receiver);
    ArgumentsStay(tc, p, n);
    SameKind(tc, n, m);
  }

  /** What kind of draw a call is depends on its name, whether it is on the test
      case, and the literals among its arguments. */
  lemma {:induction false} SameKind(tc: string, c: Node, d: Node)
    requires c.Call? && d.Call? && c.name == d.name && |c.args| == |d.args|
    requires c.receiver == Path(tc) <==> d.receiver == Path(tc)
    requires forall i | 0 <= i < |c.args| :: TextOf(d.args[i]) == TextOf(c.args[i]) && FlagOf(d.args[i]) == FlagOf(c.args[i])
    ensures KindOf(tc, d) == KindOf(tc, c)
  {}

  /** The draws of `m`'s first parts are the marked draws of `n`'s. */
  predicate PartsMarked(tc: string, p: Pass, n: Node, m: Node, at: Spot, i: nat)
    requires i < |Children(n)| && i < |Children(m)|
  {
    Uses(tc, Children(m)[i], Inside(tc, m, at, i)) == MarkedAll(p, Uses(tc, Children(n)[i], Inside(tc, n, at, i)))
  }

  lemma {:induction false} UsesOfMarked(tc: string, p: Pass, n: Node, m: Node, k: nat, at: Spot)
    requires k <= |Children(n)| && k <= |Children(m)|
    requires forall i: nat | i < k :: PartsMarked(tc, p, n, m, at, i)
    ensures UsesOf(tc, m, k, at) == MarkedAll(p, UsesOf(tc, n, k, at))
  {
    if k > 0 {
      UsesOfMarked(tc, p, n, m, k - 1, at);
      assert PartsMarked(tc, p, n, m, at, k - 1);
      MarkedAppend(p, UsesOf(tc, n, k - 1, at), Uses(tc, Children(n)[k - 1], Inside(tc, n, at, k - 1)));
    }
  }

  /** A pass marks the plain draws of a tree where they stand; it changes no other
      draw, and labelling targets changes none. */
  lemma {:induction false} UsesAreMarked(tc: string, p: Pass, n: Node, at: Spot)
    requires !p.Erase?
    ensures Uses(tc, Walk(tc, p, n), at) == MarkedAll(p, Uses(tc, n, at))
  {
    if !n.Fn? {
      var cs := Children(n);
      var m := WithChildren(n, WalkAll(tc, p, cs));
      WalkOf(tc, p, n);
      ChildrenFit(n, WalkAll(tc, p, cs));
      SpotsStay(tc, p, n, m, at);
      forall i: nat | i < |cs| ensures PartsMarked(tc, p, n, m, at, i) {
        UsesAreMarked(tc, p, cs[i], Inside(tc, n, at, i));
      }
      UsesOfMarked(tc, p, n, m, |cs|, at);
      NodeIsMarked(tc, p, n, m, at);
    }
  }

  lemma {:induction false} NodeIsMarked(tc: string, p: Pass, n: Node, m: Node, at: Spot)
    requires !p.Erase? && !n.Fn? && !m.Fn? && OwnUse(tc, m, at) == OwnUse(tc, n, at)
    requires UsesOf(tc, m, |Children(m)|, at) == MarkedAll(p, UsesOf(tc, n, |Children(n)|, at))
    ensures Uses(tc, Step(tc, p, m), at) == MarkedAll(p, Uses(tc, n, at))
  {
    StepMarks(tc, p, m, at);
    UsesUnfold(tc, n, at);
    MarkedAppend(p, UsesOf(tc, n, |Children(n)|, at), OwnUse(tc, n, at));
  }

  lemma {:induction false} StepMarks(tc: string, p: Pass, m: Node, at: Spot)
    requires !p.Erase? && !m.Fn?
    ensures Uses(tc, Step(tc, p, m), at) == UsesOf(tc, m, |Children(m)|, at) + MarkedAll(p, OwnUse(tc, m, at))
  {
    StepParts(tc, p, m, at);
    UsesUnfold(tc, Step(tc, p, m), at);
    OwnMark(tc, p, m, at);
  }

  lemma {:induction false} OwnMark(tc: string, p: Pass, m: Node, at: Spot)
    requires !p.Erase?
    ensures OwnUse(tc, Step(tc, p, m), at) == MarkedAll(p, OwnUse(tc, m, at))
  {}

  lemma {:induction false} StepParts(tc: string, p: Pass, m: Node, at: Spot)
    requires !p.Erase? && !m.Fn?
    ensures var t := Step(tc, p, m);
            !t.Fn? && UsesOf(tc, t, |Children(t)|, at) == UsesOf(tc, m, |Children(m)|, at)
  {
    var t := Step(tc, p, m);
    if Acts(tc, p, m) {
      if p.Draws? {
        DrawStepParts(tc, p, m, at);
      } else {
        AddedParts(tc, m, t, at);
      }
    }
  }

  lemma {:induction false} DrawStepParts(tc: string, p: Pass, m: Node, at: Spot)
    requires p.Draws? && Acts(tc, p, m)
    ensures var t := Step(tc, p, m); UsesOf(tc, t, |Children(t)|, at) == UsesOf(tc, m, |Children(m)|, at)
  {
    var t := Step(tc, p, m);
    var first := Inside(tc, m, at, 0);
    assert Takes(tc, m) && Takes(tc, t);
    AddedLeaves(tc, m.init[0], t.init[0], first);
    forall i: nat | i < |m.init| ensures SamePart(tc, m, t, at, i) {
      assert i > 0 ==> t.init[i] == m.init[i];
    }
    SameUses(tc, m, t, |m.init|, at);
  }

  lemma {:induction false} LiteralsDrawNothing(tc: string, n: Node, at: Spot)
    requires n.Str? || n.Bool?
    ensures Uses(tc, n, at) == []
  {
    UsesUnfold(tc, n, at);
  }

  /** Literal arguments hold no draws. */
  lemma {:induction false} AddedLeaves(tc: string, c: Node, d: Node, at: Spot)
    requires c.Call? && d.Call? && d.receiver == c.receiver && c.args <= d.args && at.spoken
    requires forall i | |c.args| <= i < |d.args| :: d.args[i].Str? || d.args[i].Bool?
    ensures Uses(tc, d, at) == Uses(tc, c, at)
  {
    UsesUnfold(tc, c, at);
    UsesUnfold(tc, d, at);
    AddedParts(tc, c, d, at);
  }

  lemma {:induction false} AddedParts(tc: string, c: Node, d: Node, at: Spot)
    requires c.Call? && d.Call? && d.receiver == c.receiver && c.args <= d.args
    requires forall i | |c.args| <= i < |d.args| :: d.args[i].Str? || d.args[i].Bool?
    ensures UsesOf(tc, d, |Children(d)|, at) == UsesOf(tc, c, |Children(c)|, at)
  {
    var k, n := |Children(c)|, |Children(d)|;
    assert Children(c) <= Children(d);
    forall i: nat | i < k ensures SamePart(tc, c, d, at, i) { SameChild(tc, c, d, at, i); }
    SameUses(tc, c, d, k, at);
    forall i: nat | k <= i < n ensures Drawless(tc, d, at, i) { AddedLiteral(tc, d, at, i); }
    NoMoreUses(tc, d, k, n, at);
  }

  lemma {:induction false} SameChild(tc: string, c: Node, d: Node, at: Spot, i: nat)
    requires c.Call? && d.Call? && i < |Children(c)| && i < |Children(d)| && Children(d)[i] == Children(c)[i]
    ensures SamePart(tc, c, d, at, i)
  {}

  lemma {:induction false} AddedLiteral(tc: string, d: Node, at: Spot, i: nat)
    requires d.Call? && 0 < i < |Children(d)| && (d.args[i - 1].Str? || d.args[i - 1].Bool?)
    ensures Drawless(tc, d, at, i)
  {
    LiteralsDrawNothing(tc, d.args[i - 1], Inside(tc, d, at, i));
  }

  predicate Drawless(tc: string, n: Node, at: Spot, i: nat)
    requires i < |Children(n)|
  {
    Uses(tc, Children(n)[i], Inside(tc, n, at, i)) == []
  }

  lemma {:induction false} NoMoreUses(tc: string, d: Node, j: nat, k: nat, at: Spot)
    requires j <= k <= |Children(d)|
    requires forall i: nat | j <= i < k :: Drawless(tc, d, at, i)
    ensures UsesOf(tc, d, k, at) == UsesOf(tc, d, j, at)
  {
    if j < k {
      NoMoreUses(tc, d, j, k - 1, at);
      assert Drawless(tc, d, at, k - 1);
    }
  }

  predicate SamePart(tc: string, n: Node, m: Node, at: Spot, i: nat)
    requires i < |Children(n)| && i < |Children(m)|
  {
    Uses(tc, Children(m)[i], Inside(tc, m, at, i)) == Uses(tc, Children(n)[i], Inside(tc, n, at, i))
  }

  lemma {:induction false} SameUses(tc: string, n: Node, m: Node, k: nat, at: Spot)
    requires k <= |Children(n)| && k <= |Children(m)|
    requires forall i: nat | i < k :: SamePart(tc, n, m, at, i)
    ensures UsesOf(tc, m, k, at) == UsesOf(tc, n, k, at)
  {
    if k > 0 {
      SameUses(tc, n, m, k - 1, at);
      assert SamePart(tc, n, m, at, k - 1);
    }
  }

  // ---------- the whole rewriting ----------

  /** Outside everything. */
  const TOP: Spot := Spot(false, false, false)

  function BodyUses(tc: string, stmts: seq<Node>): seq<Use> { Uses(tc, Top(stmts), TOP) }

  function DrawsPass(tc: string, stmts: seq<Node>, forced: bool): Pass {
    Draws(Fold(map[], BodyUses(tc, stmts)), forced)
  }

  function Rewritten(tc: string, stmts: seq<Node>, forced: bool, source: Node -> string): seq<Node> {
    WalkAll(tc, Targets(source), WalkAll(tc, DrawsPass(tc, stmts, forced), stmts))
  }

  method RewriteDraws(tc: string, stmts: seq<Node>, forced: bool, source: Node -> string) returns (r: seq<Node>)
    ensures r == Rewritten(tc, stmts, forced, source)
  {
    var collector := new DrawNameCollector(tc);
    collector.VisitParts(Top(stmts), TOP);
    assert collector.nameFlags == Fold(map[], BodyUses(tc, stmts)) by { FoldNode(tc, map[], Top(stmts), TOP); }
    r := WalkEach(tc, Draws(collector.nameFlags, forced), stmts);
    r := WalkEach(tc, Targets(source), r);
  }

  /** Erasing what rewriting added gives back the body, exactly when the body held
      nothing that looks already added. */
  lemma {:induction false} ErasingRestores(tc: string, stmts: seq<Node>, forced: bool, source: Node -> string)
    ensures WalkAll(tc, Erase, Rewritten(tc, stmts, forced, source)) == WalkAll(tc, Erase, stmts)
    ensures WalkAll(tc, Erase, Rewritten(tc, stmts, forced, source)) == stmts <==> Clean(tc, Erase, Top(stmts))
  {
    var draws := DrawsPass(tc, stmts, forced);
    var named := WalkAll(tc, draws, stmts);
    var r := WalkAll(tc, Targets(source), named);
    forall i | 0 <= i < |stmts| ensures Walk(tc, Erase, r[i]) == Walk(tc, Erase, stmts[i]) {
      EraseUndoes(tc, Targets(source), named[i]);
      EraseUndoes(tc, draws, stmts[i]);
    }
    WalkFixes(tc, Erase, Top(stmts));
    TopWalk(tc, Erase, stmts);
  }

  /** A body that already labels a target loses the label. */
  lemma {:induction false} ErasingLosesOlderLabels(tc: string, forced: bool, source: Node -> string)
    ensures var body := [Call(Path(tc), TARGET_LABELLED, [Path("e"), Str("e")])];
            WalkAll(tc, Erase, Rewritten(tc, body, forced, source)) != body
  {
    var body := [Call(Path(tc), TARGET_LABELLED, [Path("e"), Str("e")])];
    ErasingRestores(tc, body, forced, source);
    assert Acts(tc, Erase, body[0]);
    assert !Clean(tc, Erase, Children(Top(body))[0]);
  }

  /** Rewriting twice is rewriting once. */
  lemma {:induction false} RewritingIsIdempotent(tc: string, stmts: seq<Node>, forced: bool, source: Node -> string)
    ensures var r := Rewritten(tc, stmts, forced, source); Rewritten(tc, r, forced, source) == r
  {
    var draws := DrawsPass(tc, stmts, forced);
    var named := WalkAll(tc, draws, stmts);
    var r := WalkAll(tc, Targets(source), named);
    var again := DrawsPass(tc, r, forced);
    forall i | 0 <= i < |r| ensures Walk(tc, Targets(source), Walk(tc, again, r[i])) == r[i] {
      WalkCleans(tc, draws, again, stmts[i]);
      TargetsKeepDrawsClean(tc, Targets(source), again, named[i]);
      WalkFixes(tc, again, r[i]);
      WalkCleans(tc, Targets(source), Targets(source), named[i]);
      WalkFixes(tc, Targets(source), r[i]);
    }
    assert WalkAll(tc, again, r) == r by {
      forall i | 0 <= i < |r| ensures Walk(tc, again, r[i]) == r[i] {
        WalkCleans(tc, draws, again, stmts[i]);
        TargetsKeepDrawsClean(tc, Targets(source), again, named[i]);
        WalkFixes(tc, again, r[i]);
      }
    }
  }

  lemma {:induction false} UsesOfRewritten(tc: string, stmts: seq<Node>, forced: bool, source: Node -> string)
    ensures BodyUses(tc, Rewritten(tc, stmts, forced, source)) == MarkedAll(DrawsPass(tc, stmts, forced), BodyUses(tc, stmts))
  {
    var draws := DrawsPass(tc, stmts, forced);
    var named := WalkAll(tc, draws, stmts);
    TopWalk(tc, draws, stmts);
    TopWalk(tc, Targets(source), named);
    UsesAreMarked(tc, draws, Top(stmts), TOP);
    UsesAreMarked(tc, Targets(source), Top(named), TOP);
  }

  /** Whether rewriting marks the name non-repeatable: it is not forced, and the
      name is drawn by one `let`, outside every block and closure. */
  predicate NonRepeatable(us: seq<Use>, forced: bool, name: string) {
    !forced && Count(us, name) == 1 && !HasNested(us, name)
  }

  /** Rewriting keeps every draw in its place and marks the plain ones, all of one
      name alike; it changes no other draw. */
  lemma {:induction false} MarksAreJustified(tc: string, stmts: seq<Node>, forced: bool, source: Node -> string, i: nat)
    requires i < |BodyUses(tc, stmts)|
    ensures var before, after := BodyUses(tc, stmts), BodyUses(tc, Rewritten(tc, stmts, forced, source));
            && |after| == |before|
            && after[i] == if Plain(before[i])
                           then before[i].(kind := LetDraw(before[i].kind.name, Some(!NonRepeatable(before, forced, before[i].kind.name))))
                           else before[i]
  {
    var us := BodyUses(tc, stmts);
    UsesOfRewritten(tc, stmts, forced, source);
    if Plain(us[i]) {
      FlagsMean(us, us[i].kind.name);
      Counted(us, i);
    }
  }
}
