/** What rewriting does to the forms of syntax it is about, spelled out
    (hegel-macros/src/common.rs). */
module DrawForms {
  import opened Wrappers
  import opened DrawNaming
  import opened DrawUses

  function OnTestCase(tc: string, name: string, args: seq<Node>): Node { Call(Path(tc), name, args) }

  /** A pattern that is one identifier, with or without its type. */
  ghost predicate Binds(pat: Pat, name: string) { pat == Ident(name) || exists inner, ty :: pat == Typed(inner, ty) && Binds(inner, name) }

  lemma {:induction false} BindsItsIdent(pat: Pat, name: string)
    ensures Binds(pat, name) <==> IdentOf(pat) == Some(name)
  {
    if pat.Typed? { BindsItsIdent(pat.pat, name); }
  }

  lemma {:induction false} WalkedDraw(tc: string, flags: Flags, forced: bool, g: Node)
    ensures var p := Draws(flags, forced);
            Walk(tc, p, OnTestCase(tc, "draw", [g])) == OnTestCase(tc, "draw", [Walk(tc, p, g)])
  {
    var p, c := Draws(flags, forced), OnTestCase(tc, "draw", [g]);
    CallWalked(tc, p, c);
    KindStays(tc, p, Path(tc));
    assert WalkAll(tc, p, [g]) == [Walk(tc, p, g)];
  }

  /** `let x = tc.draw(g)`, and `let x: T = tc.draw(g)` too, become
      `let x = tc.__draw_named(g, "x", flag)`; a `let` with any other pattern keeps
      its draw as it is. */
  lemma {:induction false} LetsAreNamed(tc: string, flags: Flags, forced: bool, pat: Pat, g: Node, otherwise: seq<Node>)
    ensures var p := Draws(flags, forced);
            var rewritten := Walk(tc, p, Let(pat, [OnTestCase(tc, "draw", [g])] + otherwise));
            && (forall x | Binds(pat, x) ::
                  var flag := forced || (x in flags && flags[x]);
                  rewritten == Let(pat, [OnTestCase(tc, "__draw_named", [Walk(tc, p, g), Str(x), Bool(flag)])] + WalkAll(tc, p, otherwise)))
            && ((forall x :: !Binds(pat, x)) ==>
                  rewritten == Let(pat, [OnTestCase(tc, "draw", [Walk(tc, p, g)])] + WalkAll(tc, p, otherwise)))
  {
    var p := Draws(flags, forced);
    WalkedLet(tc, flags, forced, pat, g, otherwise);
    forall x ensures Binds(pat, x) <==> IdentOf(pat) == Some(x) { BindsItsIdent(pat, x); }
    NamedLet(tc, flags, forced, pat, Walk(tc, p, g), WalkAll(tc, p, otherwise));
  }

  lemma {:induction false} WalkedLet(tc: string, flags: Flags, forced: bool, pat: Pat, g: Node, otherwise: seq<Node>)
    ensures var p := Draws(flags, forced);
            Walk(tc, p, Let(pat, [OnTestCase(tc, "draw", [g])] + otherwise))
            == Step(tc, p, Let(pat, [OnTestCase(tc, "draw", [Walk(tc, p, g)])] + WalkAll(tc, p, otherwise)))
  {
    var p := Draws(flags, forced);
    var n := Let(pat, [OnTestCase(tc, "draw", [g])] + otherwise);
    WalkOf(tc, p, n);
    WalkedDraw(tc, flags, forced, g);
    assert WalkAll(tc, p, n.init) == [OnTestCase(tc, "draw", [Walk(tc, p, g)])] + WalkAll(tc, p, otherwise);
  }

  lemma {:induction false} NamedLet(tc: string, flags: Flags, forced: bool, pat: Pat, g: Node, otherwise: seq<Node>)
    ensures var p, n := Draws(flags, forced), Let(pat, [OnTestCase(tc, "draw", [g])] + otherwise);
            Step(tc, p, n) ==
              match IdentOf(pat)
              case None => n
              case Some(x) => Let(pat, [OnTestCase(tc, "__draw_named", [g, Str(x), Bool(FlagFor(p, x))])] + otherwise)
  {
    if IdentOf(pat).Some? {
      var p, x := Draws(flags, forced), IdentOf(pat).value;
      assert [g] + [Str(x), Bool(FlagFor(p, x))] == [g, Str(x), Bool(FlagFor(p, x))];
    }
  }

  /** `tc.target(e)` becomes `tc.target_labelled(e, "e")`, the label being the source
      of `e` as rewritten. */
  lemma {:induction false} TargetsAreLabelled(tc: string, source: Node -> string, e: Node)
    ensures var p := Targets(source);
            Walk(tc, p, OnTestCase(tc, "target", [e]))
            == OnTestCase(tc, "target_labelled", [Walk(tc, p, e), Str(source(Walk(tc, p, e)))])
  {
    var p, c := Targets(source), OnTestCase(tc, "target", [e]);
    CallWalked(tc, p, c);
    KindStays(tc, p, Path(tc));
    assert WalkAll(tc, p, [e]) == [Walk(tc, p, e)];
  }

  /** Calls on anything but the test case only have their parts rewritten, and
      nested functions not even those. */
  lemma {:induction false} OthersAreLeft(tc: string, p: Pass, receiver: Node, name: string, args: seq<Node>, f: Node)
    requires receiver != Path(tc)
    ensures Walk(tc, p, Call(receiver, name, args)) == Call(Walk(tc, p, receiver), name, WalkAll(tc, p, args))
    ensures f.Fn? ==> Walk(tc, p, f) == f
  {
    CallWalked(tc, p, Call(receiver, name, args));
    KindStays(tc, p, receiver);
  }

  // ---------- what draws ----------

  /** Every way of drawing on the test case is a draw after those of its arguments,
      with the name and the flag as far as they are written out; unless it is the
      draw of a `let` that speaks for it. */
  lemma {:induction false} CallsDraw(tc: string, g: Node, title: Node, flag: Node, at: Spot)
    requires !at.spoken
    ensures var c := OnTestCase(tc, "draw", [g]);
            Uses(tc, c, at) == UsesOf(tc, c, 2, at) + [Use(Unbound, at.nested, at.repeated)]
    ensures var c := OnTestCase(tc, "draw_named", [title, g]);
            Uses(tc, c, at) == UsesOf(tc, c, 3, at) + [Use(Named(if title.Str? then Some(title.text) else None), at.nested, at.repeated)]
    ensures var c := OnTestCase(tc, "__draw_named", [g, title, flag]);
            Uses(tc, c, at) == UsesOf(tc, c, 4, at)
              + [Use(Explicit(if title.Str? then Some(title.text) else None, if flag.Bool? then Some(flag.value) else None),
                     at.nested, at.repeated)]
  {
    KindsMean(tc, g, title, flag);
    CallUses(tc, OnTestCase(tc, "draw", [g]), at);
    CallUses(tc, OnTestCase(tc, "draw_named", [title, g]), at);
    CallUses(tc, OnTestCase(tc, "__draw_named", [g, title, flag]), at);
  }

  lemma {:induction false} KindsMean(tc: string, g: Node, title: Node, flag: Node)
    ensures KindOf(tc, OnTestCase(tc, "draw", [g])) == Some(Unbound)
    ensures KindOf(tc, OnTestCase(tc, "draw_named", [title, g])) == Some(Named(if title.Str? then Some(title.text) else None))
    ensures KindOf(tc, OnTestCase(tc, "__draw_named", [g, title, flag]))
            == Some(Explicit(if title.Str? then Some(title.text) else None, if flag.Bool? then Some(flag.value) else None))
  {}

  lemma {:induction false} CallUses(tc: string, c: Node, at: Spot)
    requires c.Call? && KindOf(tc, c).Some? && !at.spoken
    ensures Uses(tc, c, at) == UsesOf(tc, c, |c.args| + 1, at) + [Use(KindOf(tc, c).value, at.nested, at.repeated)]
  {
    UsesUnfold(tc, c, at);
    assert |Children(c)| == |c.args| + 1;
  }

  /** A `let` of one identifier speaks for the draw that initializes it. */
  lemma {:induction false} LetsSpeak(tc: string, pat: Pat, x: string, g: Node, at: Spot)
    requires Binds(pat, x)
    ensures var c := OnTestCase(tc, "draw", [g]);
            Uses(tc, Let(pat, [c]), at) ==
              UsesOf(tc, c, 2, Spot(at.nested, at.repeated, true)) + [Use(LetDraw(x, None), at.nested, at.repeated)]
  {
    var c := OnTestCase(tc, "draw", [g]);
    var n, spot := Let(pat, [c]), Spot(at.nested, at.repeated, true);
    BindsItsIdent(pat, x);
    UsesUnfold(tc, n, at);
    UsesUnfold(tc, c, spot);
    assert UsesOf(tc, n, 1, at) == Uses(tc, c, spot);
  }

  // ---------- where a draw stands ----------

  lemma {:induction false} LonePart(tc: string, n: Node, s: Node, at: Spot)
    requires Children(n) == [s] && !n.Fn? && !n.Call? && !n.Let?
    ensures Uses(tc, n, at) == Uses(tc, s, Inside(tc, n, at, 0))
  {
    UsesUnfold(tc, n, at);
    assert UsesOf(tc, n, 1, at) == UsesOf(tc, n, 0, at) + Uses(tc, s, Inside(tc, n, at, 0));
  }

  /** The draws of a statement in a block or of a closure's body are nested and may
      be repeated, those of a loop's condition only repeated, and those of other
      expressions where these are; those of a nested function are not this body's. */
  lemma {:induction false} PlacesMean(tc: string, s: Node, params: seq<Pat>, tag: string, f: Node, at: Spot)
    ensures Uses(tc, Block([s]), at) == Uses(tc, s, Spot(true, true, false))
    ensures Uses(tc, Closure(params, s), at) == Uses(tc, s, Spot(true, true, false))
    ensures Uses(tc, Other("while", [s]), at) == Uses(tc, s, Spot(at.nested, true, false))
    ensures tag != "while" ==> Uses(tc, Other(tag, [s]), at) == Uses(tc, s, Spot(at.nested, at.repeated, false))
    ensures f.Fn? ==> Uses(tc, f, at) == []
  {
    LonePart(tc, Block([s]), s, at);
    LonePart(tc, Closure(params, s), s, at);
    LonePart(tc, Other("while", [s]), s, at);
    LonePart(tc, Other(tag, [s]), s, at);
  }
}
