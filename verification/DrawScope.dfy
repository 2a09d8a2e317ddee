/** The names that executions of a body record, and the check that refuses some of
    them (src/test_case.rs). */
module DrawScope {
  import opened Wrappers
  import opened DrawNaming
  import opened DrawUses

  // ---------- the name check ----------

  /** What a draw records in its naming scope. */
  datatype Record = Record(name: string, repeatable: bool)

  predicate Clashes(a: Record, b: Record) { a.name == b.name && !(a.repeatable && b.repeatable) }

  /** A name used more than once is repeatable every time. */
  predicate Accepted(records: seq<Record>) { forall i, j | 0 <= i < j < |records| :: !Clashes(records[i], records[j]) }

  function Times(records: seq<Record>, name: string): nat {
    if records == [] then 0
    else Times(records[..|records| - 1], name) + if records[|records| - 1].name == name then 1 else 0
  }

  lemma {:induction false} TimesMeans(records: seq<Record>, name: string)
    ensures Times(records, name) > 0 <==> exists i | 0 <= i < |records| :: records[i].name == name
  {
    if records != [] {
      var init := records[..|records| - 1];
      TimesMeans(init, name);
      assert forall i | 0 <= i < |init| :: init[i] == records[i];
    }
  }

  class DrawState {
    var counts: map<string, nat>
    var flags: map<string, bool>

    /** The state after an accepted sequence of records. */
    ghost predicate Reflects(records: seq<Record>)
      reads this
    {
      && Accepted(records)
      && (forall name :: name in counts <==> Times(records, name) > 0)
      && (forall name <- counts :: counts[name] == Times(records, name))
      && flags.Keys == counts.Keys
      && (forall i | 0 <= i < |records| :: records[i].name in flags && flags[records[i].name] == records[i].repeatable)
    }

    constructor ()
      ensures Reflects([])
    {
      counts, flags := map[], map[];
    }

    /** Refuses a draw exactly when its record clashes with an earlier one. */
    method Allocate(name: string, repeatable: bool, ghost records: seq<Record>) returns (accepted: bool)
      requires Reflects(records)
      modifies this
      ensures accepted <==> Accepted(records + [Record(name, repeatable)])
      ensures accepted ==> Reflects(records + [Record(name, repeatable)])
    {
      ghost var more := records + [Record(name, repeatable)];
      TimesMeans(records, name);
      assert more[..|more| - 1] == records && more[|records|] == Record(name, repeatable);
      if name in flags {
        if flags[name] != repeatable { return false; }
      } else {
        flags := flags[name := repeatable];
      }
      counts := counts[name := if name in counts then counts[name] + 1 else 1];
      accepted := repeatable || counts[name] <= 1;
    }
  }

  // ---------- executions ----------

  /** What a draw of this kind may record. */
  predicate MayRecord(k: Kind, r: Record) {
    match k
    case LetDraw(name, Some(flag)) => r == Record(name, flag)
    case LetDraw(_, None) => r == Record(DRAW, true)
    case Unbound => r == Record(DRAW, true)
    case Named(title) => r.repeatable && (title.Some? ==> r.name == title.value)
    case Explicit(title, flag) => (title.Some? ==> r.name == title.value) && (flag.Some? ==> r.repeatable == flag.value)
  }

  /** A draw made while a body runs: by one of its own calls, or, in the same naming
      scope, by code that the body hands its test case to. */
  datatype Draw = At(use: nat, record: Record) | Elsewhere(name: string)

  function RecordOf(d: Draw): Record {
    match d
    case At(_, record) => record
    case Elsewhere(name) => Record(name, true)
  }

  function Records(draws: seq<Draw>): seq<Record> { seq(|draws|, i requires 0 <= i < |draws| => RecordOf(draws[i])) }

  /** Any draws may happen, any number of times, except that what stands outside
      blocks, closures and loops happens at most once, in order. Other code draws
      the names in `others`. */
  predicate Execution(us: seq<Use>, others: set<string>, draws: seq<Draw>) {
    && (forall k | 0 <= k < |draws| ::
          match draws[k]
          case At(use, record) => use < |us| && MayRecord(us[use].kind, record)
          case Elsewhere(name) => name in others)
    && (forall j, k | 0 <= j < k < |draws| && draws[j].At? && draws[k].At? ::
          us[draws[j].use].repeated || us[draws[k].use].repeated || draws[j].use < draws[k].use)
  }

  ghost predicate SomeRefused(us: seq<Use>, others: set<string>) {
    exists draws :: Execution(us, others, draws) && !Accepted(Records(draws))
  }

  predicate Pair(us: seq<Use>, i: nat, a: Record, j: nat, b: Record) {
    && i <= j < |us| && (i == j ==> us[i].repeated)
    && MayRecord(us[i].kind, a) && MayRecord(us[j].kind, b)
  }

  /** Two draws that can both happen can clash, or one can clash with other code. */
  ghost predicate CanClash(us: seq<Use>, others: set<string>) {
    || (exists i: nat, a, j: nat, b :: Pair(us, i, a, j, b) && Clashes(a, b))
    || (exists i: nat, a :: i < |us| && MayRecord(us[i].kind, a) && !a.repeatable && a.name in others)
  }

  /** Both of a pair can be drawn in one execution. */
  lemma {:induction false} PairsHappen(us: seq<Use>, others: set<string>, i: nat, a: Record, j: nat, b: Record)
    requires Pair(us, i, a, j, b)
    ensures Execution(us, others, [At(i, a), At(j, b)]) && Records([At(i, a), At(j, b)]) == [a, b]
  {}

  /** Some execution of a body is refused exactly when two of its draws can clash. */
  lemma {:induction false} RefusedIffClash(us: seq<Use>, others: set<string>)
    ensures SomeRefused(us, others) <==> CanClash(us, others)
  {
    if SomeRefused(us, others) {
      var draws :| Execution(us, others, draws) && !Accepted(Records(draws));
      var j, k :| 0 <= j < k < |draws| && Clashes(Records(draws)[j], Records(draws)[k]);
      ClashInExecution(us, others, draws, j, k);
    }
    forall i, a, j, b | Pair(us, i, a, j, b) && Clashes(a, b) ensures SomeRefused(us, others) {
      PairsHappen(us, others, i, a, j, b);
      assert Clashes([a, b][0], [a, b][1]);
      assert !Accepted(Records([At(i, a), At(j, b)]));
    }
    forall i, a | 0 <= i < |us| && MayRecord(us[i].kind, a) && !a.repeatable && a.name in others
      ensures SomeRefused(us, others)
    {
      var draws := [At(i, a), Elsewhere(a.name)];
      assert Execution(us, others, draws);
      assert Clashes(Records(draws)[0], Records(draws)[1]);
    }
  }

  lemma {:induction false} ClashInExecution(us: seq<Use>, others: set<string>, draws: seq<Draw>, j: nat, k: nat)
    requires Execution(us, others, draws) && j < k < |draws| && Clashes(RecordOf(draws[j]), RecordOf(draws[k]))
    ensures CanClash(us, others)
  {
    var a, b := RecordOf(draws[j]), RecordOf(draws[k]);
    if draws[j].At? && draws[k].At? {
      if draws[j].use <= draws[k].use {
        assert Pair(us, draws[j].use, a, draws[k].use, b);
      } else {
        assert Pair(us, draws[k].use, b, draws[j].use, a);
      }
    } else if draws[j].At? {
      assert MayRecord(us[draws[j].use].kind, a);
    } else if draws[k].At? {
      assert MayRecord(us[draws[k].use].kind, b);
    }
  }

  // ---------- lets outside blocks ----------

  /** As the grammar has it, `let`s stand only among the statements of a block or
      of a function. */
  predicate WellFormed(n: Node) {
    var cs := Children(n);
    forall i | 0 <= i < |cs| :: WellFormed(cs[i]) && (n.Block? || n.Fn? || !cs[i].Let?)
  }

  predicate BodyWellFormed(stmts: seq<Node>) { forall i | 0 <= i < |stmts| :: WellFormed(stmts[i]) }

  /** A `let` outside every block and closure is drawn at most once. */
  predicate LetsOnce(us: seq<Use>) { forall u <- us :: u.kind.LetDraw? ==> u.nested || !u.repeated }

  /** Where `n` stands and what it is let no `let` among its parts run twice outside
      every block and closure. */
  predicate LetsStandWell(n: Node, at: Spot) {
    && (forall i | 0 <= i < |Children(n)| :: WellFormed(Children(n)[i]))
    && (!n.Block? && (at.repeated || Repeats(n)) ==> forall i | 0 <= i < |Children(n)| :: !Children(n)[i].Let?)
  }

  lemma {:induction false} PartsLetOnce(tc: string, n: Node, k: nat, at: Spot)
    requires !n.Fn? && k <= |Children(n)| && LetsStandWell(n, at)
    ensures LetsOnce(UsesOf(tc, n, k, at))
    decreases n, k
  {
    if k > 0 {
      var c, spot := Children(n)[k - 1], Inside(tc, n, at, k - 1);
      PartsLetOnce(tc, n, k - 1, at);
      if !c.Fn? {
        assert WellFormed(c);
        PartsStandWell(c, spot);
        PartsLetOnce(tc, c, |Children(c)|, spot);
        OwnLetOnce(tc, n, at, k - 1);
        UsesUnfold(tc, c, spot);
      }
    }
  }

  lemma {:induction false} PartsStandWell(c: Node, at: Spot)
    requires WellFormed(c) && !c.Fn?
    ensures LetsStandWell(c, at)
  {
    assert forall i | 0 <= i < |Children(c)| :: WellFormed(Children(c)[i]) && (c.Block? || !Children(c)[i].Let?);
  }

  lemma {:induction false} OwnLetOnce(tc: string, n: Node, at: Spot, i: nat)
    requires i < |Children(n)| && LetsStandWell(n, at)
    ensures LetsOnce(OwnUse(tc, Children(n)[i], Inside(tc, n, at, i)))
  {}

  lemma {:induction false} BodyLetsOnce(tc: string, stmts: seq<Node>)
    requires BodyWellFormed(stmts)
    ensures LetsOnce(BodyUses(tc, stmts))
  {
    PartsLetOnce(tc, Top(stmts), |stmts|, TOP);
    UsesUnfold(tc, Top(stmts), TOP);
  }

  // ---------- non-repeatable names ----------

  /** The names a draw of this kind may use, once the body is rewritten. */
  predicate CanDraw(k: Kind, name: string) {
    match k
    case LetDraw(n, _) => n == name
    case Unbound => name == DRAW
    case Named(title) => title.Some? ==> title.value == name
    case Explicit(title, _) => title.Some? ==> title.value == name
  }

  /** Something other than a `let` that rewriting names draws under this name: an
      unbound draw, `draw_named`, a draw with its name and flag spelled out, or
      code that the body hands its test case to. */
  predicate DrawnByOtherRoute(us: seq<Use>, others: set<string>, name: string) {
    name in others || exists i | 0 <= i < |us| :: !PlainDraw(us[i], name) && CanDraw(us[i].kind, name)
  }

  function RewrittenUses(tc: string, stmts: seq<Node>, forced: bool, source: Node -> string): seq<Use> {
    BodyUses(tc, Rewritten(tc, stmts, forced, source))
  }

  /** A use of the rewritten body against the one it comes from. */
  lemma {:induction false} RewrittenDraws(tc: string, stmts: seq<Node>, forced: bool, source: Node -> string, i: nat, r: Record)
    requires i < |BodyUses(tc, stmts)|
    ensures var before, after := BodyUses(tc, stmts), RewrittenUses(tc, stmts, forced, source);
            && |after| == |before| && after[i].repeated == before[i].repeated && after[i].nested == before[i].nested
            && (MayRecord(after[i].kind, r) ==> CanDraw(before[i].kind, r.name))
            && (Plain(before[i]) ==>
                  (MayRecord(after[i].kind, r) <==>
                     r == Record(before[i].kind.name, !NonRepeatable(before, forced, before[i].kind.name))))
            && (!Plain(before[i]) && CanDraw(before[i].kind, r.name) ==>
                  exists flag :: MayRecord(after[i].kind, Record(r.name, flag)))
  {
    MarksAreJustified(tc, stmts, forced, source, i);
    var before, after := BodyUses(tc, stmts), RewrittenUses(tc, stmts, forced, source);
    if !Plain(before[i]) && CanDraw(before[i].kind, r.name) {
      var flag :=
        match before[i].kind
        case LetDraw(_, mark) => mark.value
        case Explicit(_, flag) => flag.Some? && flag.value
        case _ => true;
      assert MayRecord(after[i].kind, Record(r.name, flag));
    }
  }

  predicate AtMostOnce(records: seq<Record>, name: string) {
    forall j, k | 0 <= j < k < |records| :: !(records[j].name == name && records[k].name == name)
  }

  ghost predicate AlwaysAtMostOnce(us: seq<Use>, others: set<string>, name: string) {
    forall draws | Execution(us, others, draws) :: AtMostOnce(Records(draws), name)
  }

  /** A name that rewriting marks non-repeatable is drawn at most once, in every
      execution, exactly when the body draws it by no other route. */
  lemma {:induction false} DrawnAtMostOnce(
      tc: string, stmts: seq<Node>, forced: bool, source: Node -> string, others: set<string>, name: string)
    requires BodyWellFormed(stmts) && NonRepeatable(BodyUses(tc, stmts), forced, name)
    ensures AlwaysAtMostOnce(RewrittenUses(tc, stmts, forced, source), others, name)
            <==> !DrawnByOtherRoute(BodyUses(tc, stmts), others, name)
  {
    if DrawnByOtherRoute(BodyUses(tc, stmts), others, name) {
      DrawnTwice(tc, stmts, forced, source, others, name);
    } else {
      forall draws, j, k | Execution(RewrittenUses(tc, stmts, forced, source), others, draws) && 0 <= j < k < |draws|
        ensures !(RecordOf(draws[j]).name == name && RecordOf(draws[k]).name == name)
      {
        NotDrawnTwice(tc, stmts, forced, source, others, name, draws, j, k);
      }
    }
  }

  /** The one `let` that draws a non-repeatable name. */
  lemma {:induction false} TheLet(us: seq<Use>, forced: bool, name: string) returns (l: nat)
    requires NonRepeatable(us, forced, name)
    ensures l < |us| && PlainDraw(us[l], name) && !us[l].nested
    ensures forall i: nat | i < |us| && PlainDraw(us[i], name) :: i == l
  {
    CountedMeans(us, name);
    l :| 0 <= l < |us| && PlainDraw(us[l], name);
    forall i: nat | i < |us| && PlainDraw(us[i], name) ensures i == l {
      if i < l { CountedTwice(us, i, l); } else if l < i { CountedTwice(us, l, i); }
    }
  }

  lemma {:induction false} NotDrawnTwice(
      tc: string, stmts: seq<Node>, forced: bool, source: Node -> string, others: set<string>, name: string,
      draws: seq<Draw>, j: nat, k: nat)
    requires BodyWellFormed(stmts) && NonRepeatable(BodyUses(tc, stmts), forced, name)
    requires !DrawnByOtherRoute(BodyUses(tc, stmts), others, name)
    requires Execution(RewrittenUses(tc, stmts, forced, source), others, draws) && j < k < |draws|
    ensures !(RecordOf(draws[j]).name == name && RecordOf(draws[k]).name == name)
  {
    var us := BodyUses(tc, stmts);
    var l := TheLet(us, forced, name);
    BodyLetsOnce(tc, stmts);
    assert us[l] in us;
    UsesOfRewritten(tc, stmts, forced, source);
    if draws[j].At? { RewrittenDraws(tc, stmts, forced, source, draws[j].use, draws[j].record); }
    if draws[k].At? { RewrittenDraws(tc, stmts, forced, source, draws[k].use, draws[k].record); }
  }

  lemma {:induction false} DrawnTwice(
      tc: string, stmts: seq<Node>, forced: bool, source: Node -> string, others: set<string>, name: string)
    requires NonRepeatable(BodyUses(tc, stmts), forced, name) && DrawnByOtherRoute(BodyUses(tc, stmts), others, name)
    ensures exists draws :: Execution(RewrittenUses(tc, stmts, forced, source), others, draws)
                            && !AtMostOnce(Records(draws), name) && !Accepted(Records(draws))
  {
    var us, after := BodyUses(tc, stmts), RewrittenUses(tc, stmts, forced, source);
    var l := TheLet(us, forced, name);
    var own := Record(name, false);
    RewrittenDraws(tc, stmts, forced, source, l, own);
    var draws;
    if name in others {
      draws := [At(l, own), Elsewhere(name)];
    } else {
      var i: nat :| i < |us| && !PlainDraw(us[i], name) && CanDraw(us[i].kind, name);
      RewrittenDraws(tc, stmts, forced, source, i, own);
      var flag :| MayRecord(after[i].kind, Record(name, flag));
      draws := if l < i then [At(l, own), At(i, Record(name, flag))] else [At(i, Record(name, flag)), At(l, own)];
    }
    assert Execution(after, others, draws);
    assert Records(draws)[0].name == name && Records(draws)[1].name == name;
    assert Clashes(Records(draws)[0], Records(draws)[1]);
  }

  // ---------- refused executions ----------

  /** The draws of a body were every `let` repeatable. */
  function AllRepeatable(us: seq<Use>): seq<Use> { MarkedAll(Draws(map[], true), us) }

  /** The draws whose flags are spelled out would clash whatever rewriting marks. */
  ghost predicate SpelledFlagsClash(us: seq<Use>, others: set<string>) { CanClash(AllRepeatable(us), others) }

  /** A non-repeatable name is also drawn by another route. */
  ghost predicate NonRepeatableElsewhere(us: seq<Use>, forced: bool, others: set<string>) {
    exists name :: NonRepeatable(us, forced, name) && DrawnByOtherRoute(us, others, name)
  }

  /** Some execution of the rewritten body is refused exactly when a name that
      rewriting marks non-repeatable is also drawn by another route, or flags that
      the body spells out clash anyway. */
  lemma {:induction false} RefusedIffOtherRoute(
      tc: string, stmts: seq<Node>, forced: bool, source: Node -> string, others: set<string>)
    requires BodyWellFormed(stmts)
    ensures SomeRefused(RewrittenUses(tc, stmts, forced, source), others) <==>
              || NonRepeatableElsewhere(BodyUses(tc, stmts), forced, others)
              || SpelledFlagsClash(BodyUses(tc, stmts), others)
  {
    var us, after := BodyUses(tc, stmts), RewrittenUses(tc, stmts, forced, source);
    RefusedIffClash(after, others);
    forall name | NonRepeatable(us, forced, name) && DrawnByOtherRoute(us, others, name) ensures SomeRefused(after, others) {
      DrawnTwice(tc, stmts, forced, source, others, name);
    }
    if SpelledFlagsClash(us, others) { SpelledClashStays(tc, stmts, forced, source, others); }
    UsesOfRewritten(tc, stmts, forced, source);
    forall i: nat, a | i < |after| && MayRecord(after[i].kind, a) && !a.repeatable && a.name in others
      ensures NonRepeatableElsewhere(us, forced, others) || SpelledFlagsClash(us, others)
    {
      NonRepeatableRecord(tc, stmts, forced, source, i, a);
      assert NonRepeatable(us, forced, a.name) ==> DrawnByOtherRoute(us, others, a.name);
    }
    forall i: nat, a, j: nat, b | Pair(after, i, a, j, b) && Clashes(a, b)
      ensures NonRepeatableElsewhere(us, forced, others) || SpelledFlagsClash(us, others)
    {
      ClashIsExplained(tc, stmts, forced, source, others, i, a, j, b);
    }
  }

  /** What a use of the rewritten body records: what it would were every `let`
      repeatable, unless it is the `let` of a non-repeatable name. */
  lemma {:induction false} NonRepeatableRecord(
      tc: string, stmts: seq<Node>, forced: bool, source: Node -> string, i: nat, a: Record)
    requires i < |BodyUses(tc, stmts)| && i < |RewrittenUses(tc, stmts, forced, source)|
    ensures var us, after, free := BodyUses(tc, stmts), RewrittenUses(tc, stmts, forced, source), AllRepeatable(BodyUses(tc, stmts));
            MayRecord(after[i].kind, a) ==>
              || (PlainDraw(us[i], a.name) && NonRepeatable(us, forced, a.name) && !a.repeatable)
              || MayRecord(free[i].kind, a)
    ensures var us, after, free := BodyUses(tc, stmts), RewrittenUses(tc, stmts, forced, source), AllRepeatable(BodyUses(tc, stmts));
            MayRecord(free[i].kind, a) ==>
              MayRecord(after[i].kind, a) || (a.repeatable && MayRecord(after[i].kind, Record(a.name, false)))
  {
    MarksAreJustified(tc, stmts, forced, source, i);
  }

  lemma {:induction false} SpelledClashStays(
      tc: string, stmts: seq<Node>, forced: bool, source: Node -> string, others: set<string>)
    requires SpelledFlagsClash(BodyUses(tc, stmts), others)
    ensures CanClash(RewrittenUses(tc, stmts, forced, source), others)
  {
    var us, after := BodyUses(tc, stmts), RewrittenUses(tc, stmts, forced, source);
    var free := AllRepeatable(us);
    UsesOfRewritten(tc, stmts, forced, source);
    if i: nat, a :| i < |free| && MayRecord(free[i].kind, a) && !a.repeatable && a.name in others {
      NonRepeatableRecord(tc, stmts, forced, source, i, a);
    } else {
      var i: nat, a, j: nat, b :| Pair(free, i, a, j, b) && Clashes(a, b);
      NonRepeatableRecord(tc, stmts, forced, source, i, a);
      NonRepeatableRecord(tc, stmts, forced, source, j, b);
      var a' := if MayRecord(after[i].kind, a) then a else Record(a.name, false);
      var b' := if MayRecord(after[j].kind, b) then b else Record(b.name, false);
      assert Pair(after, i, a', j, b') && Clashes(a', b');
    }
  }

  lemma {:induction false} ClashIsExplained(
      tc: string, stmts: seq<Node>, forced: bool, source: Node -> string, others: set<string>,
      i: nat, a: Record, j: nat, b: Record)
    requires BodyWellFormed(stmts)
    requires Pair(RewrittenUses(tc, stmts, forced, source), i, a, j, b) && Clashes(a, b)
    ensures NonRepeatableElsewhere(BodyUses(tc, stmts), forced, others) || SpelledFlagsClash(BodyUses(tc, stmts), others)
  {
    var us, name := BodyUses(tc, stmts), a.name;
    UsesOfRewritten(tc, stmts, forced, source);
    NonRepeatableRecord(tc, stmts, forced, source, i, a);
    NonRepeatableRecord(tc, stmts, forced, source, j, b);
    if (PlainDraw(us[i], name) || PlainDraw(us[j], name)) && NonRepeatable(us, forced, name) {
      OneIsOtherRoute(tc, stmts, forced, source, i, a, j, b);
      assert DrawnByOtherRoute(us, others, name);
    } else {
      assert Pair(AllRepeatable(us), i, a, j, b);
    }
  }

  /** A non-repeatable name has one `let`, drawn once, so the other draw of a pair
      is no `let` of that name. */
  lemma {:induction false} OneIsOtherRoute(
      tc: string, stmts: seq<Node>, forced: bool, source: Node -> string, i: nat, a: Record, j: nat, b: Record)
    requires BodyWellFormed(stmts) && a.name == b.name && NonRepeatable(BodyUses(tc, stmts), forced, a.name)
    requires Pair(RewrittenUses(tc, stmts, forced, source), i, a, j, b)
    ensures var us := BodyUses(tc, stmts);
            exists k | 0 <= k < |us| :: !PlainDraw(us[k], a.name) && CanDraw(us[k].kind, a.name)
  {
    var us, name := BodyUses(tc, stmts), a.name;
    var l := TheLet(us, forced, name);
    UsesOfRewritten(tc, stmts, forced, source);
    BodyLetsOnce(tc, stmts);
    assert us[l] in us;
    RewrittenDraws(tc, stmts, forced, source, i, a);
    RewrittenDraws(tc, stmts, forced, source, j, b);
    var other := if i == l then j else i;
    assert !PlainDraw(us[other], name) && CanDraw(us[other].kind, name);
  }

  /** Without spelled-out flags only the first cause is left. */
  lemma {:induction false} NoSpelledFlagsNoClash(us: seq<Use>, others: set<string>)
    requires forall u <- us :: !u.kind.Explicit? && (u.kind.LetDraw? ==> Plain(u))
    ensures !SpelledFlagsClash(us, others)
  {
    var free := AllRepeatable(us);
    forall i: nat, r | i < |free| && MayRecord(free[i].kind, r) ensures r.repeatable {
      assert us[i] in us;
    }
  }

  // ---------- bodies that are refused ----------

  function Drawing(tc: string): Node { Call(Path(tc), DRAW, [Path("g")]) }

  /** `let draw = tc.draw(g); let (a, b) = tc.draw(g);` */
  function UnboundAfterLet(tc: string): seq<Node> {
    [Let(Ident(DRAW), [Drawing(tc)]), Let(OtherPat("(a, b)"), [Drawing(tc)])]
  }

  /** `let key = tc.draw(g); tc.draw_named("key", g);` */
  function NamedAfterLet(tc: string): seq<Node> {
    [Let(Ident("key"), [Drawing(tc)]), Call(Path(tc), NAMED, [Str("key"), Path("g")])]
  }

  lemma {:induction false} UsesOfTwo(tc: string, a: Node, b: Node)
    ensures BodyUses(tc, [a, b]) == Uses(tc, a, TOP) + Uses(tc, b, TOP)
  {
    var top := Top([a, b]);
    UsesUnfold(tc, top, TOP);
    assert Inside(tc, top, TOP, 0) == Inside(tc, top, TOP, 1) == TOP;
    assert UsesOf(tc, top, 1, TOP) == Uses(tc, a, TOP);
    assert UsesOf(tc, top, 2, TOP) == UsesOf(tc, top, 1, TOP) + Uses(tc, b, TOP);
  }

  lemma {:induction false} UsesOfCall(tc: string, c: Node, at: Spot)
    requires c.Call? && c.receiver == Path(tc) && forall arg <- c.args :: arg.Path? || arg.Str?
    ensures Uses(tc, c, at) == OwnUse(tc, c, at)
  {
    UsesUnfold(tc, c, at);
    forall i: nat | i < |Children(c)| ensures Drawless(tc, c, at, i) {
      if i > 0 { assert Children(c)[i] == c.args[i - 1] && c.args[i - 1] in c.args; }
      UsesUnfold(tc, Children(c)[i], Inside(tc, c, at, i));
    }
    NoMoreUses(tc, c, 0, |Children(c)|, at);
  }

  lemma {:induction false} UsesOfLet(tc: string, pat: Pat)
    ensures var n := Let(pat, [Drawing(tc)]);
            Uses(tc, n, TOP) == [Use(if IdentOf(pat).Some? then LetDraw(IdentOf(pat).value, None) else Unbound, false, false)]
  {
    var n := Let(pat, [Drawing(tc)]);
    UsesUnfold(tc, n, TOP);
    UsesOfCall(tc, Drawing(tc), Inside(tc, n, TOP, 0));
    assert UsesOf(tc, n, 1, TOP) == Uses(tc, Drawing(tc), Inside(tc, n, TOP, 0));
  }

  lemma {:induction false} TwoUses(u: Use, v: Use)
    requires Plain(u) && !u.nested && !Plain(v) && CanDraw(v.kind, u.kind.name)
    ensures NonRepeatable([u] + [v], false, u.kind.name) && DrawnByOtherRoute([u] + [v], {}, u.kind.name)
  {
    var us, name := [u] + [v], u.kind.name;
    assert [u][..0] == [] && us[..1] == [u] && us[0] == u && us[1] == v;
    assert Count([u], name) == Count([], name) + 1 && Count([], name) == 0;
    assert Count(us, name) == Count([u], name);
  }

  /** A body whose first draw is the `let` of a name its second draws too has an
      execution that is refused, with no other code drawing anything. */
  lemma {:induction false} TwoRoutesClash(tc: string, source: Node -> string, stmts: seq<Node>, u: Use, v: Use)
    requires BodyUses(tc, stmts) == [u] + [v] && Plain(u) && !u.nested && !Plain(v) && CanDraw(v.kind, u.kind.name)
    ensures NonRepeatable(BodyUses(tc, stmts), false, u.kind.name)
    ensures SomeRefused(RewrittenUses(tc, stmts, false, source), {})
  {
    TwoUses(u, v);
    DrawnTwice(tc, stmts, false, source, {}, u.kind.name);
  }

  lemma {:induction false} UnboundDrawClashes(tc: string, source: Node -> string)
    ensures NonRepeatable(BodyUses(tc, UnboundAfterLet(tc)), false, DRAW)
    ensures SomeRefused(RewrittenUses(tc, UnboundAfterLet(tc), false, source), {})
  {
    var stmts := UnboundAfterLet(tc);
    UsesOfTwo(tc, stmts[0], stmts[1]);
    UsesOfLet(tc, Ident(DRAW));
    UsesOfLet(tc, OtherPat("(a, b)"));
    TwoRoutesClash(tc, source, stmts, Use(LetDraw(DRAW, None), false, false), Use(Unbound, false, false));
  }

  lemma {:induction false} NamedDrawClashes(tc: string, source: Node -> string)
    ensures NonRepeatable(BodyUses(tc, NamedAfterLet(tc)), false, "key")
    ensures SomeRefused(RewrittenUses(tc, NamedAfterLet(tc), false, source), {})
  {
    var stmts := NamedAfterLet(tc);
    UsesOfTwo(tc, stmts[0], stmts[1]);
    UsesOfLet(tc, Ident("key"));
    UsesOfCall(tc, stmts[1], TOP);
    TwoRoutesClash(tc, source, stmts, Use(LetDraw("key", None), false, false), Use(Named(Some("key")), false, false));
  }
}
