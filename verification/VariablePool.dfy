/** The engine's pool of variable ids, and how ids are drawn and chosen
    (hegel-c/src/native/core/state.rs). */
module VariablePool {
  import opened Wrappers

  // ---------- fresh ids ----------

  predicate Ascending(s: seq<int>) { forall i, j | 0 <= i < j < |s| :: s[i] < s[j] }

  /** `id` is the least natural number not in `used`. */
  predicate IsLeastUnused(used: seq<int>, id: int) {
    0 <= id && id !in used && forall k | 0 <= k < id :: k in used
  }

  method SmallestUnusedId(used: seq<int>) returns (candidate: int)
    requires Ascending(used) && forall id <- used :: 0 <= id
    ensures IsLeastUnused(used, candidate)
  {
    candidate := 0;
    var i := 0;
    while i < |used| && used[i] <= candidate
      invariant 0 <= candidate == i <= |used|
      invariant forall k | 0 <= k < i :: used[k] == k
    {
      assert used[i] in used;
      assert i > 0 ==> used[i - 1] < used[i];
      if used[i] == candidate { candidate := candidate + 1; }
      i := i + 1;
    }
    forall k | 0 <= k < candidate ensures k in used { assert used[k] == k; }
    forall j | i <= j < |used| ensures candidate < used[j] { assert i < j ==> used[i] < used[j]; }
  }

  /** The largest identifier the recorded choice for a fresh id may hold. */
  function WindowHi(used: seq<int>): (hi: int)
    ensures used == [] ==> hi == 1
    ensures Ascending(used) && used != [] ==> hi - 2 in used && forall id <- used :: id <= hi - 2
  {
    (if used == [] then -1 else used[|used| - 1]) + 2
  }

  /** Where a choice comes from: the draw may be refused, a recorded value may be
      replayed, or the choice made afresh. */
  datatype Choice = Refused | Replayed(value: int) | Simplest | Random(index: nat)

  predicate Registry(used: seq<int>) { Ascending(used) && forall id <- used :: 0 <= id }

  function Elements(s: seq<int>): set<int> { set x | x in s }

  /** `x` added to an ascending sequence. */
  function Inserted(s: seq<int>, x: int): (r: seq<int>)
    ensures forall y :: y in r <==> y in s || y == x
  {
    if s == [] || x < s[0] then [x] + s
    else if x == s[0] then s
    else [s[0]] + Inserted(s[1..], x)
  }

  lemma {:induction false} InsertedAscends(s: seq<int>, x: int)
    requires Ascending(s)
    ensures Ascending(Inserted(s, x))
  {
    if s != [] && x > s[0] {
      var rest := Inserted(s[1..], x);
      InsertedAscends(s[1..], x);
      forall i | 0 <= i < |rest| ensures s[0] < rest[i] {
        assert rest[i] in rest;
        if rest[i] in s[1..] { var k :| 0 <= k < |s[1..]| && s[1..][k] == rest[i]; assert s[0] < s[k + 1]; }
      }
    }
  }

  /** The fresh id a draw realizes, and registers: the recorded one when it is
      unused and in the window, the least unused one otherwise. */
  method DrawFreshId(used: seq<int>, choice: Choice) returns (id: Option<int>, used': seq<int>)
    requires Registry(used)
    ensures Registry(used')
    ensures id == None <==> choice == Refused
    ensures id == None ==> used' == used
    ensures id.Some? ==>
              && id.value !in used && 0 <= id.value <= WindowHi(used)
              && forall x :: x in used' <==> x in used || x == id.value
    ensures choice.Replayed? && 0 <= choice.value <= WindowHi(used) && choice.value !in used ==> id == Some(choice.value)
    ensures id.Some? && !(choice.Replayed? && id.value == choice.value) ==> IsLeastUnused(used, id.value)
  {
    if choice == Refused { return None, used; }
    var fallback := SmallestUnusedId(used);
    LeastUnusedFits(used, fallback);
    var realized := fallback;
    if choice.Replayed? && 0 <= choice.value <= WindowHi(used) && choice.value !in used {
      realized := choice.value;
    }
    InsertedAscends(used, realized);
    id, used' := Some(realized), Inserted(used, realized);
  }

  /** The window always admits the fallback, with one identifier to spare. */
  lemma {:induction false} LeastUnusedFits(used: seq<int>, id: int)
    requires Ascending(used) && (forall u <- used :: 0 <= u) && IsLeastUnused(used, id)
    ensures id < WindowHi(used)
  {
    var next := WindowHi(used) - 1;
    forall i | 0 <= i < |used| ensures 0 <= used[i] < next {
      assert used[i] in used;
      assert i < |used| - 1 ==> used[i] < used[|used| - 1];
    }
    assert next !in used;
  }

  lemma {:induction false} MembersInWindow(used: seq<int>)
    requires Registry(used)
    ensures forall id <- used :: 0 <= id < WindowHi(used)
  {
    forall i | 0 <= i < |used| ensures used[i] < WindowHi(used) {
      assert i < |used| - 1 ==> used[i] < used[|used| - 1];
    }
  }

  // ---------- choosing a member ----------

  /** The recorded value when it is a member, otherwise the largest member below
      it, otherwise the smallest member. */
  predicate Repairs(members: seq<int>, raw: int, chosen: int) {
    && chosen in members
    && (raw in members ==> chosen == raw)
    && (if exists m <- members :: m <= raw then chosen <= raw && forall m <- members | m <= raw :: m <= chosen
        else forall m <- members :: chosen <= m)
  }

  method ChooseMember(sorted: seq<int>, raw: int) returns (chosen: int)
    requires Ascending(sorted) && sorted != []
    ensures Repairs(sorted, raw, chosen)
  {
    var lo, hi := 0, |sorted|;
    while lo < hi
      invariant 0 <= lo <= hi <= |sorted|
      invariant forall i | 0 <= i < lo :: sorted[i] < raw
      invariant forall i | hi <= i < |sorted| :: raw <= sorted[i]
    {
      var mid := lo + (hi - lo) / 2;
      if sorted[mid] < raw { lo := mid + 1; } else { hi := mid; }
    }
    if lo < |sorted| && sorted[lo] == raw { return raw; }
    if lo == 0 { return sorted[0]; }
    return sorted[lo - 1];
  }

  /** The members in order, each once. */
  function Sorted(members: seq<int>): (r: seq<int>)
    ensures forall x :: x in r <==> x in members
    ensures r == [] <==> members == []
  {
    if members == [] then [] else Inserted(Sorted(members[1..]), members[0])
  }

  lemma {:induction false} SortedAscends(members: seq<int>)
    ensures Ascending(Sorted(members))
  {
    if members != [] {
      SortedAscends(members[1..]);
      InsertedAscends(Sorted(members[1..]), members[0]);
    }
  }

  /** Chooses a member: the recorded one, repaired, when the value is in the window;
      the smallest when it is not or nothing is recorded; otherwise any. */
  method DrawFromSet(members: seq<int>, windowHi: int, choice: Choice) returns (chosen: Option<int>)
    requires members != [] && forall m <- members :: 0 <= m <= windowHi
    ensures chosen == None <==> choice == Refused
    ensures chosen.Some? ==> chosen.value in members
    ensures choice.Replayed? && 0 <= choice.value <= windowHi ==> chosen.Some? && Repairs(members, choice.value, chosen.value)
    ensures choice == Simplest || (choice.Replayed? && !(0 <= choice.value <= windowHi)) ==>
              chosen.Some? && forall m <- members :: chosen.value <= m
  {
    if choice == Refused { return None; }
    var sorted := Sorted(members);
    SortedAscends(members);
    var raw :=
      if choice.Random? then sorted[choice.index % |sorted|]
      else if choice.Replayed? && 0 <= choice.value <= windowHi then choice.value
      else sorted[0];
    var member := ChooseMember(sorted, raw);
    chosen := Some(member);
  }

  // ---------- the pool ----------

  predicate Distinct(s: seq<int>) { forall i, j | 0 <= i < j < |s| :: s[i] != s[j] }

  /** The ids of `s` outside `gone`, in order. */
  function Keep(s: seq<int>, gone: set<int>): seq<int> {
    if s == [] then []
    else Keep(s[..|s| - 1], gone) + (if s[|s| - 1] in gone then [] else [s[|s| - 1]])
  }

  lemma {:induction false} KeepMembers(s: seq<int>, gone: set<int>)
    ensures forall x :: x in Keep(s, gone) <==> x in s && x !in gone
  {
    if s != [] {
      KeepMembers(s[..|s| - 1], gone);
      assert s == s[..|s| - 1] + [s[|s| - 1]];
    }
  }

  lemma {:induction false} KeepElements(s: seq<int>, id: int)
    ensures Elements(Keep(s, {id})) == Elements(s) - {id}
  {
    KeepMembers(s, {id});
    var kept, less := Elements(Keep(s, {id})), Elements(s) - {id};
    forall x: int ensures x in kept <==> x in less {}
    assert kept <= less && less <= kept;
  }

  lemma {:induction false} KeepLess(s: seq<int>, gone: set<int>, more: set<int>)
    ensures Keep(Keep(s, gone), more) == Keep(s, gone + more)
  {
    if s != [] {
      var last := s[|s| - 1];
      KeepLess(s[..|s| - 1], gone, more);
      var init := Keep(s[..|s| - 1], gone);
      if last !in gone {
        assert Keep(s, gone) == init + [last];
        assert (init + [last])[..|init|] == init;
      } else {
        assert Keep(s, gone) == init;
      }
    }
  }

  lemma {:induction false} KeepIgnores(s: seq<int>, gone: set<int>, x: int)
    requires x !in s
    ensures Keep(s, gone - {x}) == Keep(s, gone)
  {
    if s != [] {
      assert s == s[..|s| - 1] + [s[|s| - 1]];
      KeepIgnores(s[..|s| - 1], gone, x);
    }
  }

  /** What drawing from a pool answers. */
  datatype Generated = Id(id: int) | Empty | OutOfData

  class Pool {
    var variables: seq<int>
    var removed: set<int>

    predicate Valid() reads this {
      && Distinct(variables)
      && (forall id <- removed :: id in variables)
      && (variables != [] ==> variables[|variables| - 1] !in removed)
    }

    ghost function Contents(): seq<int> reads this { Keep(variables, removed) }

    ghost function Live(): set<int> reads this { Elements(Contents()) }

    constructor ()
      ensures Valid() && Contents() == []
    {
      variables, removed := [], {};
    }

    method Add(id: int)
      requires Valid() && id !in variables
      modifies this
      ensures Valid() && Contents() == old(Contents()) + [id] && variables == old(variables) + [id]
      ensures Live() == old(Live()) + {id}
    {
      variables := variables + [id];
      assert variables[..|variables| - 1] == old(variables);
    }

    method Active() returns (active: seq<int>)
      ensures active == Contents()
    {
      active := [];
      for i := 0 to |variables|
        invariant active == Keep(variables[..i], removed)
      {
        assert variables[..i + 1][..i] == variables[..i];
        if variables[i] !in removed { active := active + [variables[i]]; }
      }
      assert variables[..|variables|] == variables;
    }

    /** Marks `id` consumed and drops the consumed ids at the end. */
    method Consume(id: int)
      requires Valid() && id in Contents()
      modifies this
      ensures Valid() && Contents() == Keep(old(Contents()), {id})
      ensures Live() == old(Live()) - {id}
      ensures variables <= old(variables)
    {
      KeepElements(Contents(), id);
      KeepMembers(variables, removed);
      KeepLess(variables, removed, {id});
      removed := removed + {id};
      TrimConsumed();
    }

    method TrimConsumed()
      requires Distinct(variables) && forall x <- removed :: x in variables
      modifies this
      ensures Valid() && Contents() == old(Contents()) && variables <= old(variables)
    {
      while variables != [] && variables[|variables| - 1] in removed
        invariant Distinct(variables) && forall x <- removed :: x in variables
        invariant Contents() == old(Contents()) && variables <= old(variables)
        decreases |variables|
      {
        DropLast(variables, removed);
        variables, removed := variables[..|variables| - 1], removed - {variables[|variables| - 1]};
      }
    }

    /** Draws a member, and consumes it on request: from an empty pool the draw is
        rejected, and a refused choice changes nothing. */
    method Generate(windowHi: int, choice: Choice, consume: bool) returns (r: Generated)
      requires Valid() && forall id <- Contents() :: 0 <= id <= windowHi
      modifies this
      ensures Valid()
      ensures r == Empty <==> old(Contents()) == []
      ensures r == OutOfData <==> old(Contents()) != [] && choice == Refused
      ensures r.Id? ==> r.id in old(Contents())
      ensures old(Contents()) != [] && choice.Replayed? && 0 <= choice.value <= windowHi ==>
                r.Id? && Repairs(old(Contents()), choice.value, r.id)
      ensures old(Contents()) != [] && (choice == Simplest || (choice.Replayed? && !(0 <= choice.value <= windowHi))) ==>
                r.Id? && forall m <- old(Contents()) :: r.id <= m
      ensures Contents() == if r.Id? && consume then Keep(old(Contents()), {r.id}) else old(Contents())
      ensures Live() == if r.Id? && consume then old(Live()) - {r.id} else old(Live())
      ensures variables <= old(variables)
    {
      var active := Active();
      if active == [] { return Empty; }
      var chosen := DrawFromSet(active, windowHi, choice);
      if chosen == None { return OutOfData; }
      if consume { Consume(chosen.value); }
      r := Id(chosen.value);
    }
  }

  /** Forgetting a consumed id at the end changes nothing. */
  lemma {:induction false} DropLast(s: seq<int>, gone: set<int>)
    requires Distinct(s) && s != [] && s[|s| - 1] in gone && forall x <- gone :: x in s
    ensures var front, less := s[..|s| - 1], gone - {s[|s| - 1]};
            Keep(front, less) == Keep(s, gone) && Distinct(front) && forall x <- less :: x in front
  {
    var last, front := s[|s| - 1], s[..|s| - 1];
    assert s == front + [last];
    KeepIgnores(front, gone, last);
  }

  /** A pool whose ids are all consumed holds no memory of them. */
  lemma {:induction false} EmptyPoolsAreSmall(p: Pool)
    requires p.Valid()
    ensures p.Contents() == [] <==> p.variables == []
    ensures p.variables == [] ==> p.removed == {}
  {
    KeepMembers(p.variables, p.removed);
    if p.variables != [] { assert p.variables[|p.variables| - 1] in p.Contents(); }
    assert forall id :: id in p.removed ==> id in p.variables;
  }
}
