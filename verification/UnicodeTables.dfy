/** The generated Unicode tables: categories collapsed into runs and looked up by
    run end, and decomposition chains resolved to their base
    (scripts/generate_unicodedata_tables.py, hegel-c/src/unicodedata/mod.rs).
    Ranges are listed as section 4.2.3 of UAX #44 has it, decompositions as
    section 5.7.3. */
module UnicodeTables {
  import opened Wrappers

  type Category = string

  const UNASSIGNED: Category := "Cn"

  function CategoryOf(entries: map<nat, Category>, cp: nat): Category {
    if cp in entries then entries[cp] else UNASSIGNED
  }

  // ---------- runs ----------

  datatype Run = Run(start: nat, end: nat, category: Category)

  /** Contiguous runs from 0 to `max`, each of one category and adjacent ones of
      different categories. */
  predicate Tiles(runs: seq<Run>, entries: map<nat, Category>, max: nat) {
    && runs != [] && runs[0].start == 0 && runs[|runs| - 1].end == max
    && (forall i | 0 <= i < |runs| - 1 :: runs[i + 1].start == runs[i].end + 1 && runs[i + 1].category != runs[i].category)
    && forall i | 0 <= i < |runs| :: Uniform(runs[i], entries)
  }

  predicate Uniform(run: Run, entries: map<nat, Category>) {
    run.start <= run.end && forall cp | run.start <= cp <= run.end :: CategoryOf(entries, cp) == run.category
  }

  method BuildRanges(entries: map<nat, Category>, max: nat) returns (runs: seq<Run>)
    ensures Tiles(runs, entries, max)
  {
    runs := [];
    var current: Option<Category> := None;
    var start := 0;
    for cp := 0 to max + 1
      invariant current == None <==> cp == 0
      invariant current == None ==> runs == []
      invariant current.Some? ==> start < cp && Grows(runs, Run(start, cp - 1, current.value), entries)
    {
      var category := CategoryOf(entries, cp);
      if current != Some(category) {
        if current.Some? {
          RunCloses(runs, Run(start, cp - 1, current.value), entries);
          runs := runs + [Run(start, cp - 1, current.value)];
        }
        current, start := Some(category), cp;
      }
    }
    RunCloses(runs, Run(start, max, current.value), entries);
    runs := runs + [Run(start, max, current.value)];
  }

  /** A run that may still grow, after the runs before it. */
  predicate Grows(runs: seq<Run>, run: Run, entries: map<nat, Category>) {
    && Uniform(run, entries)
    && run.start == (if runs == [] then 0 else runs[|runs| - 1].end + 1)
    && (runs != [] ==> Tiles(runs, entries, run.start - 1) && runs[|runs| - 1].category != run.category)
  }

  lemma {:induction false} RunCloses(runs: seq<Run>, run: Run, entries: map<nat, Category>)
    requires Grows(runs, run, entries)
    ensures Tiles(runs + [run], entries, run.end)
  {
    var more := runs + [run];
    forall i | 0 <= i < |more| ensures Uniform(more[i], entries) { assert i < |runs| ==> more[i] == runs[i]; }
  }

  /** There is only one such tiling. */
  lemma {:induction false} TilingIsUnique(a: seq<Run>, b: seq<Run>, entries: map<nat, Category>, max: nat)
    requires Tiles(a, entries, max) && Tiles(b, entries, max)
    ensures a == b
  {
    SameRuns(a, b, entries, max, |a|);
    SameRuns(b, a, entries, max, |b|);
  }

  lemma {:induction false} SameRuns(a: seq<Run>, b: seq<Run>, entries: map<nat, Category>, max: nat, k: nat)
    requires Tiles(a, entries, max) && Tiles(b, entries, max) && k <= |a|
    ensures k <= |b| && forall i | 0 <= i < k :: a[i] == b[i]
  {
    if k > 0 {
      SameRuns(a, b, entries, max, k - 1);
      RunsFit(a, entries, max, k - 1);
      if k == 1 {
        SameRun(a, b, entries, max, 0);
      } else {
        RunsFit(b, entries, max, k - 2);
        assert a[k - 2] == b[k - 2];
        SameRun(a, b, entries, max, k - 1);
      }
    }
  }

  /** Ends increase up to `max`. */
  lemma {:induction false} RunsFit(runs: seq<Run>, entries: map<nat, Category>, max: nat, i: nat)
    requires Tiles(runs, entries, max) && i < |runs|
    ensures runs[i].end <= max && (runs[i].end == max <==> i == |runs| - 1)
    decreases |runs| - i
  {
    if i < |runs| - 1 {
      RunsFit(runs, entries, max, i + 1);
      assert Uniform(runs[i + 1], entries);
    }
  }

  lemma {:induction false} SameRun(a: seq<Run>, b: seq<Run>, entries: map<nat, Category>, max: nat, i: nat)
    requires Tiles(a, entries, max) && Tiles(b, entries, max)
    requires i < |a| && i < |b| && a[i].start == b[i].start
    ensures a[i] == b[i]
  {
    assert Uniform(a[i], entries) && Uniform(b[i], entries);
    assert CategoryOf(entries, a[i].start) == a[i].category == b[i].category;
    NoLonger(a, b, entries, max, i);
    NoLonger(b, a, entries, max, i);
  }

  lemma {:induction false} NoLonger(a: seq<Run>, b: seq<Run>, entries: map<nat, Category>, max: nat, i: nat)
    requires Tiles(a, entries, max) && Tiles(b, entries, max)
    requires i < |a| && i < |b| && a[i].start == b[i].start && a[i].category == b[i].category
    ensures a[i].end <= b[i].end
  {
    RunsFit(a, entries, max, i);
    RunsFit(b, entries, max, i);
    if i < |b| - 1 {
      assert Uniform(b[i + 1], entries) && Uniform(a[i], entries) && Uniform(b[i], entries);
      assert CategoryOf(entries, b[i].end + 1) == b[i + 1].category != a[i].category;
    }
  }

  // ---------- looking up ----------

  /** A line of the emitted table. */
  datatype Row = Row(end: nat, category: Category)

  function Table(runs: seq<Run>): seq<Row> {
    seq(|runs|, i requires 0 <= i < |runs| => Row(runs[i].end, runs[i].category))
  }

  /** The category at the first end that is not below `cp`. */
  method CategoryLookup(table: seq<Row>, cp: nat) returns (category: Category)
    requires forall i, j | 0 <= i < j < |table| :: table[i].end < table[j].end
    requires table != [] && cp <= table[|table| - 1].end
    ensures exists i :: 0 <= i < |table| && cp <= table[i].end && category == table[i].category
                        && forall j | 0 <= j < i :: table[j].end < cp
  {
    var lo, hi := 0, |table|;
    while lo < hi
      invariant 0 <= lo <= hi <= |table|
      invariant forall i | 0 <= i < lo :: table[i].end < cp
      invariant forall i | hi <= i < |table| :: cp <= table[i].end
    {
      var mid := lo + (hi - lo) / 2;
      if table[mid].end < cp { lo := mid + 1; } else { hi := mid; }
    }
    category := table[lo].category;
  }

  lemma {:induction false} EndsIncrease(runs: seq<Run>, entries: map<nat, Category>, max: nat, i: nat, j: nat)
    requires Tiles(runs, entries, max) && i < j < |runs|
    ensures runs[i].end < runs[j].start <= runs[j].end
  {
    assert Uniform(runs[j], entries);
    if i < j - 1 { EndsIncrease(runs, entries, max, i, j - 1); }
  }

  /** The run whose end is the first not below `cp` holds `cp`. */
  lemma {:induction false} FirstEndHolds(runs: seq<Run>, entries: map<nat, Category>, max: nat, cp: nat, i: nat)
    requires Tiles(runs, entries, max) && i < |runs| && cp <= runs[i].end
    requires forall j | 0 <= j < i :: runs[j].end < cp
    ensures runs[i].category == CategoryOf(entries, cp)
  {
    assert Uniform(runs[i], entries);
    if i > 0 { assert runs[i - 1].end < cp; }
  }

  /** Building the table and looking a codepoint up in it gives the codepoint's
      category, for every codepoint up to the bound. */
  method BuildAndLookup(entries: map<nat, Category>, max: nat, cp: nat) returns (category: Category)
    requires cp <= max
    ensures category == if cp in entries then entries[cp] else "Cn"
  {
    var runs := BuildRanges(entries, max);
    forall i, j | 0 <= i < j < |runs| ensures runs[i].end < runs[j].end { EndsIncrease(runs, entries, max, i, j); }
    category := CategoryLookup(Table(runs), cp);
    ghost var i :| 0 <= i < |runs| && cp <= runs[i].end && category == runs[i].category
                   && forall j | 0 <= j < i :: Table(runs)[j].end < cp;
    assert forall j | 0 <= j < i :: runs[j].end == Table(runs)[j].end;
    FirstEndHolds(runs, entries, max, cp, i);
  }

  // ---------- decomposition chains ----------

  type Mapping = map<nat, nat>

  /** Following `immediate` from `c` for `k` steps leads to `d`. */
  predicate Leads(immediate: Mapping, c: nat, k: nat, d: nat)
    decreases k
  {
    if k == 0 then c == d else c in immediate && Leads(immediate, immediate[c], k - 1, d)
  }

  ghost predicate OnCycle(immediate: Mapping, c: nat) { exists k: nat :: k > 0 && Leads(immediate, c, k, c) }

  /** Where the walk stops: at a codepoint with no decomposition, or at the first
      one met before. */
  function Chase(immediate: Mapping, current: nat, seen: set<nat>): nat
    decreases immediate.Keys - seen
  {
    if current in immediate && current !in seen then Chase(immediate, immediate[current], seen + {current}) else current
  }

  method ResolveOne(immediate: Mapping, cp: nat) returns (current: nat)
    ensures current == Chase(immediate, cp, {})
  {
    var seen: set<nat> := {};
    current := cp;
    while current in immediate && current !in seen
      invariant Chase(immediate, cp, {}) == Chase(immediate, current, seen)
      decreases immediate.Keys - seen
    {
      seen := seen + {current};
      current := immediate[current];
    }
  }

  method ResolveAll(immediate: Mapping) returns (recursive: Mapping)
    ensures recursive.Keys == set cp <- immediate.Keys | Chase(immediate, cp, {}) != cp
    ensures forall cp <- recursive.Keys :: recursive[cp] == Chase(immediate, cp, {})
  {
    recursive := map[];
    var left := immediate.Keys;
    while left != {}
      invariant left <= immediate.Keys
      invariant recursive.Keys == set cp <- immediate.Keys - left | Chase(immediate, cp, {}) != cp
      invariant forall cp <- recursive.Keys :: recursive[cp] == Chase(immediate, cp, {})
      decreases left
    {
      var cp :| cp in left;
      var current := ResolveOne(immediate, cp);
      if current != cp { recursive := recursive[cp := current]; }
      left := left - {cp};
    }
  }

  lemma {:induction false} LeadsOn(immediate: Mapping, c: nat, j: nat, d: nat, k: nat, e: nat)
    requires Leads(immediate, c, j, d)
    ensures Leads(immediate, d, k, e) <==> Leads(immediate, c, j + k, e)
    decreases j
  {
    if j > 0 { LeadsOn(immediate, immediate[c], j - 1, d, k, e); }
  }

  lemma {:induction false} LeadsOnce(immediate: Mapping, c: nat, k: nat, d: nat, e: nat)
    requires Leads(immediate, c, k, d) && Leads(immediate, c, k, e)
    ensures d == e
    decreases k
  {
    if k > 0 { LeadsOnce(immediate, immediate[c], k - 1, d, e); }
  }

  ghost predicate Reaches(immediate: Mapping, c: nat, d: nat) { exists k: nat :: Leads(immediate, c, k, d) }

  /** Every codepoint met so far leads to the current one in at least one step. */
  ghost predicate Trail(immediate: Mapping, seen: set<nat>, current: nat) {
    forall s <- seen :: s in immediate && exists k: nat :: k > 0 && Leads(immediate, s, k, current)
  }

  lemma {:induction false} ChaseMeans(immediate: Mapping, current: nat, seen: set<nat>)
    requires Trail(immediate, seen, current)
    ensures var r := Chase(immediate, current, seen);
            Reaches(immediate, current, r) && (r in immediate ==> OnCycle(immediate, r))
    decreases immediate.Keys - seen
  {
    if current in immediate && current !in seen {
      var next := immediate[current];
      forall s | s in seen + {current} ensures s in immediate && exists k: nat :: k > 0 && Leads(immediate, s, k, next) {
        assert Leads(immediate, current, 1, next) by { assert Leads(immediate, next, 0, next); }
        if s != current {
          var k: nat :| k > 0 && Leads(immediate, s, k, current);
          LeadsOn(immediate, s, k, current, 1, next);
          assert Leads(immediate, s, k + 1, next);
        }
      }
      ChaseMeans(immediate, next, seen + {current});
      var r := Chase(immediate, next, seen + {current});
      var k: nat :| Leads(immediate, next, k, r);
      assert Leads(immediate, current, k + 1, r);
    } else {
      assert Leads(immediate, current, 0, current);
    }
  }

  /** Nothing on a cycle leads to a codepoint without a decomposition. */
  lemma {:induction false} CyclesNeverEnd(immediate: Mapping, c: nat, k: nat, e: nat)
    requires OnCycle(immediate, c) && Leads(immediate, c, k, e)
    ensures e in immediate && OnCycle(immediate, e)
    decreases k
  {
    if k > 0 {
      NextOnCycle(immediate, c);
      CyclesNeverEnd(immediate, immediate[c], k - 1, e);
    }
  }

  lemma {:induction false} NextOnCycle(immediate: Mapping, c: nat)
    requires OnCycle(immediate, c)
    ensures c in immediate && OnCycle(immediate, immediate[c])
  {
    var m: nat :| m > 0 && Leads(immediate, c, m, c);
    var next := immediate[c];
    assert Leads(immediate, next, 0, next);
    assert Leads(immediate, c, 1, next);
    LeadsOn(immediate, next, m - 1, c, 1, next);
    assert Leads(immediate, next, m, next);
  }

  /** The walk stops at a codepoint with no decomposition exactly when the chain
      has one, which is then the only one it has. */
  lemma {:induction false} ChainsResolveToTheirEnd(immediate: Mapping, cp: nat, e: nat)
    requires Reaches(immediate, cp, e) && e !in immediate
    ensures Chase(immediate, cp, {}) == e
  {
    ChaseMeans(immediate, cp, {});
    var r := Chase(immediate, cp, {});
    var j: nat :| Leads(immediate, cp, j, r);
    var k: nat :| Leads(immediate, cp, k, e);
    if j <= k {
      LeadsOn(immediate, cp, j, r, k - j, e);
      if r in immediate { CyclesNeverEnd(immediate, r, k - j, e); }
    } else {
      LeadsOn(immediate, cp, k, e, j - k, r);
    }
  }

  // ---------- which codepoints get an entry ----------

  lemma {:induction false} AroundAgain(immediate: Mapping, c: nat, m: nat, times: nat)
    requires Leads(immediate, c, m, c)
    ensures Leads(immediate, c, m * times, c)
  {
    if times > 0 {
      AroundAgain(immediate, c, m, times - 1);
      LeadsOn(immediate, c, m * (times - 1), c, m, c);
      assert m * (times - 1) + m == m * times;
    }
  }

  /** On a cycle a codepoint has one predecessor. */
  lemma {:induction false} OnePredecessor(immediate: Mapping, x: nat, y: nat)
    requires OnCycle(immediate, x) && OnCycle(immediate, y) && x in immediate && y in immediate
    requires immediate[x] == immediate[y]
    ensures x == y
  {
    var p: nat :| p > 0 && Leads(immediate, x, p, x);
    var q: nat :| q > 0 && Leads(immediate, y, q, y);
    AroundAgain(immediate, x, p, q);
    AroundAgain(immediate, y, q, p);
    assert p * q == q * p && p * q > 0 by { Positive(p, q); }
    LeadsOnce(immediate, immediate[x], p * q - 1, x, y);
  }

  lemma {:induction false} Positive(p: nat, q: nat)
    requires p > 0 && q > 0
    ensures p * q == q * p > 0
  {}

  /** Every codepoint met, other than the first, has a predecessor among those met
      before. */
  ghost predicate Linked(immediate: Mapping, cp: nat, seen: set<nat>, current: nat) {
    && (forall s | s in seen || s == current :: OnCycle(immediate, s))
    && (forall s | (s in seen || s == current) && s != cp :: exists t :: t in seen && t in immediate && immediate[t] == s)
  }

  lemma {:induction false} CyclesReturn(immediate: Mapping, cp: nat, current: nat, seen: set<nat>)
    requires Linked(immediate, cp, seen, current)
    requires current !in seen
    ensures Chase(immediate, current, seen) == cp
    decreases immediate.Keys - seen
  {
    NextOnCycle(immediate, current);
    var next, met := immediate[current], seen + {current};
    if next in met {
      if next != cp {
        var t :| t in seen && t in immediate && immediate[t] == next;
        OnePredecessor(immediate, t, current);
        assert false;
      }
    } else {
      assert Linked(immediate, cp, met, next) by {
        assert current in met && immediate[current] == next;
        forall s | (s in met || s == next) && s != cp ensures exists t :: t in met && t in immediate && immediate[t] == s {
          if s != next {
            var t :| t in seen && t in immediate && immediate[t] == s;
            assert t in met;
          }
        }
      }
      CyclesReturn(immediate, cp, next, met);
    }
  }

  /** A codepoint gets an entry exactly when it decomposes and its chain does not
      come back to it. */
  lemma {:induction false} EntryUnlessOnCycle(immediate: Mapping, cp: nat)
    ensures cp in immediate && Chase(immediate, cp, {}) != cp <==> cp in immediate && !OnCycle(immediate, cp)
  {
    if OnCycle(immediate, cp) {
      CyclesReturn(immediate, cp, cp, {});
    } else if cp in immediate && Chase(immediate, cp, {}) == cp {
      ChaseMeans(immediate, cp, {});
    }
  }

  /** When no chain comes back on itself, every decomposable codepoint gets an
      entry, which is its chain's end. */
  lemma {:induction false} AcyclicChainsResolve(immediate: Mapping, cp: nat)
    requires cp in immediate && forall c :: c in immediate ==> !OnCycle(immediate, c)
    ensures var r := Chase(immediate, cp, {});
            r != cp && r !in immediate && Reaches(immediate, cp, r)
  {
    ChaseMeans(immediate, cp, {});
  }
}
