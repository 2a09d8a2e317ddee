/** Merging coverage reports, and reading the uncovered lines off the result
    (scripts/check-coverage.py). */
module LcovMerge {
  import opened Wrappers

  /** A line of a report: a source file, an execution count, the end of a record,
      or anything else. */
  datatype Line = SF(source: string) | DA(line: int, count: int) | EndOfRecord | Other

  /** One count attributed to the source file its record names. */
  datatype Hit = Hit(source: string, line: int, count: int)

  function CurrentAfter(lines: seq<Line>): Option<string> {
    if lines == [] then None
    else
      match lines[|lines| - 1]
      case SF(source) => Some(source)
      case EndOfRecord => None
      case _ => CurrentAfter(lines[..|lines| - 1])
  }

  /** The counts of a report; those outside a record belong to nothing. */
  function Hits(lines: seq<Line>): seq<Hit> {
    if lines == [] then []
    else
      var init, last := lines[..|lines| - 1], lines[|lines| - 1];
      Hits(init) + (if last.DA? && CurrentAfter(init).Some? then [Hit(CurrentAfter(init).value, last.line, last.count)] else [])
  }

  /** Line `i` names the source that is current at line `j`. */
  predicate Names(lines: seq<Line>, i: nat, j: nat, source: string) {
    && i < j <= |lines| && lines[i] == SF(source)
    && forall k | i < k < j :: lines[k].DA? || lines[k].Other?
  }

  lemma {:induction false} CurrentMeans(lines: seq<Line>, source: string)
    ensures CurrentAfter(lines) == Some(source) <==> exists i: nat :: Names(lines, i, |lines|, source)
  {
    if lines != [] {
      var n := |lines| - 1;
      var init, last := lines[..n], lines[n];
      CurrentMeans(init, source);
      if CurrentAfter(lines) == Some(source) {
        if last.SF? {
          assert Names(lines, n, n + 1, source);
        } else {
          var i: nat :| Names(init, i, n, source);
          assert Names(lines, i, n + 1, source);
        }
      }
      forall i: nat | Names(lines, i, |lines|, source) ensures CurrentAfter(lines) == Some(source) {
        if i < n { assert Names(init, i, n, source); }
      }
    }
  }

  /** Line `j` is a count in a record that line `i` opens. */
  predicate CountsIn(lines: seq<Line>, i: nat, j: nat, h: Hit) {
    j < |lines| && lines[j] == DA(h.line, h.count) && Names(lines, i, j, h.source)
  }

  lemma {:induction false} SamePrefix(lines: seq<Line>, n: nat, i: nat, j: nat, h: Hit)
    requires j <= n <= |lines|
    ensures Names(lines[..n], i, j, h.source) <==> Names(lines, i, j, h.source)
    ensures j < n ==> (CountsIn(lines[..n], i, j, h) <==> CountsIn(lines, i, j, h))
  {}

  /** A count belongs to the source named last before it in its record, whatever
      other lines stand between. */
  lemma {:induction false} HitsMean(lines: seq<Line>, h: Hit)
    ensures h in Hits(lines) <==> exists i: nat, j: nat :: CountsIn(lines, i, j, h)
  {
    if lines != [] {
      var n := |lines| - 1;
      HitsMean(lines[..n], h);
      CurrentMeans(lines[..n], h.source);
      if h in Hits(lines) { HitIsCounted(lines, n, h); }
      forall i: nat, j: nat | CountsIn(lines, i, j, h) ensures h in Hits(lines) {
        SamePrefix(lines, n, i, j, h);
        if j < n { assert CountsIn(lines[..n], i, j, h); }
      }
    }
  }

  lemma {:induction false} HitIsCounted(lines: seq<Line>, n: nat, h: Hit)
    requires |lines| == n + 1 && h in Hits(lines)
    requires h in Hits(lines[..n]) ==> exists i: nat, j: nat :: CountsIn(lines[..n], i, j, h)
    ensures exists i: nat, j: nat :: CountsIn(lines, i, j, h)
  {
    if h in Hits(lines[..n]) {
      var i: nat, j: nat :| CountsIn(lines[..n], i, j, h);
      SamePrefix(lines, n, i, j, h);
    } else {
      CurrentMeans(lines[..n], h.source);
      var i: nat :| Names(lines[..n], i, n, h.source);
      SamePrefix(lines, n, i, n, h);
      assert CountsIn(lines, i, n, h);
    }
  }

  function AllHits(reports: seq<seq<Line>>): seq<Hit> {
    if reports == [] then [] else AllHits(reports[..|reports| - 1]) + Hits(reports[|reports| - 1])
  }

  // ---------- merging ----------

  /** The greatest of a line's counts, and of zero; `None` if it has none. */
  function Best(hits: seq<Hit>, source: string, line: int): Option<int> {
    if hits == [] then None
    else
      var before, h := Best(hits[..|hits| - 1], source, line), hits[|hits| - 1];
      if h.source != source || h.line != line then before
      else Some(Max(if before == None then 0 else before.value, h.count))
  }

  type Counts = map<string, map<int, int>>

  function Lookup(counts: Counts, source: string, line: int): Option<int> {
    if source in counts && line in counts[source] then Some(counts[source][line]) else None
  }

  /** `counts` holds the best count of every line, and no source without one. */
  ghost predicate Merges(counts: Counts, hits: seq<Hit>) {
    && (forall s, l :: Lookup(counts, s, l) == Best(hits, s, l))
    && (forall s <- counts :: counts[s] != map[])
  }

  method MergeCounts(reports: seq<seq<Line>>) returns (counts: Counts)
    ensures Merges(counts, AllHits(reports))
  {
    counts := map[];
    for r := 0 to |reports|
      invariant Merges(counts, AllHits(reports[..r]))
    {
      counts := MergeReport(counts, AllHits(reports[..r]), reports[r]);
      assert reports[..r + 1][..r] == reports[..r];
    }
    assert reports[..|reports|] == reports;
  }

  method MergeReport(counts: Counts, ghost before: seq<Hit>, lines: seq<Line>) returns (merged: Counts)
    requires Merges(counts, before)
    ensures Merges(merged, before + Hits(lines))
  {
    merged := counts;
    var current: Option<string> := None;
    assert before + [] == before;
    for i := 0 to |lines|
      invariant current == CurrentAfter(lines[..i])
      invariant Merges(merged, before + Hits(lines[..i]))
    {
      assert lines[..i + 1][..i] == lines[..i];
      ghost var hits := before + Hits(lines[..i]);
      match lines[i] {
        case SF(source) => current := Some(source);
        case EndOfRecord => current := None;
        case DA(line, count) =>
          if current.Some? {
            merged := AddHit(merged, hits, current.value, line, count);
            assert before + Hits(lines[..i + 1]) == hits + [Hit(current.value, line, count)];
          }
        case Other =>
      }
      assert !lines[i].DA? || CurrentAfter(lines[..i]) == None ==> Hits(lines[..i + 1]) == Hits(lines[..i]);
    }
    assert lines[..|lines|] == lines;
  }

  method AddHit(counts: Counts, ghost hits: seq<Hit>, source: string, line: int, count: int) returns (merged: Counts)
    requires Merges(counts, hits)
    ensures Merges(merged, hits + [Hit(source, line, count)])
  {
    var lines := if source in counts then counts[source] else map[];
    var previous := if line in lines then lines[line] else 0;
    merged := counts[source := lines[line := Max(previous, count)]];
    ghost var more := hits + [Hit(source, line, count)];
    assert more[..|more| - 1] == hits;
    assert Lookup(counts, source, line) == Best(hits, source, line);
    forall s, l ensures Lookup(merged, s, l) == Best(more, s, l) {
      assert Lookup(counts, s, l) == Best(hits, s, l);
    }
  }

  predicate OncePerLine(hits: seq<Hit>) {
    forall i, j | 0 <= i < j < |hits| :: hits[i].source != hits[j].source || hits[i].line != hits[j].line
  }

  method Pick(s: set<int>) returns (x: int)
    requires s != {}
    ensures x in s
  {
    SomeMember(s);
    x :| x in s;
  }

  lemma {:induction false} SomeMember(s: set<int>)
    ensures s != {} ==> exists y :: y in s
  {
    if forall y: int :: y !in s { assert s == {}; }
  }

  /** The merged report: one record for each source, one count for each line. */
  method Emit(counts: Counts) returns (lines: seq<Line>)
    ensures forall h :: h in Hits(lines) <==> Lookup(counts, h.source, h.line) == Some(h.count)
    ensures OncePerLine(Hits(lines))
  {
    lines := [];
    var sources := counts.Keys;
    while sources != {}
      invariant sources <= counts.Keys
      invariant CurrentAfter(lines) == None
      invariant forall h :: h in Hits(lines) <==> h.source !in sources && Lookup(counts, h.source, h.line) == Some(h.count)
      invariant OncePerLine(Hits(lines))
      decreases sources
    {
      var source :| source in sources;
      lines := EmitRecord(lines, source, counts[source]);
      sources := sources - {source};
    }
  }

  method EmitRecord(before: seq<Line>, source: string, counts: map<int, int>) returns (lines: seq<Line>)
    requires CurrentAfter(before) == None
    requires forall h <- Hits(before) :: h.source != source
    requires OncePerLine(Hits(before))
    ensures CurrentAfter(lines) == None
    ensures forall h :: h in Hits(lines) <==>
              h in Hits(before) || (h.source == source && h.line in counts && h.count == counts[h.line])
    ensures OncePerLine(Hits(lines))
  {
    lines := before + [Other, SF(source)];
    assert lines[..|lines| - 1] == before + [Other] && (before + [Other])[..|before|] == before;
    var left := counts.Keys;
    while left != {}
      invariant left <= counts.Keys
      invariant CurrentAfter(lines) == Some(source)
      invariant forall h :: h in Hits(lines) <==>
                  h in Hits(before) || (h.source == source && h.line in counts && h.line !in left && h.count == counts[h.line])
      invariant OncePerLine(Hits(lines))
      decreases left
    {
      var line := Pick(left);
      ghost var was := lines;
      lines := lines + [DA(line, counts[line])];
      assert lines[..|lines| - 1] == was;
      left := left - {line};
    }
    ghost var was := lines;
    lines := lines + [EndOfRecord];
    assert lines[..|lines| - 1] == was;
  }

  // ---------- reading a report ----------

  /** A line of a file, as the reader names files. */
  datatype Place<P> = Place(path: P, line: int)

  /** The reader takes only unsigned numbers. */
  predicate Readable(h: Hit) { 0 <= h.line && 0 <= h.count }

  predicate Uncovered<P(==)>(hits: seq<Hit>, spell: string -> P, at: Place<P>) {
    exists h <- hits :: Readable(h) && spell(h.source) == at.path && h.line == at.line && h.count == 0
  }

  predicate Covered<P(==)>(hits: seq<Hit>, spell: string -> P, at: Place<P>) {
    exists h <- hits :: Readable(h) && spell(h.source) == at.path && h.line == at.line && h.count != 0
  }

  /** `spell` turns the name in a record into a path, which different names may
      share. */
  method ParseLcov<P(==,!new)>(lines: seq<Line>, spell: string -> P) returns (uncovered: seq<Place<P>>, covered: set<Place<P>>)
    ensures forall at :: at in uncovered <==> Uncovered(Hits(lines), spell, at)
    ensures forall at :: at in covered <==> Covered(Hits(lines), spell, at)
  {
    uncovered, covered := [], {};
    var current: Option<string> := None;
    for i := 0 to |lines|
      invariant current == CurrentAfter(lines[..i])
      invariant forall at :: at in uncovered <==> Uncovered(Hits(lines[..i]), spell, at)
      invariant forall at :: at in covered <==> Covered(Hits(lines[..i]), spell, at)
    {
      assert lines[..i + 1][..i] == lines[..i];
      match lines[i] {
        case SF(source) => current := Some(source);
        case EndOfRecord => current := None;
        case DA(line, count) =>
          if current.Some? {
            var h := Hit(current.value, line, count);
            assert Hits(lines[..i + 1]) == Hits(lines[..i]) + [h];
            if Readable(h) {
              if count == 0 {
                uncovered := uncovered + [Place(spell(h.source), line)];
              } else {
                covered := covered + {Place(spell(h.source), line)};
              }
            }
          }
        case Other =>
      }
      assert !lines[i].DA? || CurrentAfter(lines[..i]) == None ==> Hits(lines[..i + 1]) == Hits(lines[..i]);
    }
    assert lines[..|lines|] == lines;
  }

  // ---------- what merging means ----------

  predicate Mentions(hits: seq<Hit>, source: string, line: int) {
    exists h <- hits :: h.source == source && h.line == line
  }

  /** The line is mentioned under this name, and never with a positive count. */
  predicate Dead(hits: seq<Hit>, source: string, line: int) {
    Mentions(hits, source, line) && forall h <- hits | h.source == source && h.line == line :: h.count <= 0
  }

  predicate Live(hits: seq<Hit>, source: string, line: int) {
    exists h <- hits :: h.source == source && h.line == line && h.count > 0
  }

  /** The best count is the greatest of the line's counts and zero. */
  lemma {:induction false} BestIsGreatest(hits: seq<Hit>, source: string, line: int)
    ensures Best(hits, source, line) == None <==> !Mentions(hits, source, line)
    ensures Best(hits, source, line).Some? ==>
              var m := Best(hits, source, line).value;
              && 0 <= m && (forall h <- hits | h.source == source && h.line == line :: h.count <= m)
              && (m == 0 || Hit(source, line, m) in hits)
  {
    if hits != [] {
      var init, last := hits[..|hits| - 1], hits[|hits| - 1];
      BestIsGreatest(init, source, line);
      assert hits == init + [last];
    }
  }

  lemma {:induction false} ZeroIsDead(hits: seq<Hit>, source: string, line: int)
    ensures Best(hits, source, line) == Some(0) <==> Dead(hits, source, line)
    ensures Best(hits, source, line).Some? && Best(hits, source, line).value > 0 <==> Live(hits, source, line)
  {
    BestIsGreatest(hits, source, line);
  }

  /** Only which counts there are matters, not their order or number: inputs may
      be permuted, and repeated. */
  lemma {:induction false} BestIgnoresOrder(a: seq<Hit>, b: seq<Hit>, source: string, line: int)
    requires forall h :: h in a <==> h in b
    ensures Best(a, source, line) == Best(b, source, line)
  {
    BestIsGreatest(a, source, line);
    BestIsGreatest(b, source, line);
  }

  /** Merging a merged report with further ones is merging all of them. */
  lemma {:induction false} MergingIsUnion(a: seq<Hit>, merged: seq<Hit>, b: seq<Hit>, source: string, line: int)
    requires forall h :: h in merged <==> Best(a, h.source, h.line) == Some(h.count)
    ensures Best(merged + b, source, line) == Best(a + b, source, line)
  {
    BestIsGreatest(a, source, line);
    BestIsGreatest(merged + b, source, line);
    BestIsGreatest(a + b, source, line);
    var best := Best(a, source, line);
    if best.Some? { assert Hit(source, line, best.value) in merged; }
  }

  /** Some name for the path mentions the line, and no count under it is positive. */
  ghost predicate DeadUnderAName<P(!new)>(hits: seq<Hit>, spell: string -> P, at: Place<P>) {
    exists s :: spell(s) == at.path && Dead(hits, s, at.line)
  }

  ghost predicate LiveUnderAName<P(!new)>(hits: seq<Hit>, spell: string -> P, at: Place<P>) {
    exists s :: spell(s) == at.path && Live(hits, s, at.line)
  }

  /** Reading the merged report: a place is uncovered exactly when some name for
      its path mentions the line and no count under that name is positive, and
      covered exactly when some count under some name is. */
  method MergeAndParse<P(==,!new)>(reports: seq<seq<Line>>, spell: string -> P)
    returns (uncovered: seq<Place<P>>, covered: set<Place<P>>)
    ensures forall at :: at in uncovered <==> 0 <= at.line && DeadUnderAName(AllHits(reports), spell, at)
    ensures forall at :: at in covered <==> 0 <= at.line && LiveUnderAName(AllHits(reports), spell, at)
  {
    var counts := MergeCounts(reports);
    var lines := Emit(counts);
    uncovered, covered := ParseLcov(lines, spell);
    forall at: Place<P> { ReadsMerged(AllHits(reports), Hits(lines), spell, at); }
  }

  lemma {:induction false} ReadsMerged<P(!new)>(hits: seq<Hit>, merged: seq<Hit>, spell: string -> P, at: Place<P>)
    requires forall h :: h in merged <==> Best(hits, h.source, h.line) == Some(h.count)
    ensures Uncovered(merged, spell, at) <==> 0 <= at.line && DeadUnderAName(hits, spell, at)
    ensures Covered(merged, spell, at) <==> 0 <= at.line && LiveUnderAName(hits, spell, at)
  {
    if Uncovered(merged, spell, at) {
      var h :| h in merged && Readable(h) && spell(h.source) == at.path && h.line == at.line && h.count == 0;
      ZeroIsDead(hits, h.source, h.line);
    }
    if Covered(merged, spell, at) {
      var h :| h in merged && Readable(h) && spell(h.source) == at.path && h.line == at.line && h.count != 0;
      ZeroIsDead(hits, h.source, h.line);
    }
    forall s | 0 <= at.line && spell(s) == at.path && Dead(hits, s, at.line) ensures Uncovered(merged, spell, at) {
      ZeroIsDead(hits, s, at.line);
      assert Hit(s, at.line, 0) in merged;
    }
    forall s | 0 <= at.line && spell(s) == at.path && Live(hits, s, at.line) ensures Covered(merged, spell, at) {
      ZeroIsDead(hits, s, at.line);
      assert Hit(s, at.line, Best(hits, s, at.line).value) in merged;
    }
  }

  // ---------- files named in more than one way ----------

  /** Some input mentions the line of this file, and none gives it a positive
      count, whatever names they use for the file. */
  predicate FileDead<P(==)>(hits: seq<Hit>, spell: string -> P, at: Place<P>) {
    && (exists h <- hits :: spell(h.source) == at.path && h.line == at.line)
    && forall h <- hits | spell(h.source) == at.path && h.line == at.line :: h.count <= 0
  }

  predicate NamedFrom(hits: seq<Hit>, names: set<string>) { forall h <- hits :: h.source in names }

  /** No two of the names are read as one path. */
  predicate OneNameEach<P(==)>(names: set<string>, spell: string -> P) {
    forall s, t | s in names && t in names && spell(s) == spell(t) :: s == t
  }

  /** With one name for each file, a line is reported uncovered exactly when no
      input covers it. */
  lemma {:induction false} OneNameSuffices<P(!new)>(hits: seq<Hit>, names: set<string>, spell: string -> P, at: Place<P>)
    requires NamedFrom(hits, names) && OneNameEach(names, spell)
    ensures DeadUnderAName(hits, spell, at) <==> FileDead(hits, spell, at)
  {
    if FileDead(hits, spell, at) {
      var h :| h in hits && spell(h.source) == at.path && h.line == at.line;
      assert Dead(hits, h.source, at.line);
    }
    if DeadUnderAName(hits, spell, at) {
      var s :| spell(s) == at.path && Dead(hits, s, at.line);
      var g :| g in hits && g.source == s && g.line == at.line;
    }
  }

  /** With two names for one file, a line hit under one of them only is reported
      uncovered all the same. */
  lemma {:induction false} TwoNamesBreakTheUnion<P(!new)>(spell: string -> P, s: string, t: string)
    requires spell(s) == spell(t) && s != t
    ensures var hits, at := [Hit(s, 1, 0), Hit(t, 1, 5)], Place(spell(s), 1);
            DeadUnderAName(hits, spell, at) && !FileDead(hits, spell, at)
  {
    var hits, at := [Hit(s, 1, 0), Hit(t, 1, 5)], Place(spell(s), 1);
    assert hits[0] in hits && hits[1] in hits;
    assert Dead(hits, s, 1);
  }

  /** The merge is keyed by name, the reader by path: for inputs that use given
      names, "uncovered exactly when no input covers it" holds of every input and
      every line if and only if no two of the names are read as one path. */
  lemma {:induction false} UnionHoldsIffOneNameEach<P(!new)>(names: set<string>, spell: string -> P)
    ensures (forall hits, at: Place<P> | NamedFrom(hits, names) && 0 <= at.line ::
               DeadUnderAName(hits, spell, at) <==> FileDead(hits, spell, at))
            <==> OneNameEach(names, spell)
  {
    if OneNameEach(names, spell) {
      forall hits, at: Place<P> | NamedFrom(hits, names) && 0 <= at.line
        ensures DeadUnderAName(hits, spell, at) <==> FileDead(hits, spell, at)
      {
        OneNameSuffices(hits, names, spell, at);
      }
    } else {
      var s, t :| s in names && t in names && spell(s) == spell(t) && s != t;
      TwoNamesBreakTheUnion(spell, s, t);
      assert NamedFrom([Hit(s, 1, 0), Hit(t, 1, 5)], names);
    }
  }

  /** However paths are read, if `a.rs` and `./a.rs` are one of them, then merging
      a report that hits its first line under one name with a report that does not
      under the other, and reading the result, lists the line as covered and as
      uncovered. */
  method TwoNamesMislead<P(==,!new)>(spell: string -> P) returns (uncovered: seq<Place<P>>, covered: set<Place<P>>)
    requires spell("a.rs") == spell("./a.rs")
    ensures Place(spell("a.rs"), 1) in uncovered && Place(spell("a.rs"), 1) in covered
  {
    var cold, hot := [SF("a.rs"), DA(1, 0), EndOfRecord], [SF("./a.rs"), DA(1, 5), EndOfRecord];
    uncovered, covered := MergeAndParse([cold, hot], spell);
    ghost var hits := TwoHits(1, 0, 5);
    assert Dead(hits, "a.rs", 1) && Live(hits, "./a.rs", 1);
  }

  lemma {:induction false} TwoHits(line: int, less: int, more: int) returns (hits: seq<Hit>)
    requires less <= 0 < more
    ensures hits == AllHits([[SF("a.rs"), DA(line, less), EndOfRecord], [SF("./a.rs"), DA(line, more), EndOfRecord]])
    ensures Dead(hits, "a.rs", line) && Live(hits, "./a.rs", line)
  {
    var cold, hot := [SF("a.rs"), DA(line, less), EndOfRecord], [SF("./a.rs"), DA(line, more), EndOfRecord];
    HitsOfRecord("a.rs", line, less);
    HitsOfRecord("./a.rs", line, more);
    assert AllHits([cold]) == Hits(cold) by { assert [cold][..0] == []; }
    assert [cold, hot][..1] == [cold];
    hits := [Hit("a.rs", line, less), Hit("./a.rs", line, more)];
    assert "./a.rs"[0] != "a.rs"[0];
    assert hits[0] in hits && hits[1] in hits;
  }

  lemma {:induction false} HitsOfRecord(source: string, line: int, count: int)
    ensures Hits([SF(source), DA(line, count), EndOfRecord]) == [Hit(source, line, count)]
  {
    var one, two := [SF(source)], [SF(source), DA(line, count)];
    var all := two + [EndOfRecord];
    assert one[..0] == [] && two[..1] == one && all[..2] == two;
    assert CurrentAfter(one) == Some(source) && Hits(one) == Hits([]) == [];
    assert two[..|two| - 1] == one && two[|two| - 1] == DA(line, count);
    assert Hits(two) == Hits(one) + [Hit(source, line, count)];
    assert Hits(two) == [Hit(source, line, count)];
    assert all == [SF(source), DA(line, count), EndOfRecord];
  }
}
