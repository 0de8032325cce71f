/** The two evidence producers the gate leans on most: runtime_path_probe.py and changed_coverage_gate.py. */
module Producers {
  import opened Orders
  import opened JsonDoc

  datatype Tier = Critical | High | Normal

  /** One changed method from the diff report; an absent model or file is "". */
  datatype Target = Target(
    id: Json, model: string, file: string, span: Option<(int, int)>, risk: Option<Tier>, changedLines: set<int>)

  // ------------------------------------------------------------------------
  // Runtime path
  // ------------------------------------------------------------------------

  /** A recorded entry into a watched method, and what the live registry says about a target. */
  datatype CallEvent = CallEvent(targetId: Json, selfName: Option<string>, file: Option<string>, line: Option<int>)
  datatype Fact = Fact(targetId: Json, inMro: bool, file: Option<string>, line: Option<int>)

  /** Same file name, and the line falls inside the target's method. */
  predicate LocMatches(file: Option<string>, line: Option<int>, t: Target) {
    && file.Some? && line.Some? && t.file != "" && t.span.Some?
    && Basename(file.value) == Basename(t.file)
    && t.span.value.0 <= line.value <= t.span.value.1
  }

  /** The changed method really ran: the live registry still resolves to it, a test entered it,
      through a recordset of its own model, at the changed source location. */
  predicate Bound(t: Target, events: seq<CallEvent>, fact: Option<Fact>) {
    && fact.Some? && fact.value.inMro
    && events != []
    && (t.model != "" ==> exists e :: e in events && e.selfName == Some(t.model))
    && ((exists e :: e in events && LocMatches(e.file, e.line, t))
        || LocMatches(fact.value.file, fact.value.line, t))
  }

  datatype BindReason = NotInMro | NotCalled | MockedModel | WrongLocation

  datatype PathResult = PathResult(targetId: Json, bound: bool, reasons: seq<BindReason>)

  /** A recorded event or the registry puts the target at this place, which lies in its method. */
  ghost predicate SeenAt(t: Target, events: seq<CallEvent>, fact: Option<Fact>, file: string, line: int) {
    && ((exists e :: e in events && e.file == Some(file) && e.line == Some(line))
        || (fact.Some? && fact.value.file == Some(file) && fact.value.line == Some(line)))
    && t.file != "" && Basename(file) == Basename(t.file)
    && exists first, last :: t.span == Some((first, last)) && first <= line <= last
  }

  lemma SomePlaceIff(t: Target, events: seq<CallEvent>, fact: Option<Fact>)
    ensures (exists file, line :: SeenAt(t, events, fact, file, line)) <==>
              || (exists e :: e in events && LocMatches(e.file, e.line, t))
              || (fact.Some? && LocMatches(fact.value.file, fact.value.line, t))
  {
    if e :| e in events && LocMatches(e.file, e.line, t) {
      LocatedIsSeen(t, events, fact, e.file, e.line);
    }
    if fact.Some? && LocMatches(fact.value.file, fact.value.line, t) {
      LocatedIsSeen(t, events, fact, fact.value.file, fact.value.line);
    }
    if file, line :| SeenAt(t, events, fact, file, line) {
      assert LocMatches(Some(file), Some(line), t);
    }
  }

  lemma LocatedIsSeen(t: Target, events: seq<CallEvent>, fact: Option<Fact>, file: Option<string>, line: Option<int>)
    requires LocMatches(file, line, t)
    requires (exists e :: e in events && e.file == file && e.line == line)
             || (fact.Some? && fact.value.file == file && fact.value.line == line)
    ensures exists f, l :: SeenAt(t, events, fact, f, l)
  {
    assert t.span == Some((t.span.value.0, t.span.value.1));
    assert SeenAt(t, events, fact, file.value, line.value);
  }

  method EvaluatePath(t: Target, events: seq<CallEvent>, fact: Option<Fact>) returns (r: PathResult)
    ensures r.targetId == t.id && (r.bound <==> Bound(t, events, fact))
    ensures r.bound <==> r.reasons == []
    ensures NotInMro in r.reasons <==> fact.None? || !fact.value.inMro
    ensures NotCalled in r.reasons <==> events == []
    ensures MockedModel in r.reasons <==> t.model != "" && forall e :: e in events ==> e.selfName != Some(t.model)
    ensures WrongLocation in r.reasons <==> events == [] || forall file, line :: !SeenAt(t, events, fact, file, line)
  {
    SomePlaceIff(t, events, fact);
    var reasons: seq<BindReason> := [];
    var inMro := fact.Some? && fact.value.inMro;
    if !inMro {
      reasons := reasons + [NotInMro];
    }
    var called := events != [];
    if !called {
      reasons := reasons + [NotCalled];
    }
    var selfMatch := t.model == "" || exists e :: e in events && e.selfName == Some(t.model);
    if !selfMatch {
      reasons := reasons + [MockedModel];
    }
    var covered := false;
    if called {
      covered := exists e :: e in events && LocMatches(e.file, e.line, t);
      if !covered && fact.Some? {
        covered := LocMatches(fact.value.file, fact.value.line, t);
      }
    }
    if !covered {
      reasons := reasons + [WrongLocation];
    }
    r := PathResult(t.id, inMro && called && selfMatch && covered, reasons);
  }

  function EventsOf(events: seq<CallEvent>, id: Json): seq<CallEvent> {
    if events == [] then []
    else
      var n := |events| - 1;
      EventsOf(events[..n], id) + if events[n].targetId == id then [events[n]] else []
  }

  /** A repeated fact for one target: the last one counts. */
  function LastFact(facts: seq<Fact>, id: Json): Option<Fact> {
    if facts == [] then None
    else if facts[|facts| - 1].targetId == id then Some(facts[|facts| - 1])
    else LastFact(facts[..|facts| - 1], id)
  }

  predicate BoundInRun(t: Target, events: seq<CallEvent>, facts: seq<Fact>) {
    Bound(t, EventsOf(events, t.id), LastFact(facts, t.id))
  }

  datatype PathReport = PathReport(targets: nat, bound: nat, unbound: nat, results: seq<PathResult>,
    unboundIds: seq<Json>)

  /** How many targets are bound, and the ids of the others in order. */
  function BoundCount(targets: seq<Target>, events: seq<CallEvent>, facts: seq<Fact>): (n: nat)
    ensures n <= |targets|
  {
    if targets == [] then 0
    else
      var t := targets[|targets| - 1];
      BoundCount(targets[..|targets| - 1], events, facts) + if BoundInRun(t, events, facts) then 1 else 0
  }

  function UnboundIds(targets: seq<Target>, events: seq<CallEvent>, facts: seq<Fact>): seq<Json> {
    if targets == [] then []
    else
      var t := targets[|targets| - 1];
      UnboundIds(targets[..|targets| - 1], events, facts) + if BoundInRun(t, events, facts) then [] else [t.id]
  }

  lemma {:induction false} AllBoundIff(targets: seq<Target>, events: seq<CallEvent>, facts: seq<Fact>)
    ensures BoundCount(targets, events, facts) == |targets| <==> AllBound(targets, events, facts)
    ensures |UnboundIds(targets, events, facts)| == |targets| - BoundCount(targets, events, facts)
  {
    if targets != [] {
      var n := |targets| - 1;
      AllBoundIff(targets[..n], events, facts);
      AllBoundSnoc(targets, events, facts);
    }
  }

  ghost predicate AllBound(targets: seq<Target>, events: seq<CallEvent>, facts: seq<Fact>) {
    forall k :: 0 <= k < |targets| ==> BoundInRun(targets[k], events, facts)
  }

  lemma AllBoundSnoc(targets: seq<Target>, events: seq<CallEvent>, facts: seq<Fact>)
    requires targets != []
    ensures var n := |targets| - 1;
            AllBound(targets, events, facts) <==>
              AllBound(targets[..n], events, facts) && BoundInRun(targets[n], events, facts)
  {
    var n := |targets| - 1;
    var before := targets[..n];
    assert forall k :: 0 <= k < n ==> before[k] == targets[k];
    assert AllBound(before, events, facts) ==> forall k :: 0 <= k < n ==> BoundInRun(before[k], events, facts);
  }

  lemma CountNext(targets: seq<Target>, events: seq<CallEvent>, facts: seq<Fact>, i: nat)
    requires i < |targets|
    ensures var bound := BoundInRun(targets[i], events, facts);
            BoundCount(targets[..i + 1], events, facts) == BoundCount(targets[..i], events, facts) +
              (if bound then 1 else 0)
            && UnboundIds(targets[..i + 1], events, facts) ==
               UnboundIds(targets[..i], events, facts) + if bound then [] else [targets[i].id]
  {
    assert targets[..i + 1][..i] == targets[..i];
  }

  method IndexFacts(facts: seq<Fact>) returns (byId: map<Json, Fact>)
    ensures forall id :: (if id in byId then Some(byId[id]) else None) == LastFact(facts, id)
  {
    byId := map[];
    for i := 0 to |facts|
      invariant forall id :: (if id in byId then Some(byId[id]) else None) == LastFact(facts[..i], id)
    {
      assert facts[..i + 1][..i] == facts[..i];
      byId := byId[facts[i].targetId := facts[i]];
    }
    assert facts[..|facts|] == facts;
  }

  ghost predicate Grouped(byId: map<Json, seq<CallEvent>>, events: seq<CallEvent>) {
    forall id :: (if id in byId then byId[id] else []) == EventsOf(events, id)
  }

  lemma GroupNext(byId: map<Json, seq<CallEvent>>, events: seq<CallEvent>, i: nat)
    requires i < |events| && Grouped(byId, events[..i])
    ensures var id := events[i].targetId;
            Grouped(byId[id := (if id in byId then byId[id] else []) + [events[i]]], events[..i + 1])
  {
    assert events[..i + 1][..i] == events[..i];
  }

  method GroupEvents(events: seq<CallEvent>) returns (byId: map<Json, seq<CallEvent>>)
    ensures forall id :: (if id in byId then byId[id] else []) == EventsOf(events, id)
  {
    byId := map[];
    for i := 0 to |events|
      invariant Grouped(byId, events[..i])
    {
      GroupNext(byId, events, i);
      var id := events[i].targetId;
      byId := byId[id := (if id in byId then byId[id] else []) + [events[i]]];
    }
    assert events[..|events|] == events;
  }

  method ResultFor(t: Target, mine: seq<CallEvent>, fact: Option<Fact>, ghost events: seq<CallEvent>,
        ghost facts: seq<Fact>)
    returns (r: PathResult)
    requires mine == EventsOf(events, t.id) && fact == LastFact(facts, t.id)
    ensures IsPathResult(t, events, facts, r)
  {
    r := EvaluatePath(t, mine, fact);
  }

  method BuildPathReport(targets: seq<Target>, events: seq<CallEvent>, facts: seq<Fact>) returns (report: PathReport)
    ensures IsPathReport(targets, events, facts, report)
  {
    var registryById := IndexFacts(facts);
    var eventsById := GroupEvents(events);
    var results: seq<PathResult> := [];
    var boundCount := 0;
    var unboundIds: seq<Json> := [];
    for i := 0 to |targets|
      invariant ResultsUpTo(targets, events, facts, results, i)
      invariant boundCount == BoundCount(targets[..i], events, facts) &&
        unboundIds == UnboundIds(targets[..i], events, facts)
    {
      var t := targets[i];
      CountNext(targets, events, facts, i);
      var fact := if t.id in registryById then Some(registryById[t.id]) else None;
      var mine := if t.id in eventsById then eventsById[t.id] else [];
      var r := ResultFor(t, mine, fact, events, facts);
      ResultsNext(targets, events, facts, results, i, r);
      results := results + [r];
      if r.bound {
        boundCount := boundCount + 1;
      } else {
        unboundIds := unboundIds + [t.id];
      }
    }
    assert targets[..|targets|] == targets;
    report := PathReport(|targets|, boundCount, |targets| - boundCount, results, unboundIds);
  }

  ghost predicate ResultsUpTo(targets: seq<Target>, events: seq<CallEvent>, facts: seq<Fact>,
        results: seq<PathResult>, i: nat)
    requires i <= |targets|
  {
    |results| == i && forall k :: 0 <= k < i ==> IsPathResult(targets[k], events, facts, results[k])
  }

  lemma ResultsNext(targets: seq<Target>, events: seq<CallEvent>, facts: seq<Fact>, results: seq<PathResult>, i: nat,
        r: PathResult)
    requires i < |targets| && ResultsUpTo(targets, events, facts, results, i) &&
      IsPathResult(targets[i], events, facts, r)
    ensures ResultsUpTo(targets, events, facts, results + [r], i + 1)
  {
  }

  ghost predicate IsPathResult(t: Target, events: seq<CallEvent>, facts: seq<Fact>, r: PathResult) {
    r.targetId == t.id && (r.bound <==> BoundInRun(t, events, facts))
  }

  /** One result per target, the counts of bound and unbound ones, and the ids of the latter. */
  ghost predicate IsPathReport(targets: seq<Target>, events: seq<CallEvent>, facts: seq<Fact>, report: PathReport) {
    && ResultsUpTo(targets, events, facts, report.results, |targets|)
    && report.targets == |targets|
    && report.bound == BoundCount(targets, events, facts)
    && report.unbound == report.targets - report.bound
    && report.unboundIds == UnboundIds(targets, events, facts)
  }

  /** The document written for a report; what it further observed and warned about is not modelled. */
  function PathReportJson(report: PathReport, observations: Json, warnings: Json): map<string, Json> {
    map[
      "summary" := Obj(map["targets" := Int(report.targets), "bound" := Int(report.bound),
        "unbound" := Int(report.unbound)]),
      "targets" := List(seq(|report.results|, i requires 0 <= i < |report.results| =>
        Obj(map["target_id" := report.results[i].targetId, "bound" := Bool(report.results[i].bound)]))),
      "unbound_targets" := List(report.unboundIds),
      "observations" := observations,
      "_warnings" := warnings]
  }

  // ------------------------------------------------------------------------
  // Changed-line coverage
  // ------------------------------------------------------------------------

  /** A file's coverage; `contexts` pairs a parsed line number (or None) with its context names. */
  datatype FileCoverage = FileCoverage(executed: set<int>, contexts: Option<seq<(Option<int>, Option<seq<string>>)>>)

  /** coverage.py's `files` in iteration order. */
  type CoverageFiles = seq<(string, FileCoverage)>

  /** A real test, not the empty context, a setup fixture or an import. */
  predicate IsTestContext(name: string) {
    name != "" && !Contains(Lower(name), "setup") && !Contains(Lower(name), "import")
  }

  function PosixChar(c: char): char { if c == '\\' then '/' else c }

  function Posix(path: string): string {
    seq(|path|, i requires 0 <= i < |path| => PosixChar(path[i]))
  }

  predicate SamePath(key: string, file: string) {
    && (EndsWith(Posix(key), Posix(file)) || EndsWith(Posix(file), Posix(key)))
    && Basename(Posix(key)) == Basename(Posix(file))
  }

  function FirstMatch(files: CoverageFiles, matches: string -> bool): Option<FileCoverage> {
    if files == [] then None
    else if matches(files[0].0) then Some(files[0].1)
    else FirstMatch(files[1..], matches)
  }

  /** The exact key if there is one, otherwise the first key that is the same path by suffix. */
  function Matched(files: CoverageFiles, file: string): Option<FileCoverage> {
    var exact := FirstMatch(files, key => key == file);
    if exact.Some? then exact else FirstMatch(files, key => SamePath(key, file))
  }

  lemma PosixIs(path: string, i: nat)
    requires i < |path|
    ensures |Posix(path)| == |path| && Posix(path)[i] == if path[i] == '\\' then '/' else path[i]
  {
  }

  /** One path, its backslashes turned, is the end of the other, and both name the same file. */
  ghost predicate SameFile(key: string, file: string) {
    && (exists above :: Posix(key) == above + Posix(file) || Posix(file) == above + Posix(key))
    && Basename(Posix(key)) == Basename(Posix(file))
  }

  lemma SamePathIff(key: string, file: string)
    ensures SamePath(key, file) <==> SameFile(key, file)
  {
    EndsWithIff(Posix(key), Posix(file));
    EndsWithIff(Posix(file), Posix(key));
    if before :| Surrounds(Posix(key), before, Posix(file), "") {
      assert Posix(key) == before + Posix(file);
    }
    if before :| Surrounds(Posix(file), before, Posix(key), "") {
      assert Posix(file) == before + Posix(key);
    }
    if above :| Posix(key) == above + Posix(file) || Posix(file) == above + Posix(key) {
      assert Posix(key) == above + Posix(file) ==> Surrounds(Posix(key), above, Posix(file), "");
      assert Posix(file) == above + Posix(key) ==> Surrounds(Posix(file), above, Posix(key), "");
    }
  }

  lemma {:induction false} FirstMatchIs(files: CoverageFiles, matches: string -> bool)
    ensures FirstMatch(files, matches).None? <==> forall k :: 0 <= k < |files| ==> !matches(files[k].0)
    ensures forall k :: 0 <= k < |files| && matches(files[k].0) && (forall j :: 0 <= j < k ==> !matches(files[j].0)) ==>
              FirstMatch(files, matches) == Some(files[k].1)
  {
    if files != [] && !matches(files[0].0) {
      FirstMatchIs(files[1..], matches);
      assert forall k :: 1 <= k < |files| ==> files[k] == files[1..][k - 1];
      forall k | 0 <= k < |files| && matches(files[k].0) && (forall j :: 0 <= j < k ==> !matches(files[j].0))
        ensures FirstMatch(files, matches) == Some(files[k].1)
      {
        assert matches(files[1..][k - 1].0) && forall j :: 0 <= j < k - 1 ==> !matches(files[1..][j].0);
      }
    }
  }

  /** A target's coverage is that of the file with its very path; without one, that of the first file that is the same
      by the end of its path; and none without either. */
  lemma MatchedIs(files: CoverageFiles, file: string, k: nat)
    requires k < |files|
    ensures files[k].0 == file && (forall j :: 0 <= j < k ==> files[j].0 != file) ==>
              Matched(files, file) == Some(files[k].1)
    ensures && (forall j :: 0 <= j < |files| ==> files[j].0 != file)
            && SameFile(files[k].0, file) && (forall j :: 0 <= j < k ==> !SameFile(files[j].0, file)) ==>
              Matched(files, file) == Some(files[k].1)
    ensures (forall j :: 0 <= j < |files| ==> files[j].0 != file && !SameFile(files[j].0, file)) ==>
              Matched(files, file) == None
  {
    FirstMatchIs(files, key => key == file);
    FirstMatchIs(files, key => SamePath(key, file));
    forall j | 0 <= j < |files| ensures SamePath(files[j].0, file) <==> SameFile(files[j].0, file) {
      SamePathIff(files[j].0, file);
    }
  }

  /** A context counts as a test unless it is empty or has one of the two markers in it, in any case. */
  lemma TestContextIff(name: string)
    ensures IsTestContext(name) <==>
              name != "" && forall marker, before, after :: marker in {"setup", "import"} ==>
                !Surrounds(Lower(name), before, marker, after)
  {
    ContainsIff(Lower(name), "setup");
    ContainsIff(Lower(name), "import");
  }

  /** The line ran, and where contexts were recorded some real test was running it. */
  ghost predicate RanInTest(fc: FileCoverage, line: int) {
    line in fc.executed && (fc.contexts.Some? ==> exists i, k :: RanBy(fc.contexts.value, i, k, line))
  }

  /** The i-th entry is about the line, and the k-th name in its list is a test. */
  predicate RanBy(contexts: seq<(Option<int>, Option<seq<string>>)>, i: int, k: int, line: int) {
    && 0 <= i < |contexts| && contexts[i].0 == Some(line) && contexts[i].1.Some?
    && 0 <= k < |contexts[i].1.value| && IsTestContext(contexts[i].1.value[k])
  }

  lemma RanBySome(contexts: seq<(Option<int>, Option<seq<string>>)>, line: int)
    ensures (exists i :: InTestContext(contexts, i, line)) <==> exists i, k :: RanBy(contexts, i, k, line)
  {
    if i :| InTestContext(contexts, i, line) {
      var k :| 0 <= k < |contexts[i].1.value| && IsTestContext(contexts[i].1.value[k]);
      assert RanBy(contexts, i, k, line);
    }
    if i, k :| RanBy(contexts, i, k, line) {
      assert InTestContext(contexts, i, line);
    }
  }

  predicate InTestContext(contexts: seq<(Option<int>, Option<seq<string>>)>, i: int, line: int) {
    0 <= i < |contexts| && contexts[i].0 == Some(line) && contexts[i].1.Some? && AnyTest(contexts[i].1.value)
  }

  predicate AnyTest(names: seq<string>) {
    exists k :: 0 <= k < |names| && IsTestContext(names[k])
  }

  method CoveredLines(fc: FileCoverage) returns (covered: set<int>)
    ensures forall line :: line in covered <==> RanInTest(fc, line)
  {
    if fc.contexts.None? {
      return fc.executed;
    }
    var contexts := fc.contexts.value;
    var inTests: set<int> := {};
    for i := 0 to |contexts|
      invariant forall line :: line in inTests <==> exists k :: 0 <= k < i && InTestContext(contexts, k, line)
    {
      if contexts[i].1.Some? && AnyTest(contexts[i].1.value) && contexts[i].0.Some? {
        assert InTestContext(contexts, i, contexts[i].0.value);
        inTests := inTests + {contexts[i].0.value};
      }
    }
    covered := inTests * fc.executed;
    forall line ensures line in covered <==> RanInTest(fc, line) { RanBySome(contexts, line); }
  }

  /** Critical and high-risk targets need every changed line, normal ones nine in ten. */
  predicate MeetsThreshold(tier: Tier, covered: nat, changed: nat) {
    if tier == Normal then 10 * covered >= 9 * changed else covered >= changed
  }

  /** The changed lines that real tests executed, in the coverage file matched to the target. */
  ghost function TestedLines(t: Target, files: CoverageFiles): set<int> {
    var m := Matched(files, t.file);
    set line | line in t.changedLines && m.Some? && RanInTest(m.value, line)
  }

  ghost predicate Covered(t: Target, files: CoverageFiles, modelTier: string -> Tier) {
    t.changedLines == {} || MeetsThreshold(TierOf(t, modelTier), |TestedLines(t, files)|, |t.changedLines|)
  }

  function TierOf(t: Target, modelTier: string -> Tier): Tier {
    if t.risk.Some? then t.risk.value else modelTier(t.model)
  }

  datatype CoverageResult = CoverageResult(targetId: Json, covered: set<int>, missing: set<int>, ok: bool)

  method EvaluateCoverage(t: Target, files: CoverageFiles, modelTier: string -> Tier) returns (r: CoverageResult)
    ensures IsCoverageResult(t, files, modelTier, r)
    ensures r.covered + r.missing == t.changedLines && r.covered !! r.missing
    ensures r.covered == TestedLines(t, files)
    ensures r.ok <==>
              || t.changedLines == {} || r.missing == {}
              || ((if t.risk.Some? then t.risk.value else modelTier(t.model)) == Normal
                  && 10 * |r.covered| >= 9 * |t.changedLines|)
  {
    if t.changedLines == {} {
      return CoverageResult(t.id, {}, {}, true);
    }
    var m := Matched(files, t.file);
    var lines: set<int> := {};
    if m.Some? {
      lines := CoveredLines(m.value);
    }
    var covered := t.changedLines * lines;
    assert covered == TestedLines(t, files);
    AllCoveredIffNoneMissing(t.changedLines, lines);
    r := CoverageResult(t.id, covered, t.changedLines - lines,
                        MeetsThreshold(TierOf(t, modelTier), |covered|, |t.changedLines|));
  }

  lemma AllCoveredIffNoneMissing(changed: set<int>, lines: set<int>)
    ensures |changed * lines| >= |changed| <==> changed - lines == {}
    ensures changed - lines == {} ==> 10 * |changed * lines| >= 9 * |changed|
  {
    assert changed == changed * lines + (changed - lines);
    assert |changed| == |changed * lines| + |changed - lines|;
  }

  datatype CoverageReport = CoverageReport(results: seq<CoverageResult>, fullyCovered: nat, ok: bool)

  ghost function CoveredCount(targets: seq<Target>, files: CoverageFiles, modelTier: string -> Tier): (n: nat)
    ensures n <= |targets|
  {
    if targets == [] then 0
    else
      var t := targets[|targets| - 1];
      CoveredCount(targets[..|targets| - 1], files, modelTier) + if Covered(t, files, modelTier) then 1 else 0
  }

  lemma {:induction false} AllCoveredIff(targets: seq<Target>, files: CoverageFiles, modelTier: string -> Tier)
    ensures CoveredCount(targets, files, modelTier) == |targets| <==>
      forall t :: t in targets ==> Covered(t, files, modelTier)
  {
    if targets != [] {
      var n := |targets| - 1;
      AllCoveredIff(targets[..n], files, modelTier);
      assert targets == targets[..n] + [targets[n]];
    }
  }

  method BuildCoverageReport(targets: seq<Target>, files: CoverageFiles, modelTier: string -> Tier)
    returns (report: CoverageReport)
    ensures IsCoverageReport(targets, files, modelTier, report)
  {
    var results: seq<CoverageResult> := [];
    var fullyCovered, ok := 0, true;
    for i := 0 to |targets|
      invariant CoverageUpTo(targets, files, modelTier, results, i)
      invariant fullyCovered == CoveredCount(targets[..i], files, modelTier) && (ok <==> fullyCovered == i)
    {
      CoveredNext(targets, files, modelTier, i);
      var r := EvaluateCoverage(targets[i], files, modelTier);
      CoverageNext(targets, files, modelTier, results, i, r);
      results := results + [r];
      if r.ok {
        fullyCovered := fullyCovered + 1;
      }
      ok := ok && r.ok;
    }
    assert targets[..|targets|] == targets;
    AllCoveredIff(targets, files, modelTier);
    report := CoverageReport(results, fullyCovered, ok);
  }

  lemma CoveredNext(targets: seq<Target>, files: CoverageFiles, modelTier: string -> Tier, i: nat)
    requires i < |targets|
    ensures CoveredCount(targets[..i + 1], files, modelTier) ==
            CoveredCount(targets[..i], files, modelTier) + if Covered(targets[i], files, modelTier) then 1 else 0
  {
    assert targets[..i + 1][..i] == targets[..i];
  }

  ghost predicate CoverageUpTo(targets: seq<Target>, files: CoverageFiles, modelTier: string -> Tier,
                               results: seq<CoverageResult>, i: nat)
    requires i <= |targets|
  {
    |results| == i && forall k :: 0 <= k < i ==> IsCoverageResult(targets[k], files, modelTier, results[k])
  }

  lemma CoverageNext(targets: seq<Target>, files: CoverageFiles, modelTier: string -> Tier,
                     results: seq<CoverageResult>, i: nat, r: CoverageResult)
    requires i < |targets| && CoverageUpTo(targets, files, modelTier, results, i)
    requires IsCoverageResult(targets[i], files, modelTier, r)
    ensures CoverageUpTo(targets, files, modelTier, results + [r], i + 1)
  {
  }

  ghost predicate IsCoverageResult(t: Target, files: CoverageFiles, modelTier: string -> Tier, r: CoverageResult) {
    r.targetId == t.id && (r.ok <==> Covered(t, files, modelTier))
  }

  /** One result per target, how many are fully covered, and a pass exactly when all are. */
  ghost predicate IsCoverageReport(targets: seq<Target>, files: CoverageFiles, modelTier: string -> Tier,
                                   report: CoverageReport)
  {
    && CoverageUpTo(targets, files, modelTier, report.results, |targets|)
    && report.fullyCovered == CoveredCount(targets, files, modelTier)
    && (report.ok <==> forall t :: t in targets ==> Covered(t, files, modelTier))
  }

  function CoverageReportJson(report: CoverageReport, warnings: Json): map<string, Json> {
    map[
      "summary" := Obj(map["targets" := Int(|report.results|), "fully_covered" := Int(report.fullyCovered),
                           "gate" := Str(if report.ok then "pass" else "fail")]),
      "targets" := List(seq(|report.results|, i requires 0 <= i < |report.results| =>
        Obj(map["target_id" := report.results[i].targetId, "ok" := Bool(report.results[i].ok)]))),
      "ok" := Bool(report.ok),
      "_warnings" := warnings]
  }
}
