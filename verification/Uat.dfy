/** Round-robin allocation of acceptance cases over scenarios (uat_pack.py). */
module Uat {
  import opened Orders

  const MAX_CASES: nat := 10
  const FALLBACK_TOP_N: nat := 10

  /** An entrypoint; `rank` is 0.0 when the surface gives no number. */
  datatype Entry = Entry(name: string, model: Option<string>, rank: real)

  datatype Scenario = Scenario(key: Option<string>, model: Option<string>)

  datatype Case = Case(index: int, scenario: nat, entry: Entry)

  datatype Reason = NoMatch(model: Option<string>) | CapReached

  datatype Note = Note(scenario: Option<string>, reason: Reason)

  type Queues = seq<seq<Entry>>

  // ------------------------------------------------------------------------
  // Queues
  // ------------------------------------------------------------------------

  predicate Higher(a: Entry, b: Entry) {
    a.rank >= b.rank
  }

  function Ranked(entries: seq<Entry>): seq<Entry> {
    Sort(Higher, entries)
  }

  /** `scen.get("model") or doc_model` */
  function ModelOf(s: Scenario, docModel: Option<string>): Option<string> {
    if s.model.Some? && s.model.value != "" then s.model else docModel
  }

  function Matching(ranked: seq<Entry>, m: Option<string>): seq<Entry> {
    if ranked == [] then []
    else (if ranked[0].model == m then [ranked[0]] else []) + Matching(ranked[1..], m)
  }

  function ModelQueues(ranked: seq<Entry>, scenarios: seq<Scenario>, docModel: Option<string>): (r: Queues)
    ensures |r| == |scenarios|
  {
    seq(|scenarios|, i requires 0 <= i < |scenarios| => Matching(ranked, ModelOf(scenarios[i], docModel)))
  }

  predicate AllEmpty(queues: Queues) {
    forall i :: 0 <= i < |queues| ==> queues[i] == []
  }

  predicate FallsBack(ranked: seq<Entry>, scenarios: seq<Scenario>, docModel: Option<string>) {
    scenarios != [] && AllEmpty(ModelQueues(ranked, scenarios, docModel)) && ranked != []
  }

  function Min(a: int, b: int): int {
    if a <= b then a else b
  }

  function BuildQueues(ranked: seq<Entry>, scenarios: seq<Scenario>, docModel: Option<string>): (r: Queues)
    ensures |r| == |scenarios|
  {
    if FallsBack(ranked, scenarios, docModel) then
      seq(|scenarios|, i requires 0 <= i < |scenarios| => ranked[..Min(FALLBACK_TOP_N, |ranked|)])
    else ModelQueues(ranked, scenarios, docModel)
  }

  lemma MatchingIsFilter(ranked: seq<Entry>, m: Option<string>)
    requires Sorted(Higher, ranked)
    ensures Sorted(Higher, Matching(ranked, m))
    ensures forall e :: multiset(Matching(ranked, m))[e] == if e.model == m then multiset(ranked)[e] else 0
  {
    MatchingSorted(ranked, m);
    MatchingCounts(ranked, m);
  }

  lemma {:induction false} MatchingSorted(ranked: seq<Entry>, m: Option<string>)
    requires Sorted(Higher, ranked)
    ensures Sorted(Higher, Matching(ranked, m))
    ensures forall i :: 0 <= i < |Matching(ranked, m)| ==> Matching(ranked, m)[i] in ranked
  {
    if ranked != [] {
      MatchingSorted(ranked[1..], m);
      var rest := Matching(ranked[1..], m);
      forall i | 0 <= i < |rest| ensures Higher(ranked[0], rest[i]) {
        assert rest[i] in ranked[1..];
      }
    }
  }

  lemma {:induction false} MatchingCounts(ranked: seq<Entry>, m: Option<string>)
    ensures forall e :: multiset(Matching(ranked, m))[e] == if e.model == m then multiset(ranked)[e] else 0
  {
    if ranked != [] {
      MatchingCounts(ranked[1..], m);
      assert ranked == [ranked[0]] + ranked[1..];
    }
  }

  /** The scenario's own model, or the document's when it names none. */
  predicate IsAbout(s: Scenario, docModel: Option<string>, m: Option<string>) {
    match s.model
    case None => m == docModel
    case Some(name) => m == if name == "" then docModel else Some(name)
  }

  ghost predicate BestFirst(q: seq<Entry>) {
    forall i, j :: 0 <= i < j < |q| ==> q[i].rank >= q[j].rank
  }

  /** The entries of one rank, of one model if given, in their order. */
  function Picked(entries: seq<Entry>, rank: real): seq<Entry> {
    if entries == [] then []
    else (if entries[0].rank == rank then [entries[0]] else []) + Picked(entries[1..], rank)
  }

  lemma {:induction false} AlikeIsPicked(entries: seq<Entry>, e: Entry)
    ensures Alike(Higher, e, entries) == Picked(entries, e.rank)
  {
    if entries != [] { AlikeIsPicked(entries[1..], e); }
  }

  /** Ranking puts better entrypoints first, keeps all, and leaves those of equal rank in the order of the surface. */
  lemma RankedIs(entries: seq<Entry>, rank: real)
    ensures BestFirst(Ranked(entries)) && multiset(Ranked(entries)) == multiset(entries)
    ensures Picked(Ranked(entries), rank) == Picked(entries, rank)
  {
    var e := Entry("", None, rank);
    SortSorts(Higher, entries);
    SortIsStable(Higher, entries, e);
    AlikeIsPicked(entries, e);
    AlikeIsPicked(Ranked(entries), e);
    forall i, j | 0 <= i < j < |Ranked(entries)| ensures Ranked(entries)[i].rank >= Ranked(entries)[j].rank {
      assert Higher(Ranked(entries)[i], Ranked(entries)[j]);
    }
  }

  /** A scenario's queue holds exactly the entrypoints of its model, best first, in the order they are ranked. */
  lemma QueuesAreRanked(entries: seq<Entry>, scenarios: seq<Scenario>, docModel: Option<string>, i: nat,
                        m: Option<string>)
    requires i < |scenarios| && !FallsBack(Ranked(entries), scenarios, docModel) && IsAbout(scenarios[i], docModel, m)
    ensures var q := BuildQueues(Ranked(entries), scenarios, docModel)[i];
            && BestFirst(q) && (forall e: Entry :: multiset(q)[e] == if e.model == m then multiset(entries)[e] else 0)
            && forall rank :: Picked(q, rank) == Matching(Picked(entries, rank), m)
  {
    SortSorts(Higher, entries);
    MatchingIsFilter(Ranked(entries), m);
    var q := BuildQueues(Ranked(entries), scenarios, docModel)[i];
    assert q == Matching(Ranked(entries), m);
    forall a, b | 0 <= a < b < |q| ensures q[a].rank >= q[b].rank { assert Higher(q[a], q[b]); }
    forall rank ensures Picked(q, rank) == Matching(Picked(entries, rank), m) {
      RankedIs(entries, rank);
      PickedMatching(Ranked(entries), m, rank);
    }
  }

  lemma {:induction false} PickedMatching(entries: seq<Entry>, m: Option<string>, rank: real)
    ensures Picked(Matching(entries, m), rank) == Matching(Picked(entries, rank), m)
  {
    if entries != [] {
      PickedMatching(entries[1..], m, rank);
      var e, rest, picked := entries[0], Matching(entries[1..], m), Picked(entries[1..], rank);
      assert ([e] + rest)[1..] == rest && ([e] + picked)[1..] == picked;
      assert Matching(entries, m) == if e.model == m then [e] + rest else rest;
      assert Picked(entries, rank) == if e.rank == rank then [e] + picked else picked;
    }
  }

  /** No entrypoint is of any scenario's model. */
  ghost predicate NothingFits(entries: seq<Entry>, scenarios: seq<Scenario>, docModel: Option<string>) {
    forall e, k :: e in entries && 0 <= k < |scenarios| ==> !IsAbout(scenarios[k], docModel, e.model)
  }

  /** The fallback is taken exactly when there are scenarios and entrypoints but none of these fits any of those. */
  lemma FallbackIff(entries: seq<Entry>, scenarios: seq<Scenario>, docModel: Option<string>)
    ensures FallsBack(Ranked(entries), scenarios, docModel) <==>
              scenarios != [] && entries != [] && NothingFits(entries, scenarios, docModel)
  {
    RankedLength(entries);
    if FallsBack(Ranked(entries), scenarios, docModel) {
      forall e, k | e in entries && 0 <= k < |scenarios| ensures !IsAbout(scenarios[k], docModel, e.model) {
        NothingMatches(entries, scenarios, docModel, e, k);
      }
    }
    if NothingFits(entries, scenarios, docModel) {
      forall k | 0 <= k < |scenarios| ensures ModelQueues(Ranked(entries), scenarios, docModel)[k] == [] {
        NothingQueued(entries, scenarios, docModel, k);
      }
    }
  }

  lemma RankedLength(entries: seq<Entry>)
    ensures |Ranked(entries)| == |entries|
  {
    SortSorts(Higher, entries);
    assert |Ranked(entries)| == |multiset(Ranked(entries))| == |multiset(entries)| == |entries|;
  }

  lemma NothingQueued(entries: seq<Entry>, scenarios: seq<Scenario>, docModel: Option<string>, k: nat)
    requires NothingFits(entries, scenarios, docModel) && k < |scenarios|
    ensures Matching(Ranked(entries), ModelOf(scenarios[k], docModel)) == []
  {
    var q := Matching(Ranked(entries), ModelOf(scenarios[k], docModel));
    if q != [] {
      QueuedFits(entries, scenarios[k], docModel, q[0]);
      assert false;
    }
  }

  lemma QueuedFits(entries: seq<Entry>, s: Scenario, docModel: Option<string>, e: Entry)
    requires e in Matching(Ranked(entries), ModelOf(s, docModel))
    ensures e in entries && IsAbout(s, docModel, e.model)
  {
    var m := ModelOf(s, docModel);
    SortSorts(Higher, entries);
    MatchingIsFilter(Ranked(entries), m);
    assert multiset(Matching(Ranked(entries), m))[e] > 0;
    assert e.model == m && e in multiset(entries);
  }

  /** The fallback is taken only when the surface matches no scenario at all; then every queue is the ten best
      overall. */
  lemma FallbackQueues(entries: seq<Entry>, scenarios: seq<Scenario>, docModel: Option<string>, i: nat)
    requires i < |scenarios| && FallsBack(Ranked(entries), scenarios, docModel)
    ensures var q := BuildQueues(Ranked(entries), scenarios, docModel)[i];
            BestFirst(q) && |q| == (if |entries| < 10 then |entries| else 10) && q <= Ranked(entries)
    ensures entries != [] && NothingFits(entries, scenarios, docModel)
  {
    SortSorts(Higher, entries);
    RankedIs(entries, 0.0);
    RankedLength(entries);
    FallbackIff(entries, scenarios, docModel);
    assert BuildQueues(Ranked(entries), scenarios, docModel)[i] ==
      Ranked(entries)[..Min(FALLBACK_TOP_N, |Ranked(entries)|)];
  }

  lemma NothingMatches(entries: seq<Entry>, scenarios: seq<Scenario>, docModel: Option<string>, e: Entry, k: nat)
    requires FallsBack(Ranked(entries), scenarios, docModel) && e in entries && k < |scenarios|
    ensures e.model != ModelOf(scenarios[k], docModel)
  {
    var m := ModelOf(scenarios[k], docModel);
    SortSorts(Higher, entries);
    MatchingIsFilter(Ranked(entries), m);
    assert ModelQueues(Ranked(entries), scenarios, docModel)[k] == [];
    assert multiset(entries)[e] > 0;
    assert multiset(Matching(Ranked(entries), m))[e] == 0;
  }

  // ------------------------------------------------------------------------
  // What a fair allocation is
  // ------------------------------------------------------------------------

  function Sizes(queues: Queues): seq<nat> {
    seq(|queues|, i requires 0 <= i < |queues| => |queues[i]|)
  }

  /** The entries a scenario got, in order. */
  function Given(cases: seq<Case>, i: nat): seq<Entry> {
    if cases == [] then []
    else Given(cases[..|cases| - 1], i) + if cases[|cases| - 1].scenario == i then [cases[|cases| - 1].entry] else []
  }

  /** Everyone served up to `d` entries, the first `i` scenarios up to `d + 1`, as far as their queues go. */
  ghost predicate Levelled(queues: Queues, produced: seq<nat>, d: nat, i: nat) {
    |produced| == |queues|
    && forall k :: 0 <= k < |queues| ==> produced[k] == Min(|queues[k]|, if k < i then d + 1 else d)
  }

  ghost predicate Allocation(queues: Queues, produced: seq<nat>) {
    |produced| == |queues| && forall k :: 0 <= k < |queues| ==> produced[k] <= |queues[k]|
  }

  /** A scenario with entries left over is at most one case behind any other, and none behind a later one. */
  ghost predicate Fair(queues: Queues, produced: seq<nat>) {
    |produced| == |queues|
    && forall i, j :: 0 <= i < |queues| && 0 <= j < |queues| && produced[i] < |queues[i]| ==>
         produced[j] <= produced[i] + (if i < j then 0 else 1)
  }

  /** Cases numbered from 1, each scenario given a prefix of its queue. */
  ghost predicate Accounts(queues: Queues, produced: seq<nat>, cases: seq<Case>) {
    Allocation(queues, produced)
    && |cases| == Sum(produced)
    && (forall k :: 0 <= k < |cases| ==> cases[k].index == k + 1)
    && forall k :: 0 <= k < |queues| ==> Given(cases, k) == queues[k][..produced[k]]
  }

  ghost predicate FairAt(queues: Queues, cases: seq<Case>) {
    exists produced :: Accounts(queues, produced, cases) && Fair(queues, produced)
  }

  /** The allocation is fair whenever one stops. */
  ghost predicate FairThroughout(queues: Queues, cases: seq<Case>) {
    forall n :: 0 <= n <= |cases| ==> FairAt(queues, cases[..n])
  }

  lemma FairNext(queues: Queues, cases: seq<Case>, c: Case, produced: seq<nat>)
    requires FairThroughout(queues, cases) && Accounts(queues, produced, cases + [c]) && Fair(queues, produced)
    ensures FairThroughout(queues, cases + [c])
  {
    forall n | 0 <= n <= |cases| + 1 ensures FairAt(queues, (cases + [c])[..n]) {
      if n == |cases| + 1 {
        assert (cases + [c])[..n] == cases + [c];
      } else {
        assert (cases + [c])[..n] == cases[..n];
      }
    }
  }

  lemma LevelledIsFair(queues: Queues, produced: seq<nat>, d: nat, i: nat)
    requires Levelled(queues, produced, d, i)
    ensures Fair(queues, produced) && Allocation(queues, produced)
  {
  }

  lemma {:induction false} SumMonotone(s: seq<nat>, t: seq<nat>)
    requires |s| == |t| && forall k :: 0 <= k < |s| ==> s[k] <= t[k]
    ensures Sum(s) <= Sum(t)
    ensures (exists k :: 0 <= k < |s| && s[k] < t[k]) ==> Sum(s) < Sum(t)
    decreases |s|
  {
    if s != [] {
      SumMonotone(s[..|s| - 1], t[..|s| - 1]);
      if k :| 0 <= k < |s| && s[k] < t[k] {
        if k < |s| - 1 {
          assert s[..|s| - 1][k] < t[..|s| - 1][k];
        }
      }
    }
  }

  lemma {:induction false} SumZero(n: nat)
    ensures Sum(seq(n, _ => 0)) == 0
  {
    if n > 0 {
      assert seq(n, _ => 0)[..n - 1] == seq(n - 1, _ => 0);
      SumZero(n - 1);
    }
  }

  // ------------------------------------------------------------------------
  // The loop
  // ------------------------------------------------------------------------

  method MaxLength(queues: Queues) returns (n: nat)
    ensures forall k :: 0 <= k < |queues| ==> |queues[k]| <= n
    ensures n > 0 ==> exists k :: 0 <= k < |queues| && |queues[k]| == n
  {
    n := 0;
    for i := 0 to |queues|
      invariant forall k :: 0 <= k < i ==> |queues[k]| <= n
      invariant n > 0 ==> exists k :: 0 <= k < i && |queues[k]| == n
    {
      if |queues[i]| > n { n := |queues[i]|; }
    }
  }

  lemma GiveOne(queues: Queues, produced: seq<nat>, cases: seq<Case>, i: nat)
    requires Accounts(queues, produced, cases) && i < |queues| && produced[i] < |queues[i]|
    ensures Accounts(queues, produced[i := produced[i] + 1], cases + [Case(|cases| + 1, i, queues[i][produced[i]])])
  {
    SumUpdate(produced, i, produced[i] + 1);
    var c := Case(|cases| + 1, i, queues[i][produced[i]]);
    assert (cases + [c])[..|cases|] == cases;
    assert queues[i][..produced[i] + 1] == queues[i][..produced[i]] + [queues[i][produced[i]]];
  }

  /** Served to a level while there is room; once the cap is reached nothing more is given. */
  ghost predicate Serving(queues: Queues, produced: seq<nat>, cases: seq<Case>, depth: nat, i: nat) {
    Accounts(queues, produced, cases) && Fair(queues, produced) && |cases| <= MAX_CASES
    && FairThroughout(queues, cases)
    && (|cases| < MAX_CASES ==> Levelled(queues, produced, depth, i))
  }

  lemma ServeOne(queues: Queues, produced: seq<nat>, cases: seq<Case>, depth: nat, i: nat)
    requires Serving(queues, produced, cases, depth, i) && i < |queues|
    requires depth < |queues[i]| && |cases| < MAX_CASES
    ensures produced[i] == depth
    ensures Serving(queues, produced[i := depth + 1], cases + [Case(|cases| + 1, i, queues[i][depth])], depth, i + 1)
  {
    GiveOne(queues, produced, cases, i);
    LevelledIsFair(queues, produced[i := depth + 1], depth, i + 1);
    FairNext(queues, cases, Case(|cases| + 1, i, queues[i][depth]), produced[i := depth + 1]);
  }

  lemma ServeNone(queues: Queues, produced: seq<nat>, cases: seq<Case>, depth: nat, i: nat)
    requires Serving(queues, produced, cases, depth, i) && i < |queues|
    requires depth >= |queues[i]| || |cases| >= MAX_CASES
    ensures Serving(queues, produced, cases, depth, i + 1)
  {
  }

  lemma RowDone(queues: Queues, produced: seq<nat>, cases: seq<Case>, depth: nat)
    requires Serving(queues, produced, cases, depth, |queues|)
    ensures Serving(queues, produced, cases, depth + 1, 0)
  {
  }

  lemma AllServed(queues: Queues, produced: seq<nat>, cases: seq<Case>, depth: nat)
    requires Serving(queues, produced, cases, depth, 0)
    requires |cases| >= MAX_CASES || forall k :: 0 <= k < |queues| ==> |queues[k]| <= depth
    ensures |cases| == Min(MAX_CASES, Sum(Sizes(queues)))
  {
    SumMonotone(produced, Sizes(queues));
    if |cases| < MAX_CASES {
      assert produced == Sizes(queues);
    }
  }

  lemma NobodyServed(queues: Queues)
    ensures Serving(queues, seq(|queues|, _ => 0), [], 0, 0)
  {
    var produced: seq<nat> := seq(|queues|, _ => 0);
    SumZero(|queues|);
    assert FairAt(queues, []) by { assert Accounts(queues, produced, []) && Fair(queues, produced); }
  }

  /** One round over the scenarios. */
  method ServeRow(queues: Queues, depth: nat, before: seq<nat>, soFar: seq<Case>)
    returns (produced: seq<nat>, cases: seq<Case>)
    requires |before| == |queues| && Serving(queues, before, soFar, depth, 0)
    ensures |produced| == |queues| && Serving(queues, produced, cases, depth + 1, 0)
  {
    produced, cases := before, soFar;
    for i := 0 to |queues|
      invariant |produced| == |queues| && Serving(queues, produced, cases, depth, i)
    {
      if depth < |queues[i]| && |cases| < MAX_CASES {
        ServeOne(queues, produced, cases, depth, i);
        cases := cases + [Case(|cases| + 1, i, queues[i][depth])];
        produced := produced[i := produced[i] + 1];
      } else {
        ServeNone(queues, produced, cases, depth, i);
      }
    }
    RowDone(queues, produced, cases, depth);
  }

  method Allocate(queues: Queues) returns (produced: seq<nat>, cases: seq<Case>)
    ensures Accounts(queues, produced, cases) && Fair(queues, produced) && FairThroughout(queues, cases)
    ensures |cases| == Min(MAX_CASES, Sum(Sizes(queues)))
    ensures |cases| <= 10 && (|cases| < 10 ==> |cases| == Sum(Sizes(queues)))
  {
    produced := seq(|queues|, _ => 0);
    cases := [];
    NobodyServed(queues);
    var maxDepth := MaxLength(queues);
    var depth := 0;
    while depth < maxDepth
      invariant |produced| == |queues| && Serving(queues, produced, cases, depth, 0) && depth <= maxDepth
    {
      produced, cases := ServeRow(queues, depth, produced, cases);
      depth := depth + 1;
      if |cases| >= MAX_CASES {
        break;
      }
    }
    AllServed(queues, produced, cases, depth);
  }

  function NoteOf(s: Scenario, docModel: Option<string>, queue: seq<Entry>): Note {
    Note(s.key, if queue == [] then NoMatch(ModelOf(s, docModel)) else CapReached)
  }

  method CoverageNote(scenarios: seq<Scenario>, docModel: Option<string>, queues: Queues, produced: seq<nat>)
    returns (note: seq<Note>)
    requires |scenarios| == |queues| == |produced|
    ensures note == Unserved(scenarios, docModel, queues, produced)
  {
    note := [];
    for i := 0 to |scenarios|
      invariant note == Unserved(scenarios[..i], docModel, queues[..i], produced[..i])
    {
      assert scenarios[..i + 1][..i] == scenarios[..i] && queues[..i + 1][..i] == queues[..i];
      assert produced[..i + 1][..i] == produced[..i];
      if produced[i] == 0 {
        note := note + [NoteOf(scenarios[i], docModel, queues[i])];
      }
    }
    assert scenarios[..|scenarios|] == scenarios && queues[..|scenarios|] == queues &&
      produced[..|scenarios|] == produced;
  }

  /** The scenarios left without a case, in order, each with its reason. */
  function Unserved(scenarios: seq<Scenario>, docModel: Option<string>, queues: Queues, produced: seq<nat>): seq<Note>
    requires |scenarios| == |queues| == |produced|
  {
    if scenarios == [] then []
    else
      var n := |scenarios| - 1;
      Unserved(scenarios[..n], docModel, queues[..n], produced[..n])
      + if produced[n] != 0 then []
        else [NoteOf(scenarios[n], docModel, queues[n])]
  }

  datatype Pack = Pack(cases: seq<Case>, coverageNote: seq<Note>, fallback: bool)

  method BuildPack(entries: seq<Entry>, scenarios: seq<Scenario>, docModel: Option<string>)
    returns (pack: Pack, ghost produced: seq<nat>)
    ensures var queues := BuildQueues(Ranked(entries), scenarios, docModel);
            Accounts(queues, produced, pack.cases) && Fair(queues, produced) && FairThroughout(queues, pack.cases)
            && |pack.cases| == Min(MAX_CASES, Sum(Sizes(queues)))
            && |produced| == |scenarios|
            && pack.coverageNote == Unserved(scenarios, docModel, queues, produced)
    ensures pack.fallback == FallsBack(Ranked(entries), scenarios, docModel)
    ensures pack.fallback <==> scenarios != [] && entries != [] && NothingFits(entries, scenarios, docModel)
  {
    FallbackIff(entries, scenarios, docModel);
    var ranked := Ranked(entries);
    var queues := BuildQueues(ranked, scenarios, docModel);
    var got, cases := Allocate(queues);
    var note := CoverageNote(scenarios, docModel, queues, got);
    produced := got;
    pack := Pack(cases, note, FallsBack(ranked, scenarios, docModel));
  }

  // ------------------------------------------------------------------------
  // What fairness is good for
  // ------------------------------------------------------------------------

  /** How many scenarios have at least one case. */
  function Covered(a: seq<nat>): nat {
    if a == [] then 0 else Covered(a[..|a| - 1]) + if a[|a| - 1] > 0 then 1 else 0
  }

  lemma {:induction false} CoveredMonotone(a: seq<nat>, b: seq<nat>)
    requires |a| == |b| && forall k :: 0 <= k < |a| && a[k] > 0 ==> b[k] > 0
    ensures Covered(a) <= Covered(b)
    decreases |a|
  {
    if a != [] {
      CoveredMonotone(a[..|a| - 1], b[..|a| - 1]);
    }
  }

  lemma {:induction false} CoveredAtMostSum(a: seq<nat>)
    ensures Covered(a) <= Sum(a)
    ensures (forall k :: 0 <= k < |a| ==> a[k] <= 1) ==> Covered(a) == Sum(a)
    decreases |a|
  {
    if a != [] {
      CoveredAtMostSum(a[..|a| - 1]);
    }
  }

  ghost predicate Full(queues: Queues, produced: seq<nat>) {
    Sum(produced) == Min(MAX_CASES, Sum(Sizes(queues)))
  }

  /** No way to hand out at most ten cases covers more scenarios. */
  lemma CoverageIsMaximal(queues: Queues, produced: seq<nat>, a: seq<nat>)
    requires Allocation(queues, produced) && Fair(queues, produced) && Full(queues, produced)
    requires Allocation(queues, a) && Sum(a) <= MAX_CASES
    ensures Covered(a) <= Covered(produced)
  {
    if forall k :: 0 <= k < |queues| && a[k] > 0 ==> produced[k] > 0 {
      CoveredMonotone(a, produced);
    } else {
      var i :| 0 <= i < |queues| && a[i] > 0 && produced[i] == 0;
      assert forall j :: 0 <= j < |queues| ==> produced[j] <= produced[i] + 1;
      assert produced[i] < Sizes(queues)[i];
      SumMonotone(produced, Sizes(queues));
      CoveredAtMostSum(produced);
      CoveredAtMostSum(a);
    }
  }

  /** Max-min fairness: giving a scenario more would take from one that has at most one case more than it. */
  lemma AllocationIsMaxMin(queues: Queues, produced: seq<nat>, a: seq<nat>, i: nat) returns (j: nat)
    requires Fair(queues, produced) && Allocation(queues, a) && Sum(a) <= Sum(produced)
    requires i < |queues| && a[i] > produced[i]
    ensures j < |queues| && a[j] < produced[j] <= produced[i] + 1
  {
    if forall k :: 0 <= k < |queues| ==> produced[k] <= a[k] {
      SumMonotone(produced, a);
      assert false;
    }
    j :| 0 <= j < |queues| && a[j] < produced[j];
  }

  /** A scenario with a queue goes without only when the cap was reached. */
  lemma OnlyTheCapDrops(queues: Queues, produced: seq<nat>, i: nat)
    requires Allocation(queues, produced) && Full(queues, produced) && i < |queues| && produced[i] < |queues[i]|
    ensures Sum(produced) == MAX_CASES
  {
    assert produced[i] < Sizes(queues)[i];
    SumMonotone(produced, Sizes(queues));
  }

  predicate NoteAt(scenarios: seq<Scenario>, docModel: Option<string>, queues: Queues, produced: seq<nat>, n: Note,
        k: int)
    requires |scenarios| == |queues| == |produced|
  {
    0 <= k < |scenarios| && produced[k] == 0 && n == NoteOf(scenarios[k], docModel, queues[k])
  }

  ghost predicate Noted(scenarios: seq<Scenario>, docModel: Option<string>, queues: Queues, produced: seq<nat>, n: Note)
    requires |scenarios| == |queues| == |produced|
  {
    exists k :: NoteAt(scenarios, docModel, queues, produced, n, k)
  }

  lemma {:induction false} NotedFrom(scenarios: seq<Scenario>, docModel: Option<string>, queues: Queues,
        produced: seq<nat>, n: Note)
    requires |scenarios| == |queues| == |produced|
    ensures n in Unserved(scenarios, docModel, queues, produced) <==> Noted(scenarios, docModel, queues, produced, n)
    decreases |scenarios|
  {
    if scenarios != [] {
      var m := |scenarios| - 1;
      NotedFrom(scenarios[..m], docModel, queues[..m], produced[..m], n);
      if k :| NoteAt(scenarios[..m], docModel, queues[..m], produced[..m], n, k) {
        assert NoteAt(scenarios, docModel, queues, produced, n, k);
      }
      if k :| NoteAt(scenarios, docModel, queues, produced, n, k) {
        assert k == m || NoteAt(scenarios[..m], docModel, queues[..m], produced[..m], n, k);
      }
      assert NoteAt(scenarios, docModel, queues, produced, n, m) <==>
        produced[m] == 0 && n == NoteOf(scenarios[m], docModel, queues[m]);
    }
  }

  predicate UnservedAs(scenarios: seq<Scenario>, docModel: Option<string>, queues: Queues, cases: seq<Case>, n: Note,
        k: int)
    requires |scenarios| == |queues|
  {
    && 0 <= k < |scenarios| && Given(cases, k) == [] && n.scenario == scenarios[k].key
    && if queues[k] != [] then n.reason == CapReached
       else n.reason.NoMatch? && IsAbout(scenarios[k], docModel, n.reason.model)
  }

  /** The note speaks of exactly the scenarios that got no case. */
  lemma NotedIffUnserved(scenarios: seq<Scenario>, docModel: Option<string>, queues: Queues, produced: seq<nat>,
        cases: seq<Case>, n: Note)
    requires |scenarios| == |queues| && Accounts(queues, produced, cases)
    ensures n in Unserved(scenarios, docModel, queues, produced) <==>
      exists k :: UnservedAs(scenarios, docModel, queues, cases, n, k)
  {
    NotedFrom(scenarios, docModel, queues, produced, n);
    forall k | 0 <= k < |scenarios|
      ensures NoteAt(scenarios, docModel, queues, produced, n, k) <==>
        UnservedAs(scenarios, docModel, queues, cases, n, k)
    {
      assert Given(cases, k) == queues[k][..produced[k]];
    }
  }
}
