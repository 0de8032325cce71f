/** The tamper-evident call recorder, from install to finalize (runtime_observer.py). */
module Observer {
  import opened Orders
  import opened JsonDoc

  const MAX_EVENTS_PER_TARGET: nat := 20

  // ------------------------------------------------------------------------
  // The integrity decision
  // ------------------------------------------------------------------------

  /** The facts a run reports; a missing or mistyped one is None. */
  datatype Facts = Facts(
    traceInstalled: Option<bool>, traceStillInstalled: Option<bool>, traceChanged: Option<bool>,
    outputWritable: Option<bool>,
    heartbeats: Option<int>, minHeartbeats: Option<int>, eventsRecorded: Option<int>,
    targetsExpected: Option<int>, targetsHit: Option<int>)

  datatype Integrity = Sealed | Tampered | Incomplete | Absent

  datatype Reason =
    | NeverInstalled | NotStillInstalled | ChangedExternally | WritableOutput
    | FewHeartbeats(n: int, least: int) | NoEvents(n: int) | FewTargets(hit: int, expected: int) | OutputUnknown

  function IntOr(x: Option<int>, default: int): int {
    if x.Some? then x.value else default
  }

  predicate IsTrue(x: Option<bool>) {
    x.Some? && x.value
  }

  predicate IsFalse(x: Option<bool>) {
    x.Some? && !x.value
  }

  /** What is reported, the value of a missing number being its worst. */
  function Reported(x: Option<int>, worst: int): int {
    match x case None => worst case Some(n) => n
  }

  /** Too little was seen of the run. */
  predicate Shortfall(s: Facts, r: Reason) {
    match r
    case FewHeartbeats(n, least) => n == Reported(s.heartbeats, 0) && least == Reported(s.minHeartbeats, 1) && n < least
    case NoEvents(n) => n == Reported(s.eventsRecorded, 0) && n <= 0
    case FewTargets(hit, expected) =>
      hit == Reported(s.targetsHit, 0) && expected == Reported(s.targetsExpected, 0) && 0 < expected && hit < expected
    case _ => false
  }

  ghost predicate SomeShortfall(s: Facts) {
    exists r :: Shortfall(s, r)
  }

  lemma ShortfallIff(s: Facts)
    ensures SomeShortfall(s) <==>
              || Reported(s.heartbeats, 0) < Reported(s.minHeartbeats, 1) || Reported(s.eventsRecorded, 0) <= 0
              || (0 < Reported(s.targetsExpected, 0) && Reported(s.targetsHit, 0) < Reported(s.targetsExpected, 0))
  {
    var few := FewHeartbeats(Reported(s.heartbeats, 0), Reported(s.minHeartbeats, 1));
    var none := NoEvents(Reported(s.eventsRecorded, 0));
    var missed := FewTargets(Reported(s.targetsHit, 0), Reported(s.targetsExpected, 0));
    assert Reported(s.heartbeats, 0) < Reported(s.minHeartbeats, 1) ==> Shortfall(s, few);
    assert Reported(s.eventsRecorded, 0) <= 0 ==> Shortfall(s, none);
    assert 0 < missed.expected && missed.hit < missed.expected ==> Shortfall(s, missed);
  }

  /** Fails closed: only facts that are all present and good make a run sealed, and reasons say what was not. */
  method EvaluateIntegrity(s: Facts) returns (verdict: Integrity, reasons: seq<Reason>)
    ensures verdict == Sealed <==>
            && s.traceInstalled == Some(true) && s.traceStillInstalled == Some(true) && s.traceChanged != Some(true)
            && s.outputWritable == Some(false) && !SomeShortfall(s)
    ensures verdict == Absent <==> s.traceInstalled != Some(true)
    ensures verdict == Tampered <==>
            && s.traceInstalled == Some(true)
            && (s.traceStillInstalled != Some(true) || s.traceChanged == Some(true) || s.outputWritable == Some(true))
    ensures reasons == [] <==> verdict == Sealed
    ensures verdict == Absent ==> reasons == [NeverInstalled]
    ensures verdict == Tampered ==> forall r :: r in reasons <==>
              || (r == NotStillInstalled && s.traceStillInstalled != Some(true))
              || (r == ChangedExternally && s.traceChanged == Some(true))
              || (r == WritableOutput && s.outputWritable == Some(true))
    ensures verdict == Incomplete ==> forall r :: r in reasons <==>
              Shortfall(s, r) || (r == OutputUnknown && s.outputWritable == None && !SomeShortfall(s))
  {
    reasons := [];
    ShortfallIff(s);
    if !IsTrue(s.traceInstalled) {
      return Absent, [NeverInstalled];
    }
    if !IsTrue(s.traceStillInstalled) { reasons := reasons + [NotStillInstalled]; }
    if IsTrue(s.traceChanged) { reasons := reasons + [ChangedExternally]; }
    if IsTrue(s.outputWritable) { reasons := reasons + [WritableOutput]; }
    if reasons != [] {
      return Tampered, reasons;
    }
    var heartbeats, least := IntOr(s.heartbeats, 0), IntOr(s.minHeartbeats, 1);
    var expected, hit := IntOr(s.targetsExpected, 0), IntOr(s.targetsHit, 0);
    if heartbeats < least { reasons := reasons + [FewHeartbeats(heartbeats, least)]; }
    if IntOr(s.eventsRecorded, 0) <= 0 { reasons := reasons + [NoEvents(IntOr(s.eventsRecorded, 0))]; }
    if expected > 0 && hit < expected { reasons := reasons + [FewTargets(hit, expected)]; }
    if reasons != [] {
      return Incomplete, reasons;
    }
    if !IsFalse(s.outputWritable) {
      return Incomplete, [OutputUnknown];
    }
    return Sealed, [];
  }

  // ------------------------------------------------------------------------
  // The watch set
  // ------------------------------------------------------------------------

  /** A target method; no file is the empty string. */
  datatype Target = Target(id: Option<string>, file: string, span: seq<int>)

  type Place = (string, int)

  predicate Watchable(t: Target) {
    t.file != "" && t.span != []
  }

  function PlaceOf(t: Target): Place
    requires Watchable(t)
  {
    (Basename(t.file), t.span[0])
  }

  /** A later target at the same place replaces an earlier one. */
  function Watch(targets: seq<Target>): map<Place, Option<string>> {
    if targets == [] then map[]
    else
      var n := |targets| - 1;
      var before := Watch(targets[..n]);
      if Watchable(targets[n]) then before[PlaceOf(targets[n]) := targets[n].id] else before
  }

  lemma {:induction false} WatchedIsATarget(targets: seq<Target>, p: Place)
    requires p in Watch(targets)
    ensures exists t :: t in targets && Watchable(t) && PlaceOf(t) == p && t.id == Watch(targets)[p]
    decreases |targets|
  {
    var n := |targets| - 1;
    if Watchable(targets[n]) && PlaceOf(targets[n]) == p {
      assert targets[n] in targets;
    } else {
      WatchedIsATarget(targets[..n], p);
      var t :| t in targets[..n] && Watchable(t) && PlaceOf(t) == p && t.id == Watch(targets[..n])[p];
      assert t in targets;
    }
  }

  method WatchSet(targets: seq<Target>) returns (watched: map<Place, Option<string>>)
    ensures watched == Watch(targets)
  {
    watched := map[];
    for i := 0 to |targets|
      invariant watched == Watch(targets[..i])
    {
      assert targets[..i + 1][..i] == targets[..i];
      if Watchable(targets[i]) {
        watched := watched[PlaceOf(targets[i]) := targets[i].id];
      }
    }
    assert targets[..|targets|] == targets;
  }

  // ------------------------------------------------------------------------
  // Runs
  // ------------------------------------------------------------------------

  datatype Tracer = Nobody | Ours | Someone

  /** What the recorder keeps between install and finalize; an event is the id of the target called. */
  datatype State = State(targets: seq<Target>, watched: map<Place, Option<string>>, minHeartbeats: int,
                         events: seq<string>, counts: map<string, nat>, heartbeats: nat, baseline: nat)

  /** The interpreter's trace function, the audit hook's counter and whether the hook is in place. */
  datatype World = World(auditing: bool, calls: nat, current: Tracer, state: Option<State>)

  /** What can happen while the recorder is installed: it is invoked, or someone else calls `sys.settrace`
      or `sys.setprofile`. */
  datatype Step = Traced(event: string, file: string, line: int) | SetTrace(tracer: Tracer) | SetProfile

  function Installed(w: World, targets: seq<Target>, minHeartbeats: int, hookTaken: bool): World {
    var auditing := w.auditing || hookTaken;
    var calls := if auditing then w.calls + 1 else w.calls;
    World(auditing, calls, Ours, Some(State(targets, Watch(targets), minHeartbeats, [], map[], 0, calls)))
  }

  function HitBy(watched: map<Place, Option<string>>, step: Step): Option<string> {
    if step.Traced? && step.event == "call" && (Basename(step.file), step.line) in watched
    then watched[(Basename(step.file), step.line)]
    else None
  }

  function CountOf(counts: map<string, nat>, id: string): nat {
    if id in counts then counts[id] else 0
  }

  /** Recording stops for a target at the cap. */
  function Recorded(s: State, step: Step): State {
    var s' := s.(heartbeats := s.heartbeats + 1);
    var id := HitBy(s.watched, step);
    if id.None? || CountOf(s.counts, id.value) >= MAX_EVENTS_PER_TARGET then s'
    else s'.(counts := s.counts[id.value := CountOf(s.counts, id.value) + 1], events := s.events + [id.value])
  }

  function Audited(w: World): World {
    if w.auditing then w.(calls := w.calls + 1) else w
  }

  function After(w: World, step: Step): World {
    match step
    case Traced(_, _, _) => if w.state.Some? then w.(state := Some(Recorded(w.state.value, step))) else w
    case SetTrace(t) => Audited(w).(current := t)
    case SetProfile => Audited(w)
  }

  function Run(w: World, steps: seq<Step>): World {
    if steps == [] then w else After(Run(w, steps[..|steps| - 1]), steps[|steps| - 1])
  }

  function Distinctly(events: seq<string>): set<string> {
    set i | 0 <= i < |events| :: events[i]
  }

  /** What finalize reads back. */
  function FactsOf(w: World, outputWritable: Option<bool>, targetsExpected: Option<int>): Facts {
    match w.state
    case None =>
      Facts(Some(false), Some(false), Some(false), outputWritable, Some(0), Some(1), Some(0),
        Some(IntOr(targetsExpected, 0)), Some(0))
    case Some(s) =>
      Facts(Some(true), Some(w.current == Ours), Some(w.calls > s.baseline), outputWritable, Some(s.heartbeats),
            Some(s.minHeartbeats), Some(|s.events|), Some(IntOr(targetsExpected, |s.targets|)),
              Some(|Distinctly(s.events)|))
  }

  /** The module's own state, updated call by call. */
  class Recorder {
    var world: World

    constructor ()
      ensures world == World(false, 0, Nobody, None)
    {
      world := World(false, 0, Nobody, None);
    }

    /** `hookTaken` says whether the interpreter accepts the audit hook. */
    method Install(targets: seq<Target>, minHeartbeats: int, hookTaken: bool)
      modifies this
      ensures world == Installed(old(world), targets, minHeartbeats, hookTaken)
    {
      var watched := WatchSet(targets);
      var auditing := world.auditing;
      if !auditing {
        auditing := hookTaken;
      }
      var calls := world.calls;
      if auditing {
        calls := calls + 1;
      }
      world := World(auditing, calls, Ours, Some(State(targets, watched, minHeartbeats, [], map[], 0, calls)));
    }

    method Trace(event: string, file: string, line: int)
      modifies this
      ensures world == After(old(world), Traced(event, file, line))
    {
      if world.state.None? {
        return;
      }
      var s := world.state.value;
      s := s.(heartbeats := s.heartbeats + 1);
      world := world.(state := Some(s));
      var place := (Basename(file), line);
      if place !in s.watched || s.watched[place].None? {
        return;
      }
      var id := s.watched[place].value;
      if event == "call" {
        if CountOf(s.counts, id) >= MAX_EVENTS_PER_TARGET {
          return;
        }
        s := s.(counts := s.counts[id := CountOf(s.counts, id) + 1]);
        s := s.(events := s.events + [id]);
        world := world.(state := Some(s));
      }
    }

    /** The audit hook sees every call of `sys.settrace` and `sys.setprofile`. */
    method External(step: Step)
      requires !step.Traced?
      modifies this
      ensures world == After(old(world), step)
    {
      if world.auditing {
        world := world.(calls := world.calls + 1);
      }
      if step.SetTrace? {
        world := world.(current := step.tracer);
      }
    }

    method Finalize(outputWritable: Option<bool>, targetsExpected: Option<int>)
      returns (verdict: Integrity, reasons: seq<Reason>)
      modifies this
      ensures verdict == Verdict(old(world), outputWritable, targetsExpected)
      ensures reasons == [] <==> verdict == Sealed
      ensures world == After(old(world), SetTrace(Nobody))
    {
      verdict, reasons := EvaluateIntegrity(FactsOf(world, outputWritable, targetsExpected));
      ShortfallIff(FactsOf(world, outputWritable, targetsExpected));
      assert verdict.Sealed? || verdict.Tampered? || verdict.Incomplete? || verdict.Absent?;
      External(SetTrace(Nobody));
    }
  }

  /** The self-report the deploy gate reads (without what it counts). */
  function SelfReport(verdict: Integrity, digest: string, counts: map<string, Json>): Json {
    Obj(counts + map[
      "tool" := Str("runtime_observer"),
      "tool_digest" := Str(digest),
      "trace_integrity" := Str(match verdict
                               case Sealed => "sealed"
                               case Tampered => "tampered"
                               case Incomplete => "incomplete"
                               case Absent => "absent"),
      "sealed" := Bool(verdict == Sealed)])
  }

  lemma SelfReportIs(verdict: Integrity, digest: string, counts: map<string, Json>)
    ensures var p := SelfReport(verdict, digest, counts);
            && Get(p, "tool") == Str("runtime_observer")
            && Get(p, "sealed") == Bool(verdict == Sealed) && Get(p, "tool_digest") == Str(digest)
            && (Get(p, "trace_integrity") == Str("sealed") <==> verdict == Sealed)
            && (Get(p, "trace_integrity") == Str("tampered") <==> verdict == Tampered)
            && (Get(p, "trace_integrity") == Str("incomplete") <==> verdict == Incomplete)
            && (Get(p, "trace_integrity") == Str("absent") <==> verdict == Absent)
            && forall k :: k in counts && k !in {"tool", "tool_digest", "trace_integrity", "sealed"} ==>
                 Get(p, k) == counts[k]
  {
    var names := ["sealed", "tampered", "incomplete", "absent"];
    assert forall i, j :: 0 <= i < j < 4 ==> names[i][0] != names[j][0];
  }

  function Verdict(w: World, outputWritable: Option<bool>, targetsExpected: Option<int>): Integrity {
    var f := FactsOf(w, outputWritable, targetsExpected);
    if w.state.None? then Absent
    else if w.current != Ours || w.calls > w.state.value.baseline || IsTrue(outputWritable) then Tampered
    else if f.heartbeats.value < f.minHeartbeats.value || f.eventsRecorded.value <= 0
            || (f.targetsExpected.value > 0 && f.targetsHit.value < f.targetsExpected.value) || outputWritable.None?
    then Incomplete
    else Sealed
  }

  // ------------------------------------------------------------------------
  // What a whole run adds up to
  // ------------------------------------------------------------------------

  /** Calls of a target in a run, capped or not. */
  function CallsOf(watched: map<Place, Option<string>>, steps: seq<Step>, id: string): nat {
    if steps == [] then 0
    else CallsOf(watched, steps[..|steps| - 1], id) + if HitBy(watched, steps[|steps| - 1]) == Some(id) then 1 else 0
  }

  function Invocations(steps: seq<Step>): nat {
    if steps == [] then 0 else Invocations(steps[..|steps| - 1]) + if steps[|steps| - 1].Traced? then 1 else 0
  }

  /** Calls of `sys.settrace` or `sys.setprofile` by anyone else. */
  function Intrusions(steps: seq<Step>): nat {
    if steps == [] then 0 else Intrusions(steps[..|steps| - 1]) + if steps[|steps| - 1].Traced? then 0 else 1
  }

  function LastSet(steps: seq<Step>): Tracer {
    if steps == [] then Ours
    else if steps[|steps| - 1].SetTrace? then steps[|steps| - 1].tracer
    else LastSet(steps[..|steps| - 1])
  }

  function CalledIds(watched: map<Place, Option<string>>, steps: seq<Step>): set<string> {
    set i | 0 <= i < |steps| && HitBy(watched, steps[i]).Some? :: HitBy(watched, steps[i]).value
  }

  function Capped(n: nat): nat {
    if n <= 20 then n else 20
  }

  /** The state kept is determined by the run's totals. */
  ghost predicate Tells(w: World, start: State, auditing: bool, steps: seq<Step>) {
    w.state.Some? && w.auditing == auditing
    && w.current == LastSet(steps)
    && w.calls == start.baseline + (if auditing then Intrusions(steps) else 0)
    && var s := w.state.value;
       (s.targets, s.watched, s.minHeartbeats, s.baseline) ==
         (start.targets, start.watched, start.minHeartbeats, start.baseline)
       && s.heartbeats == Invocations(steps)
       && forall id :: CountOf(s.counts, id) == multiset(s.events)[id] == Capped(CallsOf(s.watched, steps, id))
  }

  lemma RecordingTells(s: State, s': State, steps: seq<Step>, step: Step)
    requires step.Traced? && s' == Recorded(s, step)
    requires forall id :: CountOf(s.counts, id) == multiset(s.events)[id] == Capped(CallsOf(s.watched, steps, id))
    ensures forall id ::
      CountOf(s'.counts, id) == multiset(s'.events)[id] == Capped(CallsOf(s.watched, steps + [step], id))
  {
    assert (steps + [step])[..|steps|] == steps;
    var hit := HitBy(s.watched, step);
    forall id ensures CountOf(s'.counts, id) == multiset(s'.events)[id] ==
      Capped(CallsOf(s.watched, steps + [step], id)) {
      assert CallsOf(s.watched, steps + [step], id) == CallsOf(s.watched, steps, id) + if hit == Some(id) then 1 else 0;
    }
  }

  /** Whatever happens between install and finalize, the recorder's state is what the run's totals say: the counter
      counts every intrusion, and each target is recorded as often as it was called, up to the cap. */
  lemma {:induction false} RunTells(w: World, targets: seq<Target>, minHeartbeats: int, hookTaken: bool,
        steps: seq<Step>)
    ensures var w0 := Installed(w, targets, minHeartbeats, hookTaken);
            Tells(Run(w0, steps), w0.state.value, w0.auditing, steps)
    decreases |steps|
  {
    var w0 := Installed(w, targets, minHeartbeats, hookTaken);
    if steps != [] {
      var n := |steps| - 1;
      RunTells(w, targets, minHeartbeats, hookTaken, steps[..n]);
      var before := Run(w0, steps[..n]);
      assert steps == steps[..n] + [steps[n]];
      if steps[n].Traced? {
        RecordingTells(before.state.value, Recorded(before.state.value, steps[n]), steps[..n], steps[n]);
      } else {
        forall id ensures CallsOf(w0.state.value.watched, steps, id) ==
          CallsOf(w0.state.value.watched, steps[..n], id) {
        }
      }
    }
  }

  lemma {:induction false} CalledIffCounted(watched: map<Place, Option<string>>, steps: seq<Step>, id: string)
    ensures id in CalledIds(watched, steps) <==> CallsOf(watched, steps, id) > 0
    decreases |steps|
  {
    if steps != [] {
      var n := |steps| - 1;
      CalledIffCounted(watched, steps[..n], id);
      if id in CalledIds(watched, steps[..n]) {
        var i :| 0 <= i < n && HitBy(watched, steps[..n][i]) == Some(id);
        assert HitBy(watched, steps[i]).Some? && HitBy(watched, steps[i]).value == id;
      }
      if id in CalledIds(watched, steps) {
        var i :| 0 <= i < |steps| && HitBy(watched, steps[i]) == Some(id);
        assert i < n ==> HitBy(watched, steps[..n][i]).Some? && HitBy(watched, steps[..n][i]).value == id;
      }
    }
  }

  /** The cap on events never changes which targets count as hit. */
  lemma CapKeepsHits(w: World, targets: seq<Target>, minHeartbeats: int, hookTaken: bool, steps: seq<Step>)
    ensures var end := Run(Installed(w, targets, minHeartbeats, hookTaken), steps);
            end.state.Some? && Distinctly(end.state.value.events) == CalledIds(Watch(targets), steps)
  {
    RunTells(w, targets, minHeartbeats, hookTaken, steps);
    var s := Run(Installed(w, targets, minHeartbeats, hookTaken), steps).state.value;
    forall id ensures id in Distinctly(s.events) <==> id in CalledIds(Watch(targets), steps) {
      CalledIffCounted(Watch(targets), steps, id);
      assert id in Distinctly(s.events) <==> id in multiset(s.events);
    }
  }

  /** Exactly when a run is sealed, told from what happened in it. */
  lemma SealedIff(w: World, targets: seq<Target>, minHeartbeats: int, hookTaken: bool, steps: seq<Step>,
                  outputWritable: Option<bool>, targetsExpected: Option<int>)
    ensures var end := Run(Installed(w, targets, minHeartbeats, hookTaken), steps);
            var called := CalledIds(Watch(targets), steps);
            Verdict(end, outputWritable, targetsExpected) == Sealed <==>
            LastSet(steps) == Ours && (w.auditing || hookTaken ==> Intrusions(steps) == 0)
            && outputWritable == Some(false) && Invocations(steps) >= minHeartbeats && called != {}
            && |called| >= Reported(targetsExpected, |targets|)
  {
    var end := Run(Installed(w, targets, minHeartbeats, hookTaken), steps);
    RunTells(w, targets, minHeartbeats, hookTaken, steps);
    CapKeepsHits(w, targets, minHeartbeats, hookTaken, steps);
    SomeRecorded(end.state.value.events);
    VerdictSealed(end, end.state.value, outputWritable, targetsExpected);
  }

  lemma VerdictSealed(end: World, s: State, outputWritable: Option<bool>, targetsExpected: Option<int>)
    requires end.state == Some(s)
    ensures Verdict(end, outputWritable, targetsExpected) == Sealed <==>
            end.current == Ours && end.calls <= s.baseline && IsFalse(outputWritable)
            && s.heartbeats >= s.minHeartbeats && |s.events| > 0
            && (IntOr(targetsExpected, |s.targets|) > 0 ==>
              |Distinctly(s.events)| >= IntOr(targetsExpected, |s.targets|))
  {
  }

  lemma SomeRecorded(events: seq<string>)
    ensures |events| > 0 <==> Distinctly(events) != {}
  {
    if |events| > 0 { assert events[0] in Distinctly(events); }
  }

  function IdsOf(targets: seq<Target>): set<string> {
    set i | 0 <= i < |targets| && targets[i].id.Some? :: targets[i].id.value
  }

  lemma IdsLast(targets: seq<Target>)
    requires targets != []
    ensures var n := |targets| - 1;
            IdsOf(targets) == IdsOf(targets[..n]) + if targets[n].id.Some? then {targets[n].id.value} else {}
  {
    var n := |targets| - 1;
    forall x | x in IdsOf(targets[..n]) ensures x in IdsOf(targets) {
      var i :| 0 <= i < n && targets[..n][i].id == Some(x);
      assert targets[i].id.Some? && targets[i].id.value == x;
    }
  }

  lemma {:induction false} IdsAtMost(targets: seq<Target>)
    ensures |IdsOf(targets)| <= |targets|
    ensures |IdsOf(targets)| == |targets| ==>
              (forall i :: 0 <= i < |targets| ==> targets[i].id.Some?)
              && forall i, j :: 0 <= i < j < |targets| ==> targets[i].id != targets[j].id
    decreases |targets|
  {
    if targets != [] {
      var n := |targets| - 1;
      IdsAtMost(targets[..n]);
      IdsLast(targets);
      if |IdsOf(targets)| == |targets| {
        assert targets[n].id.Some? && targets[n].id.value !in IdsOf(targets[..n]);
        forall i | 0 <= i < n ensures targets[i].id.Some? && targets[i].id != targets[n].id {
          assert targets[..n][i].id.Some?;
          assert targets[..n][i].id.value in IdsOf(targets[..n]);
        }
      }
    }
  }

  lemma {:induction false} SubsetIsAll(a: set<string>, b: set<string>)
    requires a <= b && |a| >= |b|
    ensures a == b
  {
    assert b == a + (b - a);
  }

  lemma CalledAreTargets(targets: seq<Target>, steps: seq<Step>)
    ensures CalledIds(Watch(targets), steps) <= IdsOf(targets)
  {
    forall id | id in CalledIds(Watch(targets), steps) ensures id in IdsOf(targets) {
      var i :| 0 <= i < |steps| && HitBy(Watch(targets), steps[i]) == Some(id);
      WatchedIsATarget(targets, (Basename(steps[i].file), steps[i].line));
    }
  }

  ghost predicate CalledAt(t: Target, steps: seq<Step>) {
    exists i :: 0 <= i < |steps| && CallAt(t, steps[i])
  }

  /** The call of a function in a file of the target's name that starts where the target does. */
  predicate CallAt(t: Target, step: Step) {
    && t.file != "" && t.span != []
    && step.Traced? && step.event == "call" && Basename(step.file) == Basename(t.file) && step.line == t.span[0]
  }

  /** A sealed run that expected (at least) as many targets as it was given: nobody touched the tracer while the
      audit hook was active, the ids are distinct, and every target was called at its own place. */
  lemma SealedMeansCalled(w: World, targets: seq<Target>, minHeartbeats: int, hookTaken: bool, steps: seq<Step>,
                          outputWritable: Option<bool>, targetsExpected: Option<int>)
    requires Verdict(Run(Installed(w, targets, minHeartbeats, hookTaken), steps), outputWritable, targetsExpected) ==
      Sealed
    ensures w.auditing || hookTaken ==> forall i :: 0 <= i < |steps| ==> steps[i].Traced?
    ensures IntOr(targetsExpected, |targets|) >= |targets| ==>
              (forall i, j :: 0 <= i < j < |targets| ==> targets[i].id != targets[j].id)
              && forall i :: 0 <= i < |targets| ==> targets[i].id.Some? && CalledAt(targets[i], steps)
  {
    SealedIff(w, targets, minHeartbeats, hookTaken, steps, outputWritable, targetsExpected);
    if w.auditing || hookTaken { NoIntrusions(steps); }
    if IntOr(targetsExpected, |targets|) >= |targets| {
      CalledAreTargets(targets, steps);
      IdsAtMost(targets);
      EnoughCalled(targets, steps);
    }
  }

  /** One observed run, from what was there before to what finalize was told. */
  datatype Session = Session(
    before: World, targets: seq<Target>, minHeartbeats: int, hookTaken: bool, steps: seq<Step>,
    outputWritable: Option<bool>, targetsExpected: Option<int>)

  function Ending(x: Session): Integrity {
    Verdict(Run(Installed(x.before, x.targets, x.minHeartbeats, x.hookTaken), x.steps), x.outputWritable,
      x.targetsExpected)
  }

  /** Under the audit hook, nobody else touched the tracer. */
  ghost predicate Undisturbed(x: Session) {
    x.before.auditing || x.hookTaken ==> forall i :: 0 <= i < |x.steps| ==> x.steps[i].Traced?
  }

  /** If as many targets were expected as were given, each was called at its own place. */
  ghost predicate Entered(x: Session) {
    IntOr(x.targetsExpected, |x.targets|) >= |x.targets| ==>
      forall i :: 0 <= i < |x.targets| ==> CalledAt(x.targets[i], x.steps)
  }

  lemma SealedSession(x: Session)
    requires Ending(x) == Sealed
    ensures Undisturbed(x) && Entered(x)
  {
    SealedMeansCalled(x.before, x.targets, x.minHeartbeats, x.hookTaken, x.steps, x.outputWritable, x.targetsExpected);
  }

  lemma {:induction false} NoIntrusions(steps: seq<Step>)
    requires Intrusions(steps) == 0
    ensures forall i :: 0 <= i < |steps| ==> steps[i].Traced?
    decreases |steps|
  {
    if steps != [] {
      NoIntrusions(steps[..|steps| - 1]);
      assert forall i :: 0 <= i < |steps| - 1 ==> steps[i] == steps[..|steps| - 1][i];
    }
  }

  lemma EnoughCalled(targets: seq<Target>, steps: seq<Step>)
    requires targets != [] ==> |CalledIds(Watch(targets), steps)| >= |targets|
    ensures forall i, j :: 0 <= i < j < |targets| ==> targets[i].id != targets[j].id
    ensures forall i :: 0 <= i < |targets| ==> targets[i].id.Some? && CalledAt(targets[i], steps)
  {
    if targets != [] {
      CalledAreTargets(targets, steps);
      IdsAtMost(targets);
      CalledNoMore(targets, steps);
      SubsetIsAll(CalledIds(Watch(targets), steps), IdsOf(targets));
      forall k | 0 <= k < |targets| ensures CalledAt(targets[k], steps) {
        assert targets[k].id.value in CalledIds(Watch(targets), steps);
        CalledInPlace(targets, steps, k);
      }
    }
  }

  lemma CalledNoMore(targets: seq<Target>, steps: seq<Step>)
    ensures |CalledIds(Watch(targets), steps)| <= |IdsOf(targets)|
  {
    CalledAreTargets(targets, steps);
    var a, b := CalledIds(Watch(targets), steps), IdsOf(targets);
    assert b == a + (b - a);
  }

  lemma CalledInPlace(targets: seq<Target>, steps: seq<Step>, k: nat)
    requires k < |targets| && targets[k].id.Some? && targets[k].id.value in CalledIds(Watch(targets), steps)
    requires forall i, j :: 0 <= i < j < |targets| ==> targets[i].id != targets[j].id
    ensures CalledAt(targets[k], steps)
  {
    var i :| 0 <= i < |steps| && HitBy(Watch(targets), steps[i]) == targets[k].id;
    var place := (Basename(steps[i].file), steps[i].line);
    WatchedIsATarget(targets, place);
    var t :| t in targets && Watchable(t) && PlaceOf(t) == place && t.id == Watch(targets)[place];
    var j :| 0 <= j < |targets| && targets[j] == t;
    assert j == k;
    assert CallAt(targets[k], steps[i]);
  }

  /** Without the audit hook, switching the recorder off and back on leaves no mark at all. */
  lemma UnauditedIntrusionIsInvisible(w: World, targets: seq<Target>, minHeartbeats: int, steps: seq<Step>)
    requires !w.auditing && LastSet(steps) == Ours
    ensures var w0 := Installed(w, targets, minHeartbeats, false);
            Run(w0, steps + [SetTrace(Nobody)] + [SetTrace(Ours)]) == Run(w0, steps)
  {
    RunTells(w, targets, minHeartbeats, false, steps);
    var off := steps + [SetTrace(Nobody)];
    assert off[..|steps|] == steps && (off + [SetTrace(Ours)])[..|off|] == off;
  }
}
