/** What a verdict of the deploy gate guarantees: approvals have nothing itemised, the policy step and the strict mode
    only ever tighten, and a strict approval is bound to verified envelopes and, through the evidence producers, to
    what was run and covered (deploy_gate.py, runtime_path_probe.py, changed_coverage_gate.py). */
module GateTheorems {
  import opened Orders
  import opened JsonDoc
  import opened Provenance
  import opened Producers
  import opened Gate
  import opened Attestations
  import Observer

  // ------------------------------------------------------------------------
  // Approval and the policy step
  // ------------------------------------------------------------------------

  lemma NothingToDetail(d: Decision, detail: seq<Entry>)
    requires Details(d, detail) && d.blocking == [] && d.missing == {} && d.approvals == []
    ensures detail == []
  {
    HeadIsMember(detail);
  }

  lemma HeadIsMember<T>(s: seq<T>)
    ensures s != [] ==> s[0] in s
  { }

  /** An approving decision has nothing to itemise, so the policy step finds nothing to act on and
      its downgrade of an approval can never happen. */
  lemma ApprovalIsClean(ci: Ci, b: Bundle, o: Options, r: Report)
    requires IsReport(ci, b, o, r) && r.base.verdict == Approve
    ensures r.detail == [] && r.verdict == Approve
    ensures forall severities :: !Triggers(r.detail, severities)
  {
    NothingToDetail(r.base, r.detail);
  }

  /** The policy step only ever tightens a verdict, and turns it into nothing but a block. */
  lemma PolicyNeverLoosens(ci: Ci, b: Bundle, o: Options, r: Report)
    requires IsReport(ci, b, o, r)
    ensures Rank(r.verdict) >= Rank(r.base.verdict)
    ensures r.verdict == r.base.verdict || r.verdict == Block
  {
    if r.base.verdict == Approve {
      ApprovalIsClean(ci, b, o, r);
    }
  }

  // ------------------------------------------------------------------------
  // Strict against legacy
  // ------------------------------------------------------------------------

  /** Agreement on everything the older artifacts say. */
  predicate AgreeOnCore(l: Signals, s: Signals) {
    && l.validateBlocking == s.validateBlocking && l.validateWarning == s.validateWarning
    && l.upgradeBlocking == s.upgradeBlocking && l.upgradeWarning == s.upgradeWarning
    && l.envDiffHigh == s.envDiffHigh && l.scenarioTier == s.scenarioTier
    && l.superuser == s.superuser && l.securityWarnings == s.securityWarnings
    && l.traceError == s.traceError && l.secrets == s.secrets
    && l.touchesSecurity == s.touchesSecurity && l.touchesController == s.touchesController
    && l.sensitiveModel == s.sensitiveModel
  }

  lemma CoreSignalsAgree(b: Bundle, flags: Flags)
    ensures AgreeOnCore(Assemble(Consumed(b, false), flags), Assemble(Consumed(b, true), flags))
  {
    var l, s := Consumed(b, false), Consumed(b, true);
    forall a | a in LEGACY_NAMES ensures Read(l, a) == Read(s, a) { }
  }

  lemma CoreBlocksAgree(l: Signals, s: Signals, kl: Checks, ks: Checks, f: Finding)
    requires AgreeOnCore(l, s) && !kl.strict && Blocks(l, kl, f)
    ensures Blocks(s, ks, f)
  { }

  lemma StrictMissesMore(ci: Ci, b: Bundle, l: Assessment, s: Assessment)
    requires Checked(ci, b, false, l) && Checked(ci, b, true, s) && l.flags == s.flags
    ensures (l.doubtful ==> s.doubtful) && l.required * l.absent <= s.required * s.absent
  {
    forall a | a in l.required * l.absent ensures a in s.required * s.absent {
      assert a in LEGACY_NAMES && a !in l.evidence && a !in s.evidence;
    }
    if SomeDoubtful(b, NamesRead(false)) {
      var a :| a in NamesRead(false) && Doubtful(a, FilesOf(b, a));
      assert a in NamesRead(true);
    }
  }

  lemma StrictClassifiesAlike(b: Bundle, l: Assessment, s: Assessment)
    requires Classified(l) && Classified(s) && l.flags == s.flags
    requires l.evidence == Consumed(b, false) && s.evidence == Consumed(b, true)
    ensures AgreeOnCore(l.signals, s.signals) && l.tier == s.tier
  {
    CoreSignalsAgree(b, l.flags);
    TierAgrees(l, s);
  }

  lemma TierAgrees(l: Assessment, s: Assessment)
    requires AgreeOnCore(l.signals, s.signals)
    requires (l.tier == Critical <==> IsCritical(l.signals)) && (s.tier == Critical <==> IsCritical(s.signals))
    requires l.tier == Normal <==> !IsCritical(l.signals) && !IsElevated(l.signals)
    requires s.tier == Normal <==> !IsCritical(s.signals) && !IsElevated(s.signals)
    ensures l.tier == s.tier
  { }

  /** On one bundle and policy, strict finds at least what legacy finds. */
  lemma StrictFindsMore(ci: Ci, b: Bundle, policyFile: PolicyFile, policyEnv: set<string>, l: Report, s: Report)
    requires IsReport(ci, b, Options(false, policyFile, policyEnv), l)
    requires IsReport(ci, b, Options(true, policyFile, policyEnv), s)
    ensures forall f :: f in l.base.blocking ==> f in s.base.blocking
    ensures forall a :: a in l.base.approvals <==> a in s.base.approvals
    ensures l.base.missing <= s.base.missing
    ensures l.seen.tier == s.seen.tier && (l.seen.doubtful ==> s.seen.doubtful)
  {
    StrictMissesMore(ci, b, l.seen, s.seen);
    StrictClassifiesAlike(b, l.seen, s.seen);
    forall f | f in l.base.blocking ensures f in s.base.blocking {
      CoreBlocksAgree(l.seen.signals, s.seen.signals, Checks(false, ci.expectedProbe, l.seen.failures),
                      Checks(true, ci.expectedProbe, s.seen.failures), f);
    }
  }

  /** The strict verdict is never more permissive than the legacy one. */
  lemma StrictIsNoLooser(ci: Ci, b: Bundle, policyFile: PolicyFile, policyEnv: set<string>, l: Report, s: Report)
    requires IsReport(ci, b, Options(false, policyFile, policyEnv), l)
    requires IsReport(ci, b, Options(true, policyFile, policyEnv), s)
    ensures Rank(s.verdict) >= Rank(l.verdict)
  {
    StrictFindsMore(ci, b, policyFile, policyEnv, l, s);
    BaseNoLooser(l.base, s.base, l.seen, s.seen);
    DetailsGrow(l.base, s.base, l.detail, s.detail);
    EnforcedNoLooser(l.base.verdict, s.base.verdict, l.detail, s.detail,
                     ResolvePolicy(policyFile, b.policyFile, policyEnv), b.signoff);
  }

  lemma DetailsGrow(l: Decision, s: Decision, detailL: seq<Entry>, detailS: seq<Entry>)
    requires Details(l, detailL) && Details(s, detailS)
    requires (forall f :: f in l.blocking ==> f in s.blocking) && l.missing <= s.missing
    requires forall a :: a in l.approvals <==> a in s.approvals
    ensures forall e :: e in detailL ==> e in detailS
  { }

  lemma EnforcedNoLooser(l: Verdict, s: Verdict, detailL: seq<Entry>, detailS: seq<Entry>,
                         policy: Option<Policy>, signoff: PolicyFile)
    requires Rank(s) >= Rank(l) && forall e :: e in detailL ==> e in detailS
    ensures Rank(Enforced(s, detailS, policy, signoff)) >= Rank(Enforced(l, detailL, policy, signoff))
  {
    if policy.Some? && Triggers(detailL, policy.value.severities) {
      var e :| e in detailL && Severity(e) in policy.value.severities;
      assert e in detailS;
    }
  }

  lemma BaseNoLooser(l: Decision, s: Decision, seenL: Assessment, seenS: Assessment)
    requires l.verdict == (if l.blocking != [] then Block
                           else if seenL.tier != Normal || l.missing != {} || seenL.doubtful || l.approvals != []
                           then NeedsHuman
                           else Approve)
    requires s.verdict == (if s.blocking != [] then Block
                           else if seenS.tier != Normal || s.missing != {} || seenS.doubtful || s.approvals != []
                                   || seenS.signals.noTargets then NeedsHuman
                           else Approve)
    requires (forall f :: f in l.blocking ==> f in s.blocking) && (forall a :: a in l.approvals <==> a in s.approvals)
    requires l.missing <= s.missing && seenL.tier == seenS.tier && (seenL.doubtful ==> seenS.doubtful)
    ensures Rank(s.verdict) >= Rank(l.verdict)
  {
    assert l.blocking != [] ==> l.blocking[0] in s.blocking;
    assert l.approvals != [] ==> l.approvals[0] in s.approvals;
  }

  // ------------------------------------------------------------------------
  // What a strict approval rests on
  // ------------------------------------------------------------------------

  /** What an assessment without doubts or missing evidence says about its parts. */
  lemma SoundAssessment(ci: Ci, b: Bundle, n: Assessment)
    requires Checked(ci, b, true, n) && n.required * n.absent == {} && !n.doubtful
    ensures !Unpinned(ci, b, n.signals) && Attested(ci, b, n.evidence, n.required)
    ensures n.evidence == Consumed(b, true) && n.required - {Attestation} <= n.evidence.Keys
    ensures CORE_REQUIRED_V2 <= n.required
  {
    StrictRequirements(n.flags);
    NotAbsent(n.required, n.absent, Attestation);
    forall a | a in n.required - {Attestation} ensures a in n.evidence {
      NotAbsent(n.required, n.absent, a);
    }
  }

  lemma NotAbsent(required: set<Artifact>, absent: set<Artifact>, a: Artifact)
    requires required * absent == {} && a in required
    ensures a !in absent
  {
    assert a !in required * absent;
  }

  lemma StrictRequirements(flags: Flags)
    ensures CORE_REQUIRED_V2 <= Required(flags, true)
    ensures Required(flags, true) - {Attestation} <= NamesRead(true)
  { }

  lemma KeyedIsTruthy(d: Json, k: string)
    requires Get(d, k).Obj?
    ensures Truthy(d)
  { }

  lemma RuntimeIsPresent(b: Bundle, n: Assessment)
    requires Classified(n) && n.evidence == Consumed(b, true) && RuntimePath in n.evidence
    ensures n.signals.runtimePresent
  {
    ReadIsValid(b, RuntimePath);
    KeyedIsTruthy(n.evidence[RuntimePath].json, "summary");
    RuntimeSignal(n.evidence, n.flags);
  }

  lemma RuntimeSignal(ev: Evidence, flags: Flags)
    ensures Assemble(ev, flags).runtimePresent == Truthy(Read(ev, RuntimePath))
  { }

  lemma RequiredIsBound(ci: Ci, b: Bundle, s: Signals, ev: Evidence, req: set<Artifact>, a: Artifact)
    requires !Unpinned(ci, b, s) && Attested(ci, b, ev, req) && a in req && a != Attestation && a in ev
    ensures BoundToHead(ci, b, a, ev[a].bytes)
  {
    assert Vouched(ci, b.envelopes, a, ev[a].bytes);
    BoundMeans(ci, b.envelopes, a, ev[a].bytes);
  }

  lemma ObserverIsPinned(s: Signals, k: Checks)
    requires k.strict && s.runtimePresent && k.probe != "" && forall f :: !Blocks(s, k, f)
    ensures Sealed(s) && s.observerDigest == Str(k.probe)
  {
    assert !Blocks(s, k, ObserverNotSealed) && !Blocks(s, k, ObserverSwapped);
  }

  /** A strict approval means every required artifact was read, and its bytes are bound by a verified
      envelope that hashes them, names it and carries the CI head; the runtime observer is sealed
      under the pinned digest. */
  lemma StrictApprovalIsBound(ci: Ci, b: Bundle, o: Options, r: Report)
    requires IsReport(ci, b, o, r) && o.strict && r.verdict == Approve
    ensures CORE_REQUIRED_V2 <= r.seen.required
    ensures forall a :: a in r.seen.required && a != Attestation ==>
              a in r.seen.evidence && BoundToHead(ci, b, a, r.seen.evidence[a].bytes)
    ensures Sealed(r.seen.signals) && ci.expectedProbe != "" && r.seen.signals.observerDigest == Str(ci.expectedProbe)
  {
    PolicyNeverLoosens(ci, b, o, r);
    var k := Checks(true, ci.expectedProbe, r.seen.failures);
    ApprovedDecision(r.seen, k, r.base);
    SoundlyBound(ci, b, r.seen);
    RuntimeIsPresent(b, r.seen);
    ObserverIsPinned(r.seen.signals, k);
  }

  lemma SoundlyBound(ci: Ci, b: Bundle, n: Assessment)
    requires Checked(ci, b, true, n) && n.required * n.absent == {} && !n.doubtful
    ensures CORE_REQUIRED_V2 <= n.required && RuntimePath in n.evidence && n.evidence == Consumed(b, true)
    ensures n.signals.runtimePresent ==> ci.expectedProbe != ""
    ensures forall a :: a in n.required && a != Attestation ==>
              a in n.evidence && BoundToHead(ci, b, a, n.evidence[a].bytes)
  {
    SoundAssessment(ci, b, n);
    AllRequiredAreBound(ci, b, n.signals, n.evidence, n.required);
    PinnedProbe(ci, b, n.signals);
    RuntimeIsCore();
  }

  lemma AllRequiredAreBound(ci: Ci, b: Bundle, s: Signals, ev: Evidence, req: set<Artifact>)
    requires !Unpinned(ci, b, s) && Attested(ci, b, ev, req) && req - {Attestation} <= ev.Keys
    ensures forall a :: a in req && a != Attestation ==> a in ev && BoundToHead(ci, b, a, ev[a].bytes)
  {
    forall a | a in req && a != Attestation ensures a in ev && BoundToHead(ci, b, a, ev[a].bytes) {
      assert a in req - {Attestation};
      RequiredIsBound(ci, b, s, ev, req, a);
    }
  }

  lemma PinnedProbe(ci: Ci, b: Bundle, s: Signals)
    requires !Unpinned(ci, b, s)
    ensures s.runtimePresent ==> ci.expectedProbe != ""
  { }

  lemma RuntimeIsCore()
    ensures RuntimePath in CORE_REQUIRED_V2 && RuntimePath != Attestation
  { }

  /** Some envelope in the bundle verifies, carries exactly the CI head and the hash of `bytes`, and names `a`. */
  ghost predicate BoundToHead(ci: Ci, b: Bundle, a: Artifact, bytes: Bytes) {
    ci.expectedHead != "" && exists env ::
      && Envelope(env) in b.envelopes && Verified(ci.crypto, env, ci.key)
      && Get(Get(env, "subject"), "head_sha") == Str(ci.expectedHead)
      && Get(Get(env, "artifact"), "sha256") == Str("sha256:" + ci.crypto.sha256(bytes))
      && Get(env, "artifact_name").Str? && IsNameOf(Get(env, "artifact_name").s, a)
  }

  lemma ApprovedDecision(n: Assessment, k: Checks, d: Decision)
    requires Decides(n.signals, n.tier, k, n.absent, n.required, n.doubtful, d) && d.verdict == Approve
    ensures (forall f :: !Blocks(n.signals, k, f)) && n.required * n.absent == {} && !n.doubtful
    ensures k.strict ==> !n.signals.noTargets
  {
    forall f ensures !Blocks(n.signals, k, f) { assert f !in d.blocking; }
  }

  /** What the gate reads for an artifact has the shape its kind demands. */
  lemma ReadIsValid(b: Bundle, a: Artifact)
    requires a in Consumed(b, true)
    ensures ArtifactValid(a, Consumed(b, true)[a].json)
  {
    var docs := Readable(a, FilesOf(b, a));
    ReadableSound(a, FilesOf(b, a));
    WorstIsWorst(a, docs);
  }

  // ------------------------------------------------------------------------
  // End to end with the producers
  // ------------------------------------------------------------------------

  /** The document lists these target ids in order. */
  ghost predicate ListsTargets(d: Json, ids: seq<Json>) {
    var ts := Get(d, "targets");
    ts.List? && |ts.items| == |ids| &&
    forall k :: 0 <= k < |ids| ==> ts.items[k].Obj? && Get(ts.items[k], "target_id") == ids[k]
  }

  function PathIds(report: PathReport): seq<Json> {
    seq(|report.results|, k requires 0 <= k < |report.results| => report.results[k].targetId)
  }

  function CoverageIds(report: CoverageReport): seq<Json> {
    seq(|report.results|, k requires 0 <= k < |report.results| => report.results[k].targetId)
  }

  /** A document that carries a runtime report, whatever else it carries. */
  ghost predicate CarriesPath(d: Json, report: PathReport) {
    Get(Get(d, "summary"), "unbound") == Int(report.unbound) && ListsTargets(d, PathIds(report))
  }

  ghost predicate CarriesCoverage(d: Json, report: CoverageReport) {
    Get(d, "ok") == Bool(report.ok) && ListsTargets(d, CoverageIds(report))
  }

  /** What the producers write is such a document, also once the observer's self-report is added to it. */
  lemma WrittenReportsCarry(path: PathReport, observations: Json, coverage: CoverageReport, warnings: Json,
        producer: Json)
    ensures CarriesPath(Obj(PathReportJson(path, observations, warnings)), path)
    ensures CarriesPath(Obj(PathReportJson(path, observations, warnings)["producer" := producer]), path)
    ensures CarriesCoverage(Obj(CoverageReportJson(coverage, warnings)), coverage)
    ensures ShowsPath(Obj(PathReportJson(path, observations, warnings)), path)
    ensures ShowsCoverage(Obj(CoverageReportJson(coverage, warnings)), coverage)
  {
    PathIsShown(path, observations, warnings);
    CoverageIsShown(coverage, warnings);
  }

  /** The rest of what the document says of the report. */
  ghost predicate ShowsPath(d: Json, path: PathReport) {
    var summary, ts := Get(d, "summary"), Get(d, "targets");
    && Get(summary, "targets") == Int(path.targets) && Get(summary, "bound") == Int(path.bound)
    && Get(d, "unbound_targets") == List(path.unboundIds)
    && ts.List? && |ts.items| == |path.results|
    && forall k :: 0 <= k < |path.results| ==> Get(ts.items[k], "bound") == Bool(path.results[k].bound)
  }

  ghost predicate ShowsCoverage(d: Json, coverage: CoverageReport) {
    var summary, ts := Get(d, "summary"), Get(d, "targets");
    && Get(summary, "targets") == Int(|coverage.results|) && Get(summary, "fully_covered") == Int(coverage.fullyCovered)
    && Get(summary, "gate") == Str(if coverage.ok then "pass" else "fail")
    && ts.List? && |ts.items| == |coverage.results|
    && forall k :: 0 <= k < |coverage.results| ==> Get(ts.items[k], "ok") == Bool(coverage.results[k].ok)
  }

  lemma PathIsShown(path: PathReport, observations: Json, warnings: Json)
    ensures ShowsPath(Obj(PathReportJson(path, observations, warnings)), path)
  {
  }

  lemma CoverageIsShown(coverage: CoverageReport, warnings: Json)
    ensures ShowsCoverage(Obj(CoverageReportJson(coverage, warnings)), coverage)
  {
  }

  /** The runtime and coverage proofs the gate consumed are reports of the shown producers. */
  ghost predicate ProofsAreProduced(r: Report, path: PathReport, coverage: CoverageReport) {
    && RuntimePath in r.seen.evidence && CarriesPath(r.seen.evidence[RuntimePath].json, path)
    && ChangedCoverage in r.seen.evidence && CarriesCoverage(r.seen.evidence[ChangedCoverage].json, coverage)
  }

  lemma ListedIds(d: Json, ids: seq<Json>)
    requires ListsTargets(d, ids)
    ensures Ids(d, "target_id").Some?
    ensures forall id :: id in Ids(d, "target_id").value ==> id in ids
  {
    var ts := Get(d, "targets");
    forall id | id in Ids(d, "target_id").value ensures id in ids {
      var t :| t in ts.items && t.Obj? && Truthy(Get(t, "target_id")) && Get(t, "target_id") == id;
      var k :| 0 <= k < |ts.items| && ts.items[k] == t;
      assert ids[k] == id;
    }
  }

  lemma ProofSignals(ev: Evidence, flags: Flags)
    ensures var s, diff := Assemble(ev, flags), Ids(Read(ev, DiffTargets), "id");
            && s.unbound == IntOr0(Get(Get(Read(ev, RuntimePath), "summary"), "unbound"))
            && s.coverageOk == BoolOrNull(Get(Read(ev, ChangedCoverage), "ok"))
            && s.runtimeMisses == Misses(diff, Ids(Read(ev, RuntimePath), "target_id"))
            && s.coverageMisses == Misses(diff, Ids(Read(ev, ChangedCoverage), "target_id"))
  { }

  lemma NotMissed(diff: Option<set<Json>>, proof: Option<set<Json>>, id: Json)
    requires Misses(diff, proof) == {} && diff.Some? && id in diff.value && proof.Some?
    ensures id in proof.value
  {
    assert id !in Misses(diff, proof);
  }

  /** Nothing unbound, uncovered or unmentioned, once no proof finding blocks. */
  lemma ProofsAreClean(s: Signals, k: Checks)
    requires k.strict && forall f :: !Blocks(s, k, f)
    ensures s.unbound <= 0 && s.coverageOk != Bool(false) && s.runtimeMisses == {} && s.coverageMisses == {}
  {
    assert !Blocks(s, k, UnboundTargets) && !Blocks(s, k, LinesNotCovered);
    assert !Blocks(s, k, CoverageMisses) && !Blocks(s, k, RuntimeMisses);
  }

  lemma PathProofBinds(path: PathReport, targets: seq<Target>, events: seq<CallEvent>, facts: seq<Fact>, id: Json)
    requires IsPathReport(targets, events, facts, path) && path.unbound == 0 && id in PathIds(path)
    ensures exists t :: t in targets && t.id == id && BoundInRun(t, events, facts)
    ensures forall t :: t in targets ==> BoundInRun(t, events, facts)
  {
    AllBoundIff(targets, events, facts);
    var i :| 0 <= i < |path.results| && PathIds(path)[i] == id;
    assert IsPathResult(targets[i], events, facts, path.results[i]);
    assert targets[i] in targets;
  }

  lemma CoverageProofCovers(coverage: CoverageReport, targets: seq<Target>, files: CoverageFiles,
        modelTier: string -> Tier, id: Json)
    requires IsCoverageReport(targets, files, modelTier, coverage) && coverage.ok && id in CoverageIds(coverage)
    ensures exists t :: t in targets && t.id == id && Covered(t, files, modelTier)
    ensures forall t :: t in targets ==> Covered(t, files, modelTier)
  {
    var i :| 0 <= i < |coverage.results| && CoverageIds(coverage)[i] == id;
    assert IsCoverageResult(targets[i], files, modelTier, coverage.results[i]);
    assert targets[i] in targets;
  }

  /** What a strict approval says about the two proofs it consumed. */
  lemma ApprovedProofs(ci: Ci, b: Bundle, o: Options, r: Report)
    requires IsReport(ci, b, o, r) && o.strict && r.verdict == Approve
    ensures IntOr0(Get(Get(Read(r.seen.evidence, RuntimePath), "summary"), "unbound")) <= 0
    ensures BoolOrNull(Get(Read(r.seen.evidence, ChangedCoverage), "ok")) != Bool(false)
    ensures var diff := Ids(Read(r.seen.evidence, DiffTargets), "id");
            Misses(diff, Ids(Read(r.seen.evidence, RuntimePath), "target_id")) == {}
            && Misses(diff, Ids(Read(r.seen.evidence, ChangedCoverage), "target_id")) == {}
  {
    PolicyNeverLoosens(ci, b, o, r);
    var k := Checks(true, ci.expectedProbe, r.seen.failures);
    ApprovedDecision(r.seen, k, r.base);
    ProofsAreClean(r.seen.signals, k);
    ProofSignals(r.seen.evidence, r.seen.flags);
  }

  /** When the proofs come from the producers, a strict approval means that every changed target the
      diff identifies was bound at runtime and meets its coverage threshold. */
  lemma StrictApprovalIsProved(ci: Ci, b: Bundle, o: Options, r: Report, path: PathReport, coverage: CoverageReport,
                               pathTargets: seq<Target>, events: seq<CallEvent>, facts: seq<Fact>,
                               coverageTargets: seq<Target>, files: CoverageFiles, modelTier: string -> Tier, id: Json)
    requires IsReport(ci, b, o, r) && o.strict && r.verdict == Approve
    requires ProofsAreProduced(r, path, coverage)
    requires IsPathReport(pathTargets, events, facts, path)
    requires IsCoverageReport(coverageTargets, files, modelTier, coverage)
    requires var diff := Ids(Read(r.seen.evidence, DiffTargets), "id"); diff.Some? && id in diff.value
    ensures exists t :: t in pathTargets && t.id == id && BoundInRun(t, events, facts)
    ensures exists t :: t in coverageTargets && t.id == id && Covered(t, files, modelTier)
    ensures forall t :: t in pathTargets ==> BoundInRun(t, events, facts)
    ensures forall t :: t in coverageTargets ==> Covered(t, files, modelTier)
  {
    ApprovedProofs(ci, b, o, r);
    var ev := r.seen.evidence;
    ProvedIds(ev[RuntimePath].json, PathIds(path), Ids(Read(ev, DiffTargets), "id"), id);
    ProvedIds(ev[ChangedCoverage].json, CoverageIds(coverage), Ids(Read(ev, DiffTargets), "id"), id);
    PathProofBinds(path, pathTargets, events, facts, id);
    CoverageProofCovers(coverage, coverageTargets, files, modelTier, id);
  }

  lemma ProvedIds(d: Json, ids: seq<Json>, diff: Option<set<Json>>, id: Json)
    requires ListsTargets(d, ids) && diff.Some? && id in diff.value && Misses(diff, Ids(d, "target_id")) == {}
    ensures id in ids
  {
    ListedIds(d, ids);
    NotMissed(diff, Ids(d, "target_id"), id);
  }

  lemma ObserverSignals(ev: Evidence, flags: Flags)
    ensures var s, p := Assemble(ev, flags), Get(Read(ev, RuntimePath), "producer");
            s.observerSealed == BoolOrNull(Get(p, "sealed")) && s.observerDigest == Get(p, "tool_digest")
  { }

  /** When the runtime proof carries the self-report the observer drew up at the end of a run, a strict approval means
      that the pinned observer saw that run undisturbed and, if it expected as many targets as it was given, that every
      one of them was entered. */
  lemma StrictApprovalWasObserved(ci: Ci, b: Bundle, o: Options, r: Report, x: Observer.Session, digest: string,
                                  counts: map<string, Json>)
    requires IsReport(ci, b, o, r) && o.strict && r.verdict == Approve
    requires Get(Read(r.seen.evidence, RuntimePath), "producer") ==
      Observer.SelfReport(Observer.Ending(x), digest, counts)
    ensures digest == ci.expectedProbe && digest != ""
    ensures Observer.Undisturbed(x) && Observer.Entered(x)
  {
    ApprovedObserver(ci, b, o, r, Observer.Ending(x), digest, counts);
    Observer.SealedSession(x);
  }

  lemma ApprovedObserver(ci: Ci, b: Bundle, o: Options, r: Report, verdict: Observer.Integrity, digest: string,
        counts: map<string, Json>)
    requires IsReport(ci, b, o, r) && o.strict && r.verdict == Approve
    requires Get(Read(r.seen.evidence, RuntimePath), "producer") == Observer.SelfReport(verdict, digest, counts)
    ensures verdict == Observer.Sealed && digest == ci.expectedProbe && digest != ""
  {
    StrictApprovalIsBound(ci, b, o, r);
    ObserverSignals(r.seen.evidence, r.seen.flags);
    SealedSelfReport(verdict, digest, counts);
  }

  lemma SealedSelfReport(verdict: Observer.Integrity, digest: string, counts: map<string, Json>)
    ensures var p := Observer.SelfReport(verdict, digest, counts);
            BoolOrNull(Get(p, "sealed")) == Bool(verdict == Observer.Sealed) && Get(p, "tool_digest") == Str(digest)
  {
  }

  // ------------------------------------------------------------------------
  // Several files for one artifact
  // ------------------------------------------------------------------------

  /** Ambiguous, unparseable or misshapen evidence never ends in an approval, in either mode. */
  lemma DoubtIsNeverApproved(ci: Ci, b: Bundle, o: Options, r: Report, a: Artifact)
    requires IsReport(ci, b, o, r) && a in NamesRead(o.strict) && Doubtful(a, FilesOf(b, a))
    ensures r.verdict != Approve
  {
    PolicyNeverLoosens(ci, b, o, r);
    if r.base.verdict == Approve {
      ApprovedDecision(r.seen, Checks(o.strict, ci.expectedProbe, r.seen.failures), r.base);
      assert false;
    }
  }

  /** For the three counted artifacts the file read is the worst usable one; for every other kind it
      is simply the first, whatever the later files say. */
  lemma WorstCaseIsRead(a: Artifact, files: seq<EvidenceFile>)
    requires Readable(a, files) != []
    ensures a in {Validate, Upgrade, ScanSecrets} ==>
              forall d :: Parsed(d) in files && ArtifactValid(a, d.json) ==>
                Badness(a, d.json) <= Badness(a, Chosen(a, files).value.json)
    ensures a !in {Validate, Upgrade, ScanSecrets} ==> Chosen(a, files) == Some(Readable(a, files)[0])
  {
    ReadableSound(a, files);
    WorstIsWorst(a, Readable(a, files));
    if a !in {Validate, Upgrade, ScanSecrets} {
      FirstIsWorst(a, Readable(a, files));
    }
  }

  lemma {:induction false} FirstIsWorst(a: Artifact, docs: seq<Doc>)
    requires docs != [] && a !in {Validate, Upgrade, ScanSecrets}
    ensures Worst(a, docs) == docs[0]
  {
    if |docs| > 1 {
      FirstIsWorst(a, docs[..|docs| - 1]);
    }
  }

  /** Findings raised by an artifact of which only the first usable file is read. */
  const FIRST_READ: set<Finding> :=
    {TraceError, FakeTests, UnboundTargets, LinesNotCovered, ScenarioUnsatisfied, MutantsSurvived, RedGreenFailed}

  /** Findings raised by an artifact of which the worst usable file is read. */
  const WORST_READ: set<Finding> := {ValidateBlocking, UpgradeBlocking, SecretsFound}

  function SourceOf(f: Finding): Artifact {
    match f
    case ValidateBlocking => Validate
    case UpgradeBlocking => Upgrade
    case SecretsFound => ScanSecrets
    case FakeTests => TestQuality
    case LinesNotCovered => ChangedCoverage
    case ScenarioUnsatisfied => ScenarioSatisfaction
    case MutantsSurvived => MutationSmoke
    case RedGreenFailed => RedGreenReplay
    case UnboundTargets => RuntimePath
    case _ => Trace
  }

  /** The document on its own would raise the finding. */
  predicate Faulty(f: Finding, d: Json) {
    match f
    case ValidateBlocking => IntOr0(Get(Get(d, "summary"), "blocking")) > 0
    case UpgradeBlocking => IntOr0(Get(Get(d, "summary"), "blocking")) > 0
    case SecretsFound => IntOr0(Get(d, "count")) > 0
    case FakeTests => IntOr0(Get(Get(d, "summary"), "blocking")) > 0
    case UnboundTargets => IntOr0(Get(Get(d, "summary"), "unbound")) > 0
    case LinesNotCovered => Get(d, "ok") == Bool(false)
    case ScenarioUnsatisfied => Get(d, "ok") == Bool(false)
    case MutantsSurvived => IntOr0(Get(Get(d, "summary"), "survived")) > 0
    case RedGreenFailed => Get(d, "ok") == Bool(false)
    case _ => Get(d, "error").Str?
  }

  ghost predicate SomeFaulty(f: Finding, docs: seq<Doc>) {
    exists k :: 0 <= k < |docs| && Faulty(f, docs[k].json)
  }

  function UsableFor(b: Bundle, f: Finding): seq<Doc> {
    Readable(SourceOf(f), FilesOf(b, SourceOf(f)))
  }

  /** Each signal is what the document read for its artifact says. */
  ghost predicate SignalsRead(s: Signals, ev: Evidence) {
    && s.validateBlocking == IntOr0(Get(Get(Read(ev, Validate), "summary"), "blocking"))
    && s.upgradeBlocking == IntOr0(Get(Get(Read(ev, Upgrade), "summary"), "blocking"))
    && s.secrets == IntOr0(Get(Read(ev, ScanSecrets), "count"))
    && s.traceError == Get(Read(ev, Trace), "error")
    && s.fakeTests == IntOr0(Get(Get(Read(ev, TestQuality), "summary"), "blocking"))
    && s.unbound == IntOr0(Get(Get(Read(ev, RuntimePath), "summary"), "unbound"))
    && s.coverageOk == BoolOrNull(Get(Read(ev, ChangedCoverage), "ok"))
    && s.scenariosOk == BoolOrNull(Get(Read(ev, ScenarioSatisfaction), "ok"))
    && s.survivors == IntOr0(Get(Get(Read(ev, MutationSmoke), "summary"), "survived"))
    && s.redGreenOk == BoolOrNull(Get(Read(ev, RedGreenReplay), "ok"))
  }

  lemma AssembledSignals(ev: Evidence, flags: Flags)
    ensures SignalsRead(Assemble(ev, flags), ev)
  { }

  /** A finding blocks when the document read for its artifact, or the empty one assumed without any, is faulty. */
  lemma FindingReadsItsSource(s: Signals, ev: Evidence, k: Checks, f: Finding)
    requires SignalsRead(s, ev) && f in FIRST_READ + WORST_READ
    requires Trace in ev ==> ArtifactValid(Trace, ev[Trace].json)
    ensures Blocks(s, k, f) <==> (f in {TraceError} + WORST_READ || k.strict) && Faulty(f, Read(ev, SourceOf(f)))
  {
    if f == TraceError {
      TraceReadsItsSource(s, Read(ev, Trace), k);
    } else if f in WORST_READ {
      CountedReadsItsSource(s, ev, k, f);
    } else {
      ProofReadsItsSource(s, ev, k, f);
    }
  }

  lemma TraceReadsItsSource(s: Signals, d: Json, k: Checks)
    requires s.traceError == Get(d, "error") && (ArtifactValid(Trace, d) || d == Obj(map[]))
    ensures Blocks(s, k, TraceError) <==> Faulty(TraceError, d)
  {
  }

  lemma CountedReadsItsSource(s: Signals, ev: Evidence, k: Checks, f: Finding)
    requires SignalsRead(s, ev) && f in WORST_READ
    ensures Blocks(s, k, f) <==> Faulty(f, Read(ev, SourceOf(f)))
  {
    match f {
      case ValidateBlocking =>
      case UpgradeBlocking =>
      case _ =>
    }
  }

  lemma ProofReadsItsSource(s: Signals, ev: Evidence, k: Checks, f: Finding)
    requires SignalsRead(s, ev) && f in FIRST_READ && f != TraceError
    ensures Blocks(s, k, f) <==> k.strict && Faulty(f, Read(ev, SourceOf(f)))
  {
    match f {
      case FakeTests =>
      case UnboundTargets =>
      case LinesNotCovered =>
      case ScenarioUnsatisfied =>
      case MutantsSurvived =>
      case _ =>
    }
  }

  lemma ReadsChosen(b: Bundle, strict: bool, a: Artifact)
    requires a in NamesRead(strict)
    ensures var docs := Readable(a, FilesOf(b, a));
            Read(Consumed(b, strict), a) == (if docs == [] then Obj(map[]) else Worst(a, docs).json)
            && (a in Consumed(b, strict) ==> ArtifactValid(a, Consumed(b, strict)[a].json))
  {
    var docs := Readable(a, FilesOf(b, a));
    ReadableSound(a, FilesOf(b, a));
    if docs != [] { WorstIsWorst(a, docs); }
  }

  /** What a report's blocking findings rest on. */
  lemma ReportReads(ci: Ci, b: Bundle, o: Options, r: Report)
    requires IsReport(ci, b, o, r)
    ensures r.seen.evidence == Consumed(b, o.strict) && SignalsRead(r.seen.signals, r.seen.evidence)
    ensures forall f :: f in r.base.blocking <==>
              Blocks(r.seen.signals, Checks(o.strict, ci.expectedProbe, r.seen.failures), f)
  {
    AssembledSignals(r.seen.evidence, r.seen.flags);
  }

  lemma NothingIsFaulty(f: Finding)
    ensures !Faulty(f, Obj(map[]))
  { }

  lemma SourceIsRead(strict: bool, f: Finding)
    requires f in {TraceError} + WORST_READ || strict
    ensures SourceOf(f) in NamesRead(strict) && Trace in NamesRead(strict)
  { }

  lemma BlocksByChosen(b: Bundle, s: Signals, ev: Evidence, k: Checks, f: Finding)
    requires ev == Consumed(b, k.strict) && SignalsRead(s, ev)
    requires f in FIRST_READ + WORST_READ && (f in {TraceError} + WORST_READ || k.strict)
    ensures var docs := UsableFor(b, f);
            Blocks(s, k, f) <==> docs != [] && Faulty(f, Worst(SourceOf(f), docs).json)
  {
    SourceIsRead(k.strict, f);
    ReadsChosen(b, k.strict, Trace);
    ReadsChosen(b, k.strict, SourceOf(f));
    FindingReadsItsSource(s, ev, k, f);
    NothingIsFaulty(f);
  }

  /** For most artifacts a report blocks exactly when the first usable file is faulty, and that is right exactly when no
      clean file stands in front of a faulty one. */
  lemma FirstFileDecides(ci: Ci, b: Bundle, o: Options, r: Report, f: Finding)
    requires IsReport(ci, b, o, r) && f in FIRST_READ && (f == TraceError || o.strict)
    ensures var docs := UsableFor(b, f);
            && (f in r.base.blocking <==> docs != [] && Faulty(f, docs[0].json))
            && ((f in r.base.blocking <==> SomeFaulty(f, docs)) <==> (SomeFaulty(f, docs) ==> Faulty(f, docs[0].json)))
  {
    ReportReads(ci, b, o, r);
    BlocksByChosen(b, r.seen.signals, r.seen.evidence, Checks(o.strict, ci.expectedProbe, r.seen.failures), f);
    FirstIsRead(f, UsableFor(b, f));
  }

  lemma FirstIsRead(f: Finding, docs: seq<Doc>)
    requires f in FIRST_READ
    ensures docs != [] ==> Worst(SourceOf(f), docs) == docs[0] && (Faulty(f, docs[0].json) ==> SomeFaulty(f, docs))
  {
    if docs != [] { FirstIsWorst(SourceOf(f), docs); }
  }

  /** For the three counted artifacts a faulty file can never be hidden. */
  lemma WorstFileDecides(ci: Ci, b: Bundle, o: Options, r: Report, f: Finding)
    requires IsReport(ci, b, o, r) && f in WORST_READ
    ensures f in r.base.blocking <==> SomeFaulty(f, UsableFor(b, f))
  {
    ReportReads(ci, b, o, r);
    BlocksByChosen(b, r.seen.signals, r.seen.evidence, Checks(o.strict, ci.expectedProbe, r.seen.failures), f);
    WorstIsFaulty(f, UsableFor(b, f));
  }

  lemma WorstIsFaulty(f: Finding, docs: seq<Doc>)
    requires f in WORST_READ
    ensures SomeFaulty(f, docs) <==> docs != [] && Faulty(f, Worst(SourceOf(f), docs).json)
  {
    if docs != [] {
      WorstIsWorst(SourceOf(f), docs);
      var k :| 0 <= k < |docs| && docs[k] == Worst(SourceOf(f), docs);
      assert forall d :: d in docs ==> (Faulty(f, d.json) <==> Badness(SourceOf(f), d.json) > 0);
      assert forall k :: 0 <= k < |docs| ==> docs[k] in docs;
    }
  }

  /** A bundle whose clean trace stands in front of a failing one is not blocked for it, in either mode. */
  lemma CleanTraceHidesError(ci: Ci, b: Bundle, o: Options, r: Report, clean: Doc, failing: Doc)
    requires IsReport(ci, b, o, r) && FilesOf(b, Trace) == [Parsed(clean), Parsed(failing)]
    requires clean.json == Obj(map["error" := Null]) && failing.json == Obj(map["error" := Str("boom")])
    ensures SomeFaulty(TraceError, UsableFor(b, TraceError)) && TraceError !in r.base.blocking
  {
    CleanInFront(clean, failing);
    FirstFileDecides(ci, b, o, r, TraceError);
    assert UsableFor(b, TraceError)[1] == failing && Faulty(TraceError, failing.json);
  }

  lemma CleanInFront(clean: Doc, failing: Doc)
    requires clean.json == Obj(map["error" := Null]) && failing.json == Obj(map["error" := Str("boom")])
    ensures Readable(Trace, [Parsed(clean), Parsed(failing)]) == [clean, failing]
    ensures !Faulty(TraceError, clean.json) && Faulty(TraceError, failing.json)
  {
    var files := [Parsed(clean), Parsed(failing)];
    assert files[..1] == [Parsed(clean)] && files[..1][..0] == [];
    assert "boom"[0] == 'b';
    assert ArtifactValid(Trace, clean.json) && ArtifactValid(Trace, failing.json);
    assert Readable(Trace, files[..1]) == [] + [clean];
    assert Readable(Trace, files) == [clean, failing];
  }
}
