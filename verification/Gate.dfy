/** The deployment gate of deploy_gate.py: evidence in, a three-value verdict out. */
module Gate {
  import opened Orders
  import opened JsonDoc
  import opened Provenance
  import opened Producers

  datatype Artifact =
    | NativeCheck | EnvDiff | Scenarios | Validate | Security | Trace | Upgrade | ScanSecrets
    | DiffTargets | ChangedCoverage | RuntimePath | TestQuality | ScenarioSatisfaction | MutationSmoke | RedGreenReplay
    | Attestation

  const LEGACY_NAMES: set<Artifact> :=
    {NativeCheck, EnvDiff, Scenarios, Validate, Security, Trace, Upgrade, ScanSecrets}

  const LAYER_L_NAMES: set<Artifact> :=
    {DiffTargets, ChangedCoverage, RuntimePath, TestQuality, ScenarioSatisfaction, MutationSmoke, RedGreenReplay}

  const CORE_REQUIRED: set<Artifact> := {NativeCheck, Scenarios, Validate, ScanSecrets}

  const CORE_REQUIRED_V2: set<Artifact> :=
    {NativeCheck, Scenarios, Validate, ScanSecrets, DiffTargets, ChangedCoverage, RuntimePath, TestQuality,
     ScenarioSatisfaction, Attestation, MutationSmoke}

  /** Legacy reads only the older artifacts; strict reads all. Attestations are verified apart. */
  function NamesRead(strict: bool): set<Artifact> {
    if strict then LEGACY_NAMES + LAYER_L_NAMES else LEGACY_NAMES
  }

  function Aliases(a: Artifact): set<string> {
    match a
    case NativeCheck => {"native_check"}
    case EnvDiff => {"env_diff", "env-diff", "env_fingerprint"}
    case Scenarios => {"scenarios"}
    case Validate => {"validate"}
    case Security => {"security"}
    case Trace => {"trace"}
    case Upgrade => {"upgrade", "upgrade_check", "upgrade-diff"}
    case ScanSecrets => {"scan_secrets", "scan-secrets"}
    case DiffTargets => {"diff_targets", "diff-targets"}
    case ChangedCoverage => {"changed_coverage", "changed-coverage"}
    case RuntimePath => {"runtime_path", "runtime-path"}
    case TestQuality => {"test_quality", "test-quality"}
    case ScenarioSatisfaction => {"scenario_satisfaction", "scenario-satisfaction"}
    case MutationSmoke => {"mutation_smoke", "mutation-smoke"}
    case RedGreenReplay => {"red_green_replay", "red-green-replay"}
    case Attestation => {"provenance"}
  }

  // ------------------------------------------------------------------------
  // Reading one artifact
  // ------------------------------------------------------------------------

  datatype Doc = Doc(json: Json, bytes: Bytes)
  datatype EvidenceFile = Unparseable | Parsed(doc: Doc)

  predicate HasCounts(d: Json) {
    var s := Get(d, "summary");
    s.Obj? && IsCount(Get(s, "blocking")) && IsCount(Get(s, "warning"))
  }

  predicate ListIfPresent(d: Json, k: string) {
    Has(d, k) ==> Get(d, k).List?
  }

  /** Minimum well-typed shape; anything else is treated as an absent artifact. */
  predicate ArtifactValid(a: Artifact, d: Json) {
    d.Obj? &&
    match a
    case Validate | Upgrade | TestQuality => HasCounts(d)
    case ScanSecrets => IsCount(Get(d, "count"))
    case Scenarios =>
      var risk := Get(d, "risk");
      && risk.Obj? && Get(risk, "tier") in {Str("critical"), Str("high"), Str("normal")}
      && NullOrStr(Get(risk, "model")) && NullOrStr(Get(d, "model"))
    case EnvDiff =>
      var s := Get(d, "summary");
      s.Obj? && Get(s, "severity") in {Null, Str("none"), Str("low"), Str("high")}
    case NativeCheck =>
      && (Has(d, "confirmed_candidates") || Has(d, "considered"))
      && ListIfPresent(d, "confirmed_candidates") && ListIfPresent(d, "considered")
    case Security =>
      && (Has(d, "is_superuser") ==> Get(d, "is_superuser").Bool?)
      && ListIfPresent(d, "_warnings")
      && NullOrStr(Get(d, "model")) && NullOrStr(Get(d, "model_name"))
    case Trace =>
      var err := Get(d, "error");
      err.Null? || (err.Str? && !Blank(err.s))
    case RuntimePath =>
      var s := Get(d, "summary");
      s.Obj? && IsCount(Get(s, "unbound")) && Get(d, "targets").List?
    case ChangedCoverage => Get(d, "ok").Bool? && Get(d, "targets").List?
    case ScenarioSatisfaction | RedGreenReplay => Get(d, "ok").Bool?
    case DiffTargets => Get(d, "targets").List?
    case MutationSmoke =>
      var s := Get(d, "summary");
      s.Obj? && IsCount(Get(s, "survived"))
    case Attestation => Get(d, "schema") == Str(SCHEMA) && Get(d, "signature").Str?
  }

  function Readable(a: Artifact, files: seq<EvidenceFile>): seq<Doc> {
    if files == [] then []
    else
      var n := |files| - 1;
      Readable(a, files[..n]) +
        (if files[n].Parsed? && ArtifactValid(a, files[n].doc.json) then [files[n].doc] else [])
  }

  /** The count an ambiguous artifact is ranked by. */
  function Badness(a: Artifact, d: Json): int {
    match a
    case Validate | Upgrade => IntOr0(Get(Get(d, "summary"), "blocking"))
    case ScanSecrets => IntOr0(Get(d, "count"))
    case _ => 0
  }

  /** Python's `max`: the first of the largest. */
  function Worst(a: Artifact, docs: seq<Doc>): Doc
    requires docs != []
  {
    if |docs| == 1 then docs[0]
    else
      var w := Worst(a, docs[..|docs| - 1]);
      if Badness(a, docs[|docs| - 1].json) > Badness(a, w.json) then docs[|docs| - 1] else w
  }

  function Chosen(a: Artifact, files: seq<EvidenceFile>): Option<Doc> {
    var docs := Readable(a, files);
    if docs == [] then None else Some(Worst(a, docs))
  }

  /** A file that does not parse or has the wrong shape, or more than one usable file. */
  predicate Doubtful(a: Artifact, files: seq<EvidenceFile>) {
    |Readable(a, files)| < |files| || |Readable(a, files)| > 1
  }

  lemma {:induction false} ReadableSound(a: Artifact, files: seq<EvidenceFile>)
    ensures |Readable(a, files)| <= |files|
    ensures forall d :: d in Readable(a, files) <==> Parsed(d) in files && ArtifactValid(a, d.json)
  {
    if files != [] {
      var n := |files| - 1;
      ReadableSound(a, files[..n]);
      assert files == files[..n] + [files[n]];
    }
  }

  lemma {:induction false} WorstIsWorst(a: Artifact, docs: seq<Doc>)
    requires docs != []
    ensures Worst(a, docs) in docs
    ensures forall d :: d in docs ==> Badness(a, d.json) <= Badness(a, Worst(a, docs).json)
  {
    if |docs| > 1 {
      WorstIsWorst(a, docs[..|docs| - 1]);
      assert docs == docs[..|docs| - 1] + [docs[|docs| - 1]];
    }
  }

  method ReadArtifact(a: Artifact, files: seq<EvidenceFile>) returns (chosen: Option<Doc>, doubtful: bool)
    ensures chosen == Chosen(a, files) && doubtful == Doubtful(a, files)
  {
    var valid: seq<Doc> := [];
    doubtful := false;
    for i := 0 to |files|
      invariant valid == Readable(a, files[..i])
      invariant |valid| <= i && (doubtful <==> |valid| < i)
    {
      assert files[..i + 1][..i] == files[..i];
      if files[i].Unparseable? || !ArtifactValid(a, files[i].doc.json) {
        doubtful := true;
      } else {
        valid := valid + [files[i].doc];
      }
    }
    assert files[..|files|] == files;
    if |valid| == 0 {
      chosen := None;
    } else {
      doubtful := doubtful || |valid| > 1;
      chosen := Some(Worst(a, valid));
    }
  }

  // ------------------------------------------------------------------------
  // The change manifest
  // ------------------------------------------------------------------------

  datatype Flags = Flags(
    hasMigration: bool, touchesSecurity: bool, touchesController: bool, isBugfix: bool,
    touchedModels: set<string>, changedFiles: set<string>)

  datatype ManifestFile = NoManifest | BrokenManifest | Manifest(doc: Json)

  function StringsOf(j: Json): set<string> {
    if j.List? then set x | x in j.items && x.Str? :: x.s else {}
  }

  predicate ListOfStrings(j: Json) {
    j.List? && forall x :: x in j.items ==> x.Str?
  }

  /** Shape problems that make a present manifest untrusted. */
  predicate ManifestDoubtful(m: ManifestFile) {
    match m
    case NoManifest => false
    case BrokenManifest => true
    case Manifest(d) =>
      if d.Null? then false
      else
        || !d.Obj?
        || (Has(d, "changed_files") && !ListOfStrings(Get(d, "changed_files")))
        || (Has(d, "touched_models") && !ListOfStrings(Get(d, "touched_models")))
        || (Has(d, "has_migration") && !Get(d, "has_migration").Bool?)
        || (Has(d, "touches_security") && !Get(d, "touches_security").Bool?)
        || (Has(d, "touches_controller") && !Get(d, "touches_controller").Bool?)
  }

  predicate MigrationPath(f: string) { Contains(f, "migrations/") }

  predicate ControllerPath(f: string) { Contains(f, "controllers/") }

  predicate SecurityPath(f: string) {
    || Contains(f, "security/") || (EndsWith(f, ".csv") && Contains(f, "access"))
    || Contains(f, "ir.rule") || Contains(f, "ir_rule")
  }

  /** Declared booleans, strengthened by what the changed paths show. */
  function ManifestFlags(m: ManifestFile): Flags {
    var d := if m.Manifest? then m.doc else Null;
    var files := set f | f in StringsOf(Get(d, "changed_files")) :: Posix(Lower(f));
    Flags(
      Truthy(Get(d, "has_migration")) || exists f :: f in files && MigrationPath(f),
      Truthy(Get(d, "touches_security")) || exists f :: f in files && SecurityPath(f),
      Truthy(Get(d, "touches_controller")) || exists f :: f in files && ControllerPath(f),
      Truthy(Get(d, "is_bugfix")) || Get(d, "change_type") == Str("bugfix"),
      StringsOf(Get(d, "touched_models")),
      files)
  }

  function Required(flags: Flags, strict: bool): set<Artifact> {
    (if strict then CORE_REQUIRED_V2 else CORE_REQUIRED)
    + (if flags.hasMigration then {Upgrade} else {})
    + (if flags.touchesSecurity || flags.touchesController then {Security} else {})
    + (if strict && flags.isBugfix then {RedGreenReplay} else {})
  }

  // ------------------------------------------------------------------------
  // Signals and risk
  // ------------------------------------------------------------------------

  datatype Signals = Signals(
    validateBlocking: int, validateWarning: int, upgradeBlocking: int, upgradeWarning: int,
    envDiffHigh: bool, scenarioTier: Json, superuser: bool, securityWarnings: bool,
    traceError: Json, secrets: int, touchesSecurity: bool, touchesController: bool, sensitiveModel: bool,
    fakeTests: int, unbound: int, coverageOk: Json, scenariosOk: Json, survivors: int, redGreenOk: Json,
    runtimePresent: bool, observerSealed: Json, observerIntegrity: Json, observerDigest: Json,
    noTargets: bool, coverageMisses: set<Json>, runtimeMisses: set<Json>)

  /** Truthy values of one key over a report's target list; None without such a list. */
  function Ids(d: Json, k: string): Option<set<Json>> {
    var ts := Get(d, "targets");
    if ts.List? then Some(set t | t in ts.items && t.Obj? && Truthy(Get(t, k)) :: Get(t, k)) else None
  }

  predicate SensitiveName(name: string) {
    exists k :: k in {"account", "stock", "payment", "hr", "payroll"} && Contains(Lower(name), k)
  }

  predicate SensitiveHint(j: Json) {
    j.Str? && SensitiveName(j.s)
  }

  type Evidence = map<Artifact, Doc>

  function Read(ev: Evidence, a: Artifact): Json {
    if a in ev then ev[a].json else Obj(map[])
  }

  function BoolOrNull(j: Json): Json {
    if j.Bool? then j else Null
  }

  /** Targets of the diff that a proof does not mention; nothing when either list is missing or empty. */
  function Misses(diff: Option<set<Json>>, proof: Option<set<Json>>): set<Json> {
    if diff.Some? && proof.Some? then diff.value - proof.value else {}
  }

  function Assemble(ev: Evidence, flags: Flags): Signals {
    var val, upg, scen, sec, rtp := Read(ev, Validate), Read(ev, Upgrade), Read(ev, Scenarios), Read(ev, Security),
      Read(ev, RuntimePath);
    var diff := Ids(Read(ev, DiffTargets), "id");
    var producer := Get(rtp, "producer");
    Signals(
      IntOr0(Get(Get(val, "summary"), "blocking")), IntOr0(Get(Get(val, "summary"), "warning")),
      IntOr0(Get(Get(upg, "summary"), "blocking")), IntOr0(Get(Get(upg, "summary"), "warning")),
      Get(Get(Read(ev, EnvDiff), "summary"), "severity") == Str("high"),
      Get(Get(scen, "risk"), "tier"),
      Truthy(Get(sec, "is_superuser")), Truthy(Get(sec, "_warnings")),
      Get(Read(ev, Trace), "error"), IntOr0(Get(Read(ev, ScanSecrets), "count")),
      flags.touchesSecurity, flags.touchesController,
      || SensitiveHint(Get(Get(scen, "risk"), "model")) || SensitiveHint(Get(scen, "model"))
      || SensitiveHint(Get(sec, "model")) || SensitiveHint(Get(sec, "model_name"))
      || (exists m :: m in flags.touchedModels && SensitiveName(m))
      || (exists f :: f in flags.changedFiles && SensitiveName(f)),
      IntOr0(Get(Get(Read(ev, TestQuality), "summary"), "blocking")),
      IntOr0(Get(Get(rtp, "summary"), "unbound")),
      BoolOrNull(Get(Read(ev, ChangedCoverage), "ok")), BoolOrNull(Get(Read(ev, ScenarioSatisfaction), "ok")),
      IntOr0(Get(Get(Read(ev, MutationSmoke), "summary"), "survived")),
      BoolOrNull(Get(Read(ev, RedGreenReplay), "ok")),
      Truthy(rtp), BoolOrNull(Get(producer, "sealed")), Get(producer, "trace_integrity"), Get(producer, "tool_digest"),
      diff == Some({}),
      Misses(diff, Ids(Read(ev, ChangedCoverage), "target_id")),
      Misses(diff, Ids(rtp, "target_id")))
  }

  predicate IsCritical(s: Signals) {
    || s.scenarioTier == Str("critical") || s.upgradeBlocking > 0 || s.validateBlocking > 0
    || s.envDiffHigh || s.secrets > 0
  }

  predicate IsElevated(s: Signals) {
    || s.scenarioTier == Str("high") || s.validateWarning > 0 || s.upgradeWarning > 0
    || s.superuser || s.securityWarnings || s.touchesController || s.touchesSecurity
  }

  method ClassifyChangeRisk(s: Signals) returns (tier: Tier)
    ensures tier == Critical <==> IsCritical(s)
    ensures tier == Normal <==> !IsCritical(s) && !IsElevated(s)
  {
    tier := Normal;
    if s.scenarioTier == Str("critical") { tier := Critical; }
    if s.upgradeBlocking > 0 { tier := Critical; }
    if s.validateBlocking > 0 { tier := Critical; }
    if s.envDiffHigh { tier := Critical; }
    if s.secrets > 0 { tier := Critical; }
    if tier == Normal {
      if s.scenarioTier == Str("high") { tier := High; }
      if s.validateWarning > 0 { tier := High; }
      if s.upgradeWarning > 0 { tier := High; }
      if s.superuser { tier := High; }
      if s.securityWarnings { tier := High; }
      if s.touchesController { tier := High; }
      if s.touchesSecurity { tier := High; }
    }
  }

  // ------------------------------------------------------------------------
  // The decision
  // ------------------------------------------------------------------------

  datatype Verdict = Approve | NeedsHuman | Block

  function Rank(v: Verdict): nat {
    match v case Approve => 0 case NeedsHuman => 1 case Block => 2
  }

  datatype ProvenanceFailure =
    | BadEnvelope | NotAttested(a: Artifact) | WrongName(a: Artifact) | WrongHead(a: Artifact)

  datatype Finding =
    | ValidateBlocking | UpgradeBlocking | TraceError | TraceMalformed | SecretsFound
    | FakeTests | UnboundTargets | LinesNotCovered | ScenarioUnsatisfied | MutantsSurvived
    | CoverageMisses | RuntimeMisses | ObserverNotSealed | ObserverSwapped | RedGreenFailed
    | NotTrusted(failure: ProvenanceFailure)

  datatype Approval = SeniorDeveloper | FinanceOwner | ControllerReview | AccessReview

  /** The run's settings: strict or legacy, the pinned observer digest ("" when unset) and
      what attestation checking found. */
  datatype Checks = Checks(strict: bool, probe: string, failures: seq<ProvenanceFailure>)

  predicate Sealed(s: Signals) {
    s.observerSealed == Bool(true) && s.observerIntegrity == Str("sealed")
  }

  /** Which findings block, one line each. */
  ghost predicate Blocks(s: Signals, k: Checks, f: Finding) {
    match f
    case ValidateBlocking => s.validateBlocking > 0
    case UpgradeBlocking => s.upgradeBlocking > 0
    case TraceError => s.traceError.Str? && !Blank(s.traceError.s)
    case TraceMalformed => !s.traceError.Null? && !(s.traceError.Str? && !Blank(s.traceError.s))
    case SecretsFound => s.secrets > 0
    case FakeTests => k.strict && s.fakeTests > 0
    case UnboundTargets => k.strict && s.unbound > 0
    case LinesNotCovered => k.strict && s.coverageOk == Bool(false)
    case ScenarioUnsatisfied => k.strict && s.scenariosOk == Bool(false)
    case MutantsSurvived => k.strict && s.survivors > 0
    case CoverageMisses => k.strict && s.coverageMisses != {}
    case RuntimeMisses => k.strict && s.runtimeMisses != {}
    case ObserverNotSealed => k.strict && s.runtimePresent && !Sealed(s)
    case ObserverSwapped => k.strict && s.runtimePresent && Sealed(s) && k.probe != "" &&
      s.observerDigest != Str(k.probe)
    case RedGreenFailed => k.strict && s.redGreenOk == Bool(false)
    case NotTrusted(failure) => k.strict && failure in k.failures
  }

  ghost predicate NeedsApproval(s: Signals, tier: Tier, a: Approval) {
    match a
    case SeniorDeveloper => tier == Critical
    case FinanceOwner => s.sensitiveModel
    case ControllerReview => s.touchesController
    case AccessReview => s.touchesSecurity
  }

  datatype Decision = Decision(
    verdict: Verdict, approvals: seq<Approval>, blocking: seq<Finding>, missing: set<Artifact>)

  ghost predicate Decides(s: Signals, tier: Tier, k: Checks, missing: set<Artifact>, req: set<Artifact>,
                          doubtful: bool, d: Decision)
  {
    && (forall f :: f in d.blocking <==> Blocks(s, k, f))
    && (forall a :: a in d.approvals <==> NeedsApproval(s, tier, a))
    && d.missing == req * missing
    && d.verdict ==
         (if d.blocking != [] then Block
          else if tier != Normal || d.missing != {} || doubtful || d.approvals != [] || (k.strict && s.noTargets)
          then NeedsHuman
          else Approve)
  }

  /** Append the finding when its condition holds. */
  method Note<T>(list: seq<T>, when: bool, item: T) returns (longer: seq<T>)
    ensures forall x :: x in longer <==> x in list || (when && x == item)
  {
    longer := if when then list + [item] else list;
  }

  const CORE_FINDINGS: set<Finding> := {ValidateBlocking, UpgradeBlocking, TraceError, TraceMalformed, SecretsFound}

  method CoreFindings(s: Signals, k: Checks) returns (b: seq<Finding>)
    ensures forall f :: f in b <==> f in CORE_FINDINGS && Blocks(s, k, f)
  {
    b := Note([], s.validateBlocking > 0, ValidateBlocking);
    b := Note(b, s.upgradeBlocking > 0, UpgradeBlocking);
    if s.traceError.Str? && !Blank(s.traceError.s) {
      b := Note(b, true, TraceError);
    } else {
      b := Note(b, !s.traceError.Null?, TraceMalformed);
    }
    b := Note(b, s.secrets > 0, SecretsFound);
  }

  const PROOF_FINDINGS: set<Finding> :=
    {FakeTests, UnboundTargets, LinesNotCovered, ScenarioUnsatisfied, MutantsSurvived, CoverageMisses, RuntimeMisses}

  method ProofFindings(s: Signals, k: Checks, already: seq<Finding>) returns (b: seq<Finding>)
    requires k.strict
    ensures forall f :: f in b <==> (f in already || (f in PROOF_FINDINGS && Blocks(s, k, f)))
  {
    b := Note(already, s.fakeTests > 0, FakeTests);
    b := Note(b, s.unbound > 0, UnboundTargets);
    b := Note(b, s.coverageOk == Bool(false), LinesNotCovered);
    b := Note(b, s.scenariosOk == Bool(false), ScenarioUnsatisfied);
    b := Note(b, s.survivors > 0, MutantsSurvived);
    b := Note(b, s.coverageMisses != {}, CoverageMisses);
    b := Note(b, s.runtimeMisses != {}, RuntimeMisses);
  }

  method TrustFindings(s: Signals, k: Checks, already: seq<Finding>) returns (b: seq<Finding>)
    requires k.strict
    ensures forall f :: f in b <==> (f in already || (f !in CORE_FINDINGS + PROOF_FINDINGS && Blocks(s, k, f)))
  {
    b := already;
    if s.runtimePresent {
      if s.observerSealed != Bool(true) || s.observerIntegrity != Str("sealed") {
        b := Note(b, true, ObserverNotSealed);
      } else {
        b := Note(b, k.probe != "" && s.observerDigest != Str(k.probe), ObserverSwapped);
      }
    }
    b := Note(b, s.redGreenOk == Bool(false), RedGreenFailed);
    b := NoteFailures(b, k.failures);
  }

  method NoteFailures(already: seq<Finding>, failures: seq<ProvenanceFailure>) returns (b: seq<Finding>)
    ensures forall f :: f in b <==> f in already || (f.NotTrusted? && f.failure in failures)
  {
    b := already;
    for i := 0 to |failures|
      invariant forall f :: f in b <==> f in already || (f.NotTrusted? && f.failure in failures[..i])
    {
      b := Note(b, true, NotTrusted(failures[i]));
    }
    assert failures[..|failures|] == failures;
  }

  method RequiredApprovals(s: Signals, tier: Tier) returns (approvals: seq<Approval>)
    ensures forall a :: a in approvals <==> NeedsApproval(s, tier, a)
  {
    approvals := Note([], tier == Critical, SeniorDeveloper);
    approvals := Note(approvals, s.sensitiveModel, FinanceOwner);
    approvals := Note(approvals, s.touchesController, ControllerReview);
    approvals := Note(approvals, s.touchesSecurity, AccessReview);
  }

  method GateDecision(s: Signals, tier: Tier, k: Checks, missing: set<Artifact>, req: set<Artifact>, doubtful: bool)
    returns (d: Decision)
    ensures Decides(s, tier, k, missing, req, doubtful, d)
  {
    var blocking := CoreFindings(s, k);
    if k.strict {
      blocking := ProofFindings(s, k, blocking);
      blocking := TrustFindings(s, k, blocking);
    }
    var missingEvidence := req * missing;
    var approvals := RequiredApprovals(s, tier);
    var softReview := k.strict && blocking == [] && s.noTargets;
    var verdict := Approve;
    if blocking != [] {
      verdict := Block;
    } else if tier in {Critical, High} || missingEvidence != {} || doubtful || approvals != [] || softReview {
      verdict := NeedsHuman;
    }
    d := Decision(verdict, approvals, blocking, missingEvidence);
  }

  // ------------------------------------------------------------------------
  // Attestations
  // ------------------------------------------------------------------------

  datatype EnvelopeFile = Unreadable | Envelope(doc: Json)

  /** CI-side settings; "" is unset. */
  datatype Ci = Ci(crypto: Crypto, key: Bytes, expectedHead: string, expectedProbe: string)

  predicate Hashes(c: Crypto, env: Json, bytes: Bytes) {
    Get(Get(env, "artifact"), "sha256") == Str(Sha256Hex(c, bytes))
  }

  predicate NameOk(env: Json, a: Artifact) {
    Get(env, "artifact_name").Str? && Get(env, "artifact_name").s in Aliases(a)
  }

  predicate HeadOk(env: Json, head: string) {
    var h := Get(Get(env, "subject"), "head_sha");
    h.Str? && h.s != "" && (head == "" || h.s == head)
  }

  /** An envelope that hashes these bytes, names this artifact and carries a fresh head. */
  predicate Binds(ci: Ci, env: Json, a: Artifact, bytes: Bytes) {
    Hashes(ci.crypto, env, bytes) && NameOk(env, a) && HeadOk(env, ci.expectedHead)
  }

  /** One verified envelope binds the file the gate read. */
  predicate Vouches(ci: Ci, e: EnvelopeFile, a: Artifact, bytes: Bytes) {
    e.Envelope? && Verified(ci.crypto, e.doc, ci.key) && Binds(ci, e.doc, a, bytes)
  }

  ghost predicate Vouched(ci: Ci, envelopes: seq<EnvelopeFile>, a: Artifact, bytes: Bytes) {
    exists e :: e in envelopes && Vouches(ci, e, a, bytes)
  }

  ghost predicate AllEnvelopesVerify(ci: Ci, envelopes: seq<EnvelopeFile>) {
    forall e :: e in envelopes ==> e.Envelope? && Verified(ci.crypto, e.doc, ci.key)
  }

  /** Nothing forged, unsigned, misnamed or stale among the envelopes and the required evidence. */
  ghost predicate Trusted(ci: Ci, envelopes: seq<EnvelopeFile>, ev: Evidence, req: set<Artifact>) {
    && AllEnvelopesVerify(ci, envelopes)
    && forall a :: a in req && a != Attestation && a in ev ==> Vouched(ci, envelopes, a, ev[a].bytes)
  }

  /** The envelopes that verify, in order. */
  function Accepted(ci: Ci, envelopes: seq<EnvelopeFile>): seq<Json> {
    if envelopes == [] then []
    else
      var e := envelopes[|envelopes| - 1];
      Accepted(ci, envelopes[..|envelopes| - 1]) +
        if e.Envelope? && Verified(ci.crypto, e.doc, ci.key) then [e.doc] else []
  }

  predicate SomeHashes(ci: Ci, accepted: seq<Json>, bytes: Bytes) {
    exists k :: 0 <= k < |accepted| && Hashes(ci.crypto, accepted[k], bytes)
  }

  predicate SomeNames(ci: Ci, accepted: seq<Json>, a: Artifact, bytes: Bytes) {
    exists k :: 0 <= k < |accepted| && Hashes(ci.crypto, accepted[k], bytes) && NameOk(accepted[k], a)
  }

  predicate SomeBinds(ci: Ci, accepted: seq<Json>, a: Artifact, bytes: Bytes) {
    exists k :: 0 <= k < |accepted| && Binds(ci, accepted[k], a, bytes)
  }

  /** What is wrong with the attestation of one consumed file: the furthest it got. */
  function BindingFault(ci: Ci, accepted: seq<Json>, a: Artifact, bytes: Bytes): Option<ProvenanceFailure> {
    if SomeBinds(ci, accepted, a, bytes) then None
    else if SomeNames(ci, accepted, a, bytes) then Some(WrongHead(a))
    else if SomeHashes(ci, accepted, bytes) then Some(WrongName(a))
    else Some(NotAttested(a))
  }

  /** The failures there are to report. */
  ghost predicate Reported(ci: Ci, envelopes: seq<EnvelopeFile>, ev: Evidence, req: set<Artifact>,
        f: ProvenanceFailure) {
    if f.BadEnvelope? then !AllEnvelopesVerify(ci, envelopes)
    else
      f.a in req && f.a != Attestation && f.a in ev &&
        BindingFault(ci, Accepted(ci, envelopes), f.a, ev[f.a].bytes) == Some(f)
  }

  method VerifyProvenance(ci: Ci, envelopes: seq<EnvelopeFile>, ev: Evidence, req: set<Artifact>)
    returns (failures: seq<ProvenanceFailure>, unverifiable: bool, checked: nat)
    ensures checked == |envelopes|
    ensures unverifiable <==> envelopes != [] && ci.key == ""
    ensures envelopes == [] || unverifiable ==> failures == []
    ensures envelopes != [] && !unverifiable ==> forall f :: f in failures <==> Reported(ci, envelopes, ev, req, f)
    ensures envelopes != [] && !unverifiable ==> (failures == [] <==> Trusted(ci, envelopes, ev, req))
  {
    if envelopes == [] {
      return [], false, 0;
    }
    if ci.key == "" {
      return [], true, |envelopes|;
    }
    unverifiable, checked := false, |envelopes|;
    var valid: seq<Json>;
    failures, valid := CheckEnvelopes(ci, envelopes);
    var todo := req - {Attestation};
    while todo != {}
      invariant todo <= req - {Attestation}
      invariant forall f :: f in failures <==> Reported(ci, envelopes, ev, req - todo, f)
      decreases todo
    {
      var a :| a in todo;
      var f := None;
      if a in ev {
        f := BindingFailure(ci, valid, a, ev[a].bytes);
      }
      ReportNext(ci, envelopes, ev, req - todo, a, if f.Some? then [f.value] else []);
      failures := failures + if f.Some? then [f.value] else [];
      assert req - (todo - {a}) == (req - todo) + {a};
      todo := todo - {a};
    }
    assert forall f :: Reported(ci, envelopes, ev, req - {}, f) <==> Reported(ci, envelopes, ev, req, f);
    TrustedIffSilent(ci, envelopes, ev, req);
    if failures != [] {
      assert failures[0] in failures;
    }
  }

  lemma ReportNext(ci: Ci, envelopes: seq<EnvelopeFile>, ev: Evidence, req: set<Artifact>, a: Artifact,
        more: seq<ProvenanceFailure>)
    requires a != Attestation
    requires more == if a !in ev then []
                     else match BindingFault(ci, Accepted(ci, envelopes), a, ev[a].bytes)
                       case None => []
                       case Some(f) => [f]
    ensures forall f :: Reported(ci, envelopes, ev, req + {a}, f) <==> Reported(ci, envelopes, ev, req, f) || f in more
  {
  }

  /** Nothing to report means everything is vouched for, and the other way round. */
  lemma TrustedIffSilent(ci: Ci, envelopes: seq<EnvelopeFile>, ev: Evidence, req: set<Artifact>)
    ensures Trusted(ci, envelopes, ev, req) <==> forall f :: !Reported(ci, envelopes, ev, req, f)
  {
    forall a | a in req && a != Attestation && a in ev
      ensures Vouched(ci, envelopes, a, ev[a].bytes) <==> Unfaulted(ci, envelopes, ev, req, a)
    {
      VouchedIffUnfaulted(ci, envelopes, ev, req, a);
    }
    if forall f :: !Reported(ci, envelopes, ev, req, f) {
      assert !Reported(ci, envelopes, ev, req, BadEnvelope);
      assert forall a :: a in req && a != Attestation && a in ev ==> Unfaulted(ci, envelopes, ev, req, a);
    }
  }

  /** None of the failures to report is about the artifact. */
  ghost predicate Unfaulted(ci: Ci, envelopes: seq<EnvelopeFile>, ev: Evidence, req: set<Artifact>, a: Artifact) {
    forall f :: Reported(ci, envelopes, ev, req, f) ==> f.BadEnvelope? || f.a != a
  }

  lemma VouchedIffUnfaulted(ci: Ci, envelopes: seq<EnvelopeFile>, ev: Evidence, req: set<Artifact>, a: Artifact)
    requires a in req && a != Attestation && a in ev
    ensures Vouched(ci, envelopes, a, ev[a].bytes) <==> Unfaulted(ci, envelopes, ev, req, a)
  {
    VouchedIffBound(ci, envelopes, a, ev[a].bytes);
    var f := BindingFault(ci, Accepted(ci, envelopes), a, ev[a].bytes);
    if f.Some? {
      assert Reported(ci, envelopes, ev, req, f.value);
    }
  }

  /** The pass over the envelope files. */
  method CheckEnvelopes(ci: Ci, envelopes: seq<EnvelopeFile>)
    returns (failures: seq<ProvenanceFailure>, valid: seq<Json>)
    ensures valid == Accepted(ci, envelopes)
    ensures forall f :: f in failures <==> f == BadEnvelope && !AllEnvelopesVerify(ci, envelopes)
  {
    failures, valid := [], [];
    for i := 0 to |envelopes|
      invariant valid == Accepted(ci, envelopes[..i])
      invariant forall f :: f in failures <==> f == BadEnvelope && !AllEnvelopesVerify(ci, envelopes[..i])
    {
      VerifySnoc(ci, envelopes, i);
      assert envelopes[..i + 1][..i] == envelopes[..i];
      match envelopes[i] {
        case Unreadable => failures := failures + [BadEnvelope];
        case Envelope(env) =>
          var raised, reasons := VerifyEnvelope(ci.crypto, env, Some(ci.key));
          if raised || reasons != [] {
            failures := failures + [BadEnvelope];
          } else {
            valid := valid + [env];
          }
      }
    }
    assert envelopes[..|envelopes|] == envelopes;
  }

  lemma VerifySnoc(ci: Ci, envelopes: seq<EnvelopeFile>, i: nat)
    requires i < |envelopes|
    ensures AllEnvelopesVerify(ci, envelopes[..i + 1]) <==>
      (AllEnvelopesVerify(ci, envelopes[..i])
       && envelopes[i].Envelope? && Verified(ci.crypto, envelopes[i].doc, ci.key))
  {
    var before, after := envelopes[..i], envelopes[..i + 1];
    assert after == before + [envelopes[i]];
    assert forall e :: e in after <==> e in before || e == envelopes[i];
  }

  method BindingFailure(ci: Ci, valid: seq<Json>, a: Artifact, bytes: Bytes) returns (f: Option<ProvenanceFailure>)
    ensures f == BindingFault(ci, valid, a, bytes)
  {
    var hashed, named := false, false;
    for i := 0 to |valid|
      invariant hashed == SomeHashes(ci, valid[..i], bytes) && named == SomeNames(ci, valid[..i], a, bytes)
      invariant !SomeBinds(ci, valid[..i], a, bytes)
    {
      HashesNext(ci, valid, bytes, i);
      NamesNext(ci, valid, a, bytes, i);
      BindsNext(ci, valid, a, bytes, i);
      if Hashes(ci.crypto, valid[i], bytes) {
        hashed := true;
        if NameOk(valid[i], a) {
          named := true;
          if HeadOk(valid[i], ci.expectedHead) {
            assert Binds(ci, valid[i], a, bytes);
            return None;
          }
        }
      }
    }
    assert valid[..|valid|] == valid;
    f := Some(if named then WrongHead(a) else if hashed then WrongName(a) else NotAttested(a));
  }

  lemma HashesNext(ci: Ci, accepted: seq<Json>, bytes: Bytes, i: nat)
    requires i < |accepted|
    ensures SomeHashes(ci, accepted[..i + 1], bytes) <==>
      SomeHashes(ci, accepted[..i], bytes) || Hashes(ci.crypto, accepted[i], bytes)
  {
    var before, after := accepted[..i], accepted[..i + 1];
    assert after == before + [accepted[i]] && after[i] == accepted[i];
    assert forall k :: 0 <= k < i ==> before[k] == after[k];
  }

  lemma NamesNext(ci: Ci, accepted: seq<Json>, a: Artifact, bytes: Bytes, i: nat)
    requires i < |accepted|
    ensures SomeNames(ci, accepted[..i + 1], a, bytes) <==>
            SomeNames(ci, accepted[..i], a, bytes) || (Hashes(ci.crypto, accepted[i], bytes) && NameOk(accepted[i], a))
  {
    var before, after := accepted[..i], accepted[..i + 1];
    assert after == before + [accepted[i]] && after[i] == accepted[i];
    assert forall k :: 0 <= k < i ==> before[k] == after[k];
  }

  lemma BindsNext(ci: Ci, accepted: seq<Json>, a: Artifact, bytes: Bytes, i: nat)
    requires i < |accepted|
    ensures SomeBinds(ci, accepted[..i + 1], a, bytes) <==>
      SomeBinds(ci, accepted[..i], a, bytes) || Binds(ci, accepted[i], a, bytes)
  {
    var before, after := accepted[..i], accepted[..i + 1];
    assert after == before + [accepted[i]] && after[i] == accepted[i];
    assert forall k :: 0 <= k < i ==> before[k] == after[k];
  }

  lemma {:induction false} AcceptedAre(ci: Ci, envelopes: seq<EnvelopeFile>)
    ensures forall env :: env in Accepted(ci, envelopes) <==>
      Envelope(env) in envelopes && Verified(ci.crypto, env, ci.key)
  {
    if envelopes != [] {
      var n := |envelopes| - 1;
      AcceptedAre(ci, envelopes[..n]);
      assert envelopes == envelopes[..n] + [envelopes[n]];
    }
  }

  lemma VouchedIffBound(ci: Ci, envelopes: seq<EnvelopeFile>, a: Artifact, bytes: Bytes)
    ensures Vouched(ci, envelopes, a, bytes) <==> SomeBinds(ci, Accepted(ci, envelopes), a, bytes)
  {
    AcceptedAre(ci, envelopes);
    var accepted := Accepted(ci, envelopes);
    if Vouched(ci, envelopes, a, bytes) {
      var e :| e in envelopes && Vouches(ci, e, a, bytes);
      assert Envelope(e.doc) == e && e.doc in accepted;
      var k :| 0 <= k < |accepted| && accepted[k] == e.doc;
      assert Binds(ci, accepted[k], a, bytes);
    }
    if k :| 0 <= k < |accepted| && Binds(ci, accepted[k], a, bytes) {
      assert accepted[k] in accepted;
      assert Vouches(ci, Envelope(accepted[k]), a, bytes);
    }
  }

  // ------------------------------------------------------------------------
  // The fail-closed policy
  // ------------------------------------------------------------------------

  datatype PolicyFile = NoFile | BadFile | PolicyDoc(doc: Json)

  datatype Policy = Policy(severities: set<string>, roles: set<string>)

  function PolicyOf(d: Json): Policy {
    Policy(StringsOf(Get(d, "fail_closed_severities")), StringsOf(Get(d, "required_signoff_roles")))
  }

  /** First usable source wins: the --policy file, then gate_policy.json, then the environment. */
  function ResolvePolicy(given: PolicyFile, inBundle: PolicyFile, fromEnv: set<string>): Option<Policy> {
    if given.PolicyDoc? && given.doc.Obj? then Some(PolicyOf(given.doc))
    else if inBundle.PolicyDoc? && inBundle.doc.Obj? then Some(PolicyOf(inBundle.doc))
    else if fromEnv != {} then Some(Policy(fromEnv, {}))
    else None
  }

  predicate NamedSignoff(j: Json, role: string) {
    Get(j, "role") == Str(role) && Get(j, "name").Str? && !Blank(Get(j, "name").s)
  }

  /** A well-shaped sign-off file whose named entries cover every required role. */
  predicate SignoffCovers(signoff: PolicyFile, roles: set<string>) {
    && signoff.PolicyDoc? && signoff.doc.Obj? && Get(signoff.doc, "signoffs").List?
    && forall r :: r in roles ==> exists x :: x in Get(signoff.doc, "signoffs").items && NamedSignoff(x, r)
  }

  datatype Entry = BlockingEntry(f: Finding) | MissingEntry(a: Artifact) | ApprovalEntry(needed: Approval)

  function Severity(e: Entry): string {
    match e
    case BlockingEntry(f) =>
      (match f
       case SecretsFound => "S4"
       case NotTrusted(_) => "S4"
       case UpgradeBlocking => "S3"
       case _ => "S2")
    case MissingEntry(a) =>
      (match a
       case Security => "S4"
       case ScanSecrets => "S4"
       case Attestation => "S4"
       case Upgrade => "S3"
       case _ => "S2")
    case ApprovalEntry(needed) =>
      (match needed
       case SeniorDeveloper => "S3"
       case FinanceOwner => "S3"
       case ControllerReview => "S4"
       case AccessReview => "S4")
  }

  /** One entry per distinct surfaced item. */
  ghost predicate Details(d: Decision, detail: seq<Entry>) {
    && Distinct(detail)
    && forall e :: e in detail <==>
         (match e
          case BlockingEntry(f) => f in d.blocking
          case MissingEntry(a) => a in d.missing
          case ApprovalEntry(n) => n in d.approvals)
  }

  method BuildFindingsDetail(d: Decision) returns (detail: seq<Entry>)
    ensures Details(d, detail)
  {
    detail := [];
    for i := 0 to |d.blocking|
      invariant Distinct(detail)
      invariant forall e :: e in detail <==> e.BlockingEntry? && e.f in d.blocking[..i]
    {
      if BlockingEntry(d.blocking[i]) !in detail {
        detail := detail + [BlockingEntry(d.blocking[i])];
      }
    }
    var todo := d.missing;
    while todo != {}
      invariant todo <= d.missing && Distinct(detail)
      invariant forall e :: e in detail <==>
                  (e.BlockingEntry? && e.f in d.blocking) || (e.MissingEntry? && e.a in d.missing - todo)
      decreases todo
    {
      var a :| a in todo;
      todo := todo - {a};
      detail := detail + [MissingEntry(a)];
    }
    for i := 0 to |d.approvals|
      invariant Distinct(detail)
      invariant forall e :: e in detail <==>
                  (e.BlockingEntry? && e.f in d.blocking) || (e.MissingEntry? && e.a in d.missing)
                  || (e.ApprovalEntry? && e.needed in d.approvals[..i])
    {
      if ApprovalEntry(d.approvals[i]) !in detail {
        detail := detail + [ApprovalEntry(d.approvals[i])];
      }
    }
  }

  predicate Triggers(detail: seq<Entry>, severities: set<string>) {
    exists e :: e in detail && Severity(e) in severities
  }

  /** What the policy step makes of the decision it is given. */
  function Enforced(verdict: Verdict, detail: seq<Entry>, policy: Option<Policy>, signoff: PolicyFile): Verdict {
    if policy.None? || !Triggers(detail, policy.value.severities) then verdict
    else if !SignoffCovers(signoff, policy.value.roles) then Block
    else if verdict == Approve then NeedsHuman
    else verdict
  }

  // ------------------------------------------------------------------------
  // The whole report
  // ------------------------------------------------------------------------

  datatype Bundle = Bundle(
    files: map<Artifact, seq<EvidenceFile>>, manifest: ManifestFile, envelopes: seq<EnvelopeFile>,
    policyFile: PolicyFile, signoff: PolicyFile)

  datatype Options = Options(strict: bool, policyFile: PolicyFile, policyEnv: set<string>)

  /** What was read and checked, before deciding. */
  datatype Assessment = Assessment(
    flags: Flags, evidence: Evidence, signals: Signals, tier: Tier, required: set<Artifact>, absent: set<Artifact>,
    doubtful: bool, failures: seq<ProvenanceFailure>)

  /** The decision, its itemised findings, and the verdict after the policy step. */
  datatype Report = Report(seen: Assessment, base: Decision, detail: seq<Entry>, verdict: Verdict)

  function FilesOf(b: Bundle, a: Artifact): seq<EvidenceFile> {
    if a in b.files then b.files[a] else []
  }

  function Consumed(b: Bundle, strict: bool): Evidence {
    map a | a in NamesRead(strict) && Chosen(a, FilesOf(b, a)).Some? :: Chosen(a, FilesOf(b, a)).value
  }

  predicate AnyDoubtful(b: Bundle, strict: bool) {
    ManifestDoubtful(b.manifest) || SomeDoubtful(b, NamesRead(strict))
  }

  predicate SomeDoubtful(b: Bundle, names: set<Artifact>) {
    exists a :: a in names && Doubtful(a, FilesOf(b, a))
  }

  lemma DoubtSnoc(b: Bundle, names: set<Artifact>, a: Artifact)
    ensures SomeDoubtful(b, names + {a}) <==> SomeDoubtful(b, names) || Doubtful(a, FilesOf(b, a))
  {
    assert a in names + {a};
  }

  /** Attestations count as present only when some exist, can be checked and all hold. */
  ghost predicate Attested(ci: Ci, b: Bundle, ev: Evidence, req: set<Artifact>) {
    b.envelopes != [] && ci.key != "" && Trusted(ci, b.envelopes, ev, req)
  }

  /** Strict doubts on top of unreadable evidence: nothing to bind the attestations or the observer to. */
  predicate Unpinned(ci: Ci, b: Bundle, s: Signals) {
    || (b.envelopes != [] && (ci.key == "" || ci.expectedHead == ""))
    || (s.runtimePresent && ci.expectedProbe == "")
  }

  ghost predicate Checked(ci: Ci, b: Bundle, strict: bool, n: Assessment) {
    && n.evidence == Consumed(b, strict)
    && n.required == Required(n.flags, strict)
    && n.absent == NamesRead(strict) - n.evidence.Keys
                   + (if strict && !Attested(ci, b, n.evidence, n.required) then {Attestation} else {})
    && (n.doubtful <==> AnyDoubtful(b, strict) || (strict && Unpinned(ci, b, n.signals)))
    && (n.failures != [] <==>
          strict && b.envelopes != [] && ci.key != "" && !Trusted(ci, b.envelopes, n.evidence, n.required))
  }

  ghost predicate Classified(n: Assessment) {
    && n.signals == Assemble(n.evidence, n.flags)
    && (n.tier == Critical <==> IsCritical(n.signals))
    && (n.tier == Normal <==> !IsCritical(n.signals) && !IsElevated(n.signals))
  }

  ghost predicate IsAssessment(ci: Ci, b: Bundle, strict: bool, n: Assessment) {
    n.flags == ManifestFlags(b.manifest) && Checked(ci, b, strict, n) && Classified(n)
  }

  /** How a report follows from the bundle, the settings and the mode. */
  ghost predicate IsReport(ci: Ci, b: Bundle, o: Options, r: Report) {
    && IsAssessment(ci, b, o.strict, r.seen)
    && Decides(r.seen.signals, r.seen.tier, Checks(o.strict, ci.expectedProbe, r.seen.failures),
               r.seen.absent, r.seen.required, r.seen.doubtful, r.base)
    && Details(r.base, r.detail)
    && r.verdict == Enforced(r.base.verdict, r.detail, ResolvePolicy(o.policyFile, b.policyFile, o.policyEnv),
      b.signoff)
  }

  /** What is consumed of some of the artifacts. */
  function ConsumedFrom(b: Bundle, names: set<Artifact>): Evidence {
    map a | a in names && Chosen(a, FilesOf(b, a)).Some? :: Chosen(a, FilesOf(b, a)).value
  }

  lemma ConsumedNext(b: Bundle, names: set<Artifact>, a: Artifact)
    ensures ConsumedFrom(b, names + {a}) ==
            var chosen := Chosen(a, FilesOf(b, a));
            if chosen.Some? then ConsumedFrom(b, names)[a := chosen.value] else ConsumedFrom(b, names)
  {
  }

  method ReadBundle(b: Bundle, strict: bool) returns (ev: Evidence, doubtful: bool)
    ensures ev == Consumed(b, strict) && doubtful == AnyDoubtful(b, strict)
  {
    ev, doubtful := ReadNames(b, NamesRead(strict));
    doubtful := doubtful || ManifestDoubtful(b.manifest);
    assert ConsumedFrom(b, NamesRead(strict)) == Consumed(b, strict);
  }

  method ReadNames(b: Bundle, names: set<Artifact>) returns (ev: Evidence, doubtful: bool)
    ensures ev == ConsumedFrom(b, names) && doubtful == SomeDoubtful(b, names)
  {
    ev, doubtful := map[], false;
    var todo := names;
    ghost var done: set<Artifact> := {};
    while todo != {}
      invariant names == done + todo
      invariant ev == ConsumedFrom(b, done) && doubtful == SomeDoubtful(b, done)
      decreases todo
    {
      var a :| a in todo;
      todo := todo - {a};
      DoubtSnoc(b, done, a);
      ConsumedNext(b, done, a);
      var chosen, bad := ReadArtifact(a, FilesOf(b, a));
      doubtful := doubtful || bad;
      if chosen.Some? {
        ev := ev[a := chosen.value];
      }
      done := done + {a};
    }
    assert done == names;
  }

  method StrictChecks(ci: Ci, b: Bundle, ev: Evidence, req: set<Artifact>, s: Signals)
    returns (failures: seq<ProvenanceFailure>, attested: bool, unpinned: bool)
    ensures attested <==> Attested(ci, b, ev, req)
    ensures failures != [] <==> b.envelopes != [] && ci.key != "" && !Trusted(ci, b.envelopes, ev, req)
    ensures unpinned <==> Unpinned(ci, b, s)
  {
    var unverifiable, checked;
    failures, unverifiable, checked := VerifyProvenance(ci, b.envelopes, ev, req);
    unpinned := checked > 0 && ci.expectedHead == "" && !unverifiable;
    attested := checked > 0 && !unverifiable && failures == [];
    if unverifiable {
      unpinned := true;
    }
    if s.runtimePresent && ci.expectedProbe == "" {
      unpinned := true;
    }
  }

  method Assess(ci: Ci, b: Bundle, strict: bool) returns (n: Assessment)
    ensures IsAssessment(ci, b, strict, n)
  {
    var ev, doubtful := ReadBundle(b, strict);
    var flags := ManifestFlags(b.manifest);
    var req := Required(flags, strict);
    var signals := Assemble(ev, flags);
    var tier := ClassifyChangeRisk(signals);
    var failures, lacking, unpinned := ChecksFor(strict, ci, b, ev, req, signals);
    n := Assessment(flags, ev, signals, tier, req, NamesRead(strict) - ev.Keys + lacking,
      doubtful || unpinned, failures);
    AssessedSoundly(ci, b, strict, n, doubtful, lacking, unpinned);
  }

  lemma AssessedSoundly(ci: Ci, b: Bundle, strict: bool, n: Assessment, doubtful: bool, lacking: set<Artifact>,
        unpinned: bool)
    requires n.evidence == Consumed(b, strict) && n.required == Required(n.flags, strict)
    requires n.absent == NamesRead(strict) - n.evidence.Keys + lacking
    requires lacking == if strict && !Attested(ci, b, n.evidence, n.required) then {Attestation} else {}
    requires n.doubtful == (doubtful || unpinned) && doubtful == AnyDoubtful(b, strict)
    requires unpinned == (strict && Unpinned(ci, b, n.signals))
    requires n.failures != [] <==>
      strict && b.envelopes != [] && ci.key != "" && !Trusted(ci, b.envelopes, n.evidence, n.required)
    ensures Checked(ci, b, strict, n)
  {
  }

  /** Legacy mode checks nothing here. */
  method ChecksFor(strict: bool, ci: Ci, b: Bundle, ev: Evidence, req: set<Artifact>, s: Signals)
    returns (failures: seq<ProvenanceFailure>, lacking: set<Artifact>, unpinned: bool)
    ensures lacking == if strict && !Attested(ci, b, ev, req) then {Attestation} else {}
    ensures failures != [] <==> strict && b.envelopes != [] && ci.key != "" && !Trusted(ci, b.envelopes, ev, req)
    ensures unpinned <==> strict && Unpinned(ci, b, s)
  {
    failures, lacking, unpinned := [], {}, false;
    if strict {
      var attested;
      failures, attested, unpinned := StrictChecks(ci, b, ev, req, s);
      if !attested {
        lacking := {Attestation};
      }
    }
  }

  method BuildReport(ci: Ci, b: Bundle, o: Options) returns (r: Report)
    ensures IsReport(ci, b, o, r)
  {
    var n := Assess(ci, b, o.strict);
    var k := Checks(o.strict, ci.expectedProbe, n.failures);
    var base := GateDecision(n.signals, n.tier, k, n.absent, n.required, n.doubtful);
    var detail := BuildFindingsDetail(base);
    var verdict := EnforcePolicy(base.verdict, detail, ResolvePolicy(o.policyFile, b.policyFile, o.policyEnv),
      b.signoff);
    r := Report(n, base, detail, verdict);
  }

  method EnforcePolicy(decided: Verdict, detail: seq<Entry>, policy: Option<Policy>, signoff: PolicyFile)
    returns (verdict: Verdict)
    ensures verdict == Enforced(decided, detail, policy, signoff)
  {
    verdict := decided;
    if policy.Some? && Triggers(detail, policy.value.severities) {
      if !SignoffCovers(signoff, policy.value.roles) {
        verdict := Block;
      } else if verdict == Approve {
        verdict := NeedsHuman;
      }
    }
  }
}
