/** What the deploy gate's demands, tier and verdicts mean, told from the evidence documents and the change manifest
    rather than from the signals the gate derives from them (deploy_gate.py). */
module GateMeaning {
  import opened Orders
  import opened JsonDoc
  import opened Provenance
  import opened Producers
  import opened Gate
  import opened Attestations
  import GateTheorems

  // ------------------------------------------------------------------------
  // The change
  // ------------------------------------------------------------------------

  /** The manifest lists the text under the key. */
  predicate Lists(m: ManifestFile, key: string, s: string) {
    m.Manifest? && Get(m.doc, key).List? && Str(s) in Get(m.doc, key).items
  }

  predicate Says(m: ManifestFile, key: string) {
    m.Manifest? && Truthy(Get(m.doc, key))
  }

  function Plain(file: string): string {
    Posix(Lower(file))
  }

  ghost predicate Migrates(m: ManifestFile) {
    Says(m, "has_migration") || exists f :: Lists(m, "changed_files", f) && Contains(Plain(f), "migrations/")
  }

  ghost predicate ChangesControllers(m: ManifestFile) {
    Says(m, "touches_controller") || exists f :: Lists(m, "changed_files", f) && Contains(Plain(f), "controllers/")
  }

  ghost predicate ChangesAccess(m: ManifestFile) {
    Says(m, "touches_security") || exists f :: Lists(m, "changed_files", f) && IsAccessFile(Plain(f))
  }

  predicate IsAccessFile(f: string) {
    Contains(f, "security/") || Contains(f, "ir.rule") || Contains(f, "ir_rule")
    || (Contains(f, "access") && EndsWith(f, ".csv"))
  }

  predicate FixesBug(m: ManifestFile) {
    Says(m, "is_bugfix") || (m.Manifest? && Get(m.doc, "change_type") == Str("bugfix"))
  }

  predicate IsFinancial(name: string) {
    var n := Lower(name);
    || Contains(n, "account") || Contains(n, "stock") || Contains(n, "payment") || Contains(n, "hr")
    || Contains(n, "payroll")
  }

  lemma StringsListed(m: ManifestFile, key: string)
    ensures forall s :: s in StringsOf(Get(if m.Manifest? then m.doc else Null, key)) <==> Lists(m, key, s)
  {
    var j := Get(if m.Manifest? then m.doc else Null, key);
    forall s | Lists(m, key, s) ensures s in StringsOf(j) { assert Str(s) in j.items && Str(s).Str?; }
    forall s | s in StringsOf(j) ensures Lists(m, key, s) { var x :| x in j.items && x.Str? && x.s == s; }
  }

  lemma FilesListed(m: ManifestFile)
    ensures var files := ManifestFlags(m).changedFiles;
            && (forall f :: Lists(m, "changed_files", f) ==> Plain(f) in files)
            && (forall p :: p in files ==> exists f :: Lists(m, "changed_files", f) && p == Plain(f))
  {
    StringsListed(m, "changed_files");
    var files := ManifestFlags(m).changedFiles;
    forall p | p in files ensures exists f :: Lists(m, "changed_files", f) && p == Plain(f) {
      var f :| f in StringsOf(Get(if m.Manifest? then m.doc else Null, "changed_files")) && p == Posix(Lower(f));
      assert Lists(m, "changed_files", f) && p == Plain(f);
    }
  }

  lemma FlagsMean(m: ManifestFile)
    ensures var flags := ManifestFlags(m);
            && (flags.hasMigration <==> Migrates(m))
            && (flags.touchesController <==> ChangesControllers(m))
            && (flags.touchesSecurity <==> ChangesAccess(m))
            && (flags.isBugfix <==> FixesBug(m))
            && (forall s :: s in flags.touchedModels <==> Lists(m, "touched_models", s))
  {
    var flags := ManifestFlags(m);
    FilesListed(m);
    StringsListed(m, "touched_models");
    forall f | Lists(m, "changed_files", f)
      ensures MigrationPath(Plain(f)) <==> Contains(Plain(f), "migrations/")
      ensures ControllerPath(Plain(f)) <==> Contains(Plain(f), "controllers/")
      ensures SecurityPath(Plain(f)) <==> IsAccessFile(Plain(f))
    {
    }
    FlagByFile(m, MigrationPath, f => Contains(f, "migrations/"));
    FlagByFile(m, ControllerPath, f => Contains(f, "controllers/"));
    FlagByFile(m, SecurityPath, IsAccessFile);
  }

  lemma FlagByFile(m: ManifestFile, p: string -> bool, q: string -> bool)
    requires forall f :: p(f) == q(f)
    ensures (exists f :: f in ManifestFlags(m).changedFiles && p(f)) <==>
            exists f :: Lists(m, "changed_files", f) && q(Plain(f))
  {
    FilesListed(m);
  }

  lemma FinancialName(name: string)
    ensures SensitiveName(name) <==> IsFinancial(name)
  {
    var parts := {"account", "stock", "payment", "hr", "payroll"};
    if IsFinancial(name) {
      assert exists k :: k in parts && Contains(Lower(name), k);
    }
  }

  // ------------------------------------------------------------------------
  // What is demanded
  // ------------------------------------------------------------------------

  /** The artifacts a change needs. */
  ghost predicate Demanded(m: ManifestFile, strict: bool, a: Artifact) {
    || a in {NativeCheck, Scenarios, Validate, ScanSecrets}
    || (a == Upgrade && Migrates(m))
    || (a == Security && (ChangesAccess(m) || ChangesControllers(m)))
    || (strict && a in {DiffTargets, ChangedCoverage, RuntimePath, TestQuality, ScenarioSatisfaction, MutationSmoke})
    || (strict && a == Attestation)
    || (strict && a == RedGreenReplay && FixesBug(m))
  }

  /** Some file of the artifact has the shape its kind demands. */
  ghost predicate HasUsable(b: Bundle, a: Artifact) {
    a in b.files && exists d :: Parsed(d) in b.files[a] && ArtifactValid(a, d.json)
  }

  /** Attestations are there, can be checked and all verify, and every other demanded artifact that was read is
      bound. */
  ghost predicate AllAttested(ci: Ci, b: Bundle, r: Report) {
    && b.envelopes != [] && ci.key != ""
    && (forall e :: e in b.envelopes ==> e.Envelope? && Verified(ci.crypto, e.doc, ci.key))
    && forall a :: a in r.seen.required && a != Attestation && a in r.seen.evidence ==>
         BoundTo(ci, b.envelopes, a, r.seen.evidence[a].bytes)
  }

  lemma RequiredMeans(m: ManifestFile, strict: bool)
    ensures forall a :: a in Required(ManifestFlags(m), strict) <==> Demanded(m, strict, a)
  {
    FlagsMean(m);
    forall a ensures a in Required(ManifestFlags(m), strict) <==> Demanded(m, strict, a) {
      DemandedIff(ManifestFlags(m), m, strict, a);
    }
  }

  lemma DemandedIff(flags: Flags, m: ManifestFile, strict: bool, a: Artifact)
    requires flags.hasMigration == Migrates(m) && flags.touchesController == ChangesControllers(m)
    requires flags.touchesSecurity == ChangesAccess(m) && flags.isBugfix == FixesBug(m)
    ensures a in Required(flags, strict) <==> Demanded(m, strict, a)
  {
  }

  lemma UsableIsConsumed(b: Bundle, a: Artifact)
    ensures Chosen(a, FilesOf(b, a)).Some? <==> HasUsable(b, a)
  {
    var docs := Readable(a, FilesOf(b, a));
    ReadableSound(a, FilesOf(b, a));
    if docs != [] { assert docs[0] in docs; }
  }

  lemma AttestedMeans(ci: Ci, b: Bundle, r: Report)
    ensures Attested(ci, b, r.seen.evidence, r.seen.required) <==> AllAttested(ci, b, r)
  {
    forall a | a in r.seen.required && a != Attestation && a in r.seen.evidence
      ensures Vouched(ci, b.envelopes, a, r.seen.evidence[a].bytes) <==>
              BoundTo(ci, b.envelopes, a, r.seen.evidence[a].bytes)
    {
      BoundMeans(ci, b.envelopes, a, r.seen.evidence[a].bytes);
    }
  }

  /** An artifact is missing exactly when the change demands it and no file of it is usable; attestations are missing
      when they are demanded and not all in order. */
  lemma MissingMeans(ci: Ci, b: Bundle, o: Options, r: Report, a: Artifact)
    requires IsReport(ci, b, o, r)
    ensures a in r.base.missing <==>
              Demanded(b.manifest, o.strict, a)
              && (if a == Attestation then !AllAttested(ci, b, r) else !HasUsable(b, a))
  {
    MissingIs(ci, b, o, r);
    RequiredMeans(b.manifest, o.strict);
    UsableIsConsumed(b, a);
    AttestedMeans(ci, b, r);
    DemandedIsRead(b.manifest, o.strict, a);
    AbsentIff(b, o.strict, Attested(ci, b, r.seen.evidence, r.seen.required), r.seen.absent, a);
  }

  lemma MissingIs(ci: Ci, b: Bundle, o: Options, r: Report)
    requires IsReport(ci, b, o, r)
    ensures r.base.missing == r.seen.required * r.seen.absent
    ensures r.seen.required == Required(ManifestFlags(b.manifest), o.strict)
    ensures r.seen.absent == NamesRead(o.strict) - Consumed(b, o.strict).Keys
              + (if o.strict && !Attested(ci, b, r.seen.evidence, r.seen.required) then {Attestation} else {})
  {
  }

  lemma AbsentIff(b: Bundle, strict: bool, attested: bool, absent: set<Artifact>, a: Artifact)
    requires absent == NamesRead(strict) - Consumed(b, strict).Keys
               + (if strict && !attested then {Attestation} else {})
    ensures a in absent <==>
              (a in NamesRead(strict) && Chosen(a, FilesOf(b, a)).None?) || (a == Attestation && strict && !attested)
  {
  }

  lemma DemandedIsRead(m: ManifestFile, strict: bool, a: Artifact)
    ensures Demanded(m, strict, a) ==> a == Attestation || a in NamesRead(strict)
    ensures Demanded(m, strict, Attestation) <==> strict
    ensures Attestation !in NamesRead(strict)
  {
  }

  // ------------------------------------------------------------------------
  // The tier and the approvals
  // ------------------------------------------------------------------------

  predicate Positive(j: Json) {
    j.Int? && j.i > 0
  }

  function Summary(ev: Evidence, a: Artifact, k: string): Json {
    Get(Get(Read(ev, a), "summary"), k)
  }

  predicate IsCriticalChange(ev: Evidence) {
    || Positive(Summary(ev, Validate, "blocking")) || Positive(Summary(ev, Upgrade, "blocking"))
    || Positive(Get(Read(ev, ScanSecrets), "count"))
    || Summary(ev, EnvDiff, "severity") == Str("high")
    || Get(Get(Read(ev, Scenarios), "risk"), "tier") == Str("critical")
  }

  ghost predicate IsRiskyChange(ev: Evidence, m: ManifestFile) {
    || Positive(Summary(ev, Validate, "warning")) || Positive(Summary(ev, Upgrade, "warning"))
    || Get(Get(Read(ev, Scenarios), "risk"), "tier") == Str("high")
    || Truthy(Get(Read(ev, Security), "is_superuser")) || Truthy(Get(Read(ev, Security), "_warnings"))
    || ChangesControllers(m) || ChangesAccess(m)
  }

  /** Models touched, files changed, or models the scenarios or the security report are about. */
  ghost predicate IsFinancialChange(ev: Evidence, m: ManifestFile) {
    || (exists s :: Lists(m, "touched_models", s) && IsFinancial(s))
    || (exists f :: Lists(m, "changed_files", f) && IsFinancial(Plain(f)))
    || NamesFinancial(Get(Get(Read(ev, Scenarios), "risk"), "model"))
    || NamesFinancial(Get(Read(ev, Scenarios), "model"))
    || NamesFinancial(Get(Read(ev, Security), "model")) || NamesFinancial(Get(Read(ev, Security), "model_name"))
  }

  predicate NamesFinancial(j: Json) {
    j.Str? && IsFinancial(j.s)
  }

  /** The signals that come from the core documents. */
  predicate CoreSignals(s: Signals, ev: Evidence) {
    && (s.validateBlocking > 0 <==> Positive(Summary(ev, Validate, "blocking")))
    && (s.validateWarning > 0 <==> Positive(Summary(ev, Validate, "warning")))
    && (s.upgradeBlocking > 0 <==> Positive(Summary(ev, Upgrade, "blocking")))
    && (s.upgradeWarning > 0 <==> Positive(Summary(ev, Upgrade, "warning")))
    && (s.secrets > 0 <==> Positive(Get(Read(ev, ScanSecrets), "count")))
    && (s.envDiffHigh <==> Summary(ev, EnvDiff, "severity") == Str("high"))
    && s.scenarioTier == Get(Get(Read(ev, Scenarios), "risk"), "tier")
    && (s.superuser <==> Truthy(Get(Read(ev, Security), "is_superuser")))
    && (s.securityWarnings <==> Truthy(Get(Read(ev, Security), "_warnings")))
  }

  lemma CoreSignalsMean(ev: Evidence, flags: Flags)
    ensures CoreSignals(Assemble(ev, flags), ev)
    ensures Assemble(ev, flags).touchesSecurity == flags.touchesSecurity
    ensures Assemble(ev, flags).touchesController == flags.touchesController
  {
  }

  /** The tier is critical exactly for blocking issues, secrets, an environment that differs highly or a critical
      scenario risk, and normal exactly when none of that and nothing risky is there. */
  lemma TierMeans(ci: Ci, b: Bundle, o: Options, r: Report)
    requires IsReport(ci, b, o, r)
    ensures r.seen.tier == Critical <==> IsCriticalChange(r.seen.evidence)
    ensures r.seen.tier == Normal <==>
              !IsCriticalChange(r.seen.evidence) && !IsRiskyChange(r.seen.evidence, b.manifest)
  {
    FlagsMean(b.manifest);
    CoreSignalsMean(r.seen.evidence, r.seen.flags);
  }

  ghost predicate FinancialFlags(flags: Flags) {
    || (exists f :: f in flags.changedFiles && SensitiveName(f))
    || (exists s :: s in flags.touchedModels && SensitiveName(s))
  }

  lemma SensitiveSignal(ev: Evidence, flags: Flags)
    ensures Assemble(ev, flags).sensitiveModel <==>
              || SensitiveHint(Get(Get(Read(ev, Scenarios), "risk"), "model"))
              || SensitiveHint(Get(Read(ev, Scenarios), "model"))
              || SensitiveHint(Get(Read(ev, Security), "model")) || SensitiveHint(Get(Read(ev, Security), "model_name"))
              || FinancialFlags(flags)
  {
  }

  lemma FinancialFlagsMean(m: ManifestFile)
    ensures FinancialFlags(ManifestFlags(m)) <==>
              || (exists s :: Lists(m, "touched_models", s) && IsFinancial(s))
              || (exists f :: Lists(m, "changed_files", f) && IsFinancial(Plain(f)))
  {
    forall n ensures SensitiveName(n) <==> IsFinancial(n) { FinancialName(n); }
    FlagByFile(m, SensitiveName, IsFinancial);
    StringsListed(m, "touched_models");
    assert ManifestFlags(m).touchedModels == StringsOf(Get(if m.Manifest? then m.doc else Null, "touched_models"));
  }

  lemma FinancialMeans(ev: Evidence, m: ManifestFile)
    ensures Assemble(ev, ManifestFlags(m)).sensitiveModel <==> IsFinancialChange(ev, m)
  {
    SensitiveSignal(ev, ManifestFlags(m));
    FinancialFlagsMean(m);
    forall n ensures SensitiveName(n) <==> IsFinancial(n) { FinancialName(n); }
  }

  /** Who must approve. */
  lemma ApprovalsMean(ci: Ci, b: Bundle, o: Options, r: Report)
    requires IsReport(ci, b, o, r)
    ensures SeniorDeveloper in r.base.approvals <==> IsCriticalChange(r.seen.evidence)
    ensures FinanceOwner in r.base.approvals <==> IsFinancialChange(r.seen.evidence, b.manifest)
    ensures ControllerReview in r.base.approvals <==> ChangesControllers(b.manifest)
    ensures AccessReview in r.base.approvals <==> ChangesAccess(b.manifest)
  {
    ApprovalsAre(ci, b, o, r);
    TierMeans(ci, b, o, r);
    FlagsMean(b.manifest);
    FinancialMeans(r.seen.evidence, b.manifest);
    CoreSignalsMean(r.seen.evidence, r.seen.flags);
  }

  lemma ApprovalsAre(ci: Ci, b: Bundle, o: Options, r: Report)
    requires IsReport(ci, b, o, r)
    ensures r.seen.flags == ManifestFlags(b.manifest) && r.seen.signals == Assemble(r.seen.evidence, r.seen.flags)
    ensures SeniorDeveloper in r.base.approvals <==> r.seen.tier == Critical
    ensures FinanceOwner in r.base.approvals <==> r.seen.signals.sensitiveModel
    ensures ControllerReview in r.base.approvals <==> r.seen.signals.touchesController
    ensures AccessReview in r.base.approvals <==> r.seen.signals.touchesSecurity
  {
    ReportDecides(ci, b, o, r);
    ApprovalsFrom(r.seen.signals, r.seen.tier, Checks(o.strict, ci.expectedProbe, r.seen.failures), r.seen.absent,
                  r.seen.required, r.seen.doubtful, r.base);
  }

  lemma ReportDecides(ci: Ci, b: Bundle, o: Options, r: Report)
    requires IsReport(ci, b, o, r)
    ensures r.seen.flags == ManifestFlags(b.manifest) && r.seen.signals == Assemble(r.seen.evidence, r.seen.flags)
    ensures Decides(r.seen.signals, r.seen.tier, Checks(o.strict, ci.expectedProbe, r.seen.failures), r.seen.absent,
                    r.seen.required, r.seen.doubtful, r.base)
  {
  }

  lemma ApprovalsFrom(s: Signals, tier: Tier, k: Checks, missing: set<Artifact>, req: set<Artifact>, doubtful: bool,
                      d: Decision)
    requires Decides(s, tier, k, missing, req, doubtful, d)
    ensures SeniorDeveloper in d.approvals <==> tier == Critical
    ensures FinanceOwner in d.approvals <==> s.sensitiveModel
    ensures ControllerReview in d.approvals <==> s.touchesController
    ensures AccessReview in d.approvals <==> s.touchesSecurity
  {
  }

  // ------------------------------------------------------------------------
  // What blocks
  // ------------------------------------------------------------------------

  predicate Denies(j: Json) {
    j == Bool(false)
  }

  /** The document identifies a target by this id. */
  ghost predicate Identifies(d: Json, key: string, id: Json) {
    Get(d, "targets").List? && Truthy(id) && exists t :: t in Get(d, "targets").items && t.Obj? && Get(t, key) == id
  }

  /** A changed target the proof does not mention, when both list targets. */
  ghost predicate LeavesOut(diff: Json, proof: Json) {
    && Get(diff, "targets").List? && Get(proof, "targets").List?
    && exists id :: Identifies(diff, "id", id) && !Identifies(proof, "target_id", id)
  }

  /** The runtime proof was not drawn up by a sealed observer, or not by the one that is pinned. */
  predicate ObserverFails(proof: Json, probe: string) {
    var p := Get(proof, "producer");
    Truthy(proof)
    && !(Get(p, "sealed") == Bool(true) && Get(p, "trace_integrity") == Str("sealed")
         && (probe == "" || Get(p, "tool_digest") == Str(probe)))
  }

  /** Blocking in either mode. */
  predicate CoreFault(ev: Evidence) {
    || Positive(Summary(ev, Validate, "blocking")) || Positive(Summary(ev, Upgrade, "blocking"))
    || Positive(Get(Read(ev, ScanSecrets), "count")) || Get(Read(ev, Trace), "error") != Null
  }

  /** Blocking in strict mode. */
  ghost predicate ProofFault(ev: Evidence, probe: string) {
    var rtp := Read(ev, RuntimePath);
    || Positive(Summary(ev, TestQuality, "blocking")) || Positive(Summary(ev, RuntimePath, "unbound"))
    || Positive(Summary(ev, MutationSmoke, "survived"))
    || Denies(Get(Read(ev, ChangedCoverage), "ok")) || Denies(Get(Read(ev, ScenarioSatisfaction), "ok"))
    || Denies(Get(Read(ev, RedGreenReplay), "ok"))
    || LeavesOut(Read(ev, DiffTargets), Read(ev, ChangedCoverage)) || LeavesOut(Read(ev, DiffTargets), rtp)
    || ObserverFails(rtp, probe)
  }

  /** Envelopes there are that could be checked do not vouch for everything. */
  ghost predicate TrustFault(ci: Ci, b: Bundle, r: Report) {
    b.envelopes != [] && ci.key != "" && !AllAttested(ci, b, r)
  }

  lemma IdsMean(d: Json, key: string)
    ensures Ids(d, key).Some? <==> Get(d, "targets").List?
    ensures Ids(d, key).Some? ==> forall id :: id in Ids(d, key).value <==> Identifies(d, key, id)
  {
    if Ids(d, key).Some? {
      forall id | id in Ids(d, key).value ensures Identifies(d, key, id) {
        var t :| t in Get(d, "targets").items && t.Obj? && Truthy(Get(t, key)) && Get(t, key) == id;
      }
    }
  }

  lemma MissesMean(diff: Json, proof: Json)
    ensures Misses(Ids(diff, "id"), Ids(proof, "target_id")) != {} <==> LeavesOut(diff, proof)
  {
    IdsMean(diff, "id");
    IdsMean(proof, "target_id");
    var misses := Misses(Ids(diff, "id"), Ids(proof, "target_id"));
    if misses != {} {
      var id :| id in misses;
      assert Identifies(diff, "id", id) && !Identifies(proof, "target_id", id);
    }
    if LeavesOut(diff, proof) {
      var id :| Identifies(diff, "id", id) && !Identifies(proof, "target_id", id);
      assert id in misses;
    }
  }

  /** The signals that come from the proofs. */
  ghost predicate ProofSignals(s: Signals, ev: Evidence) {
    && (s.fakeTests > 0 <==> Positive(Summary(ev, TestQuality, "blocking")))
    && (s.unbound > 0 <==> Positive(Summary(ev, RuntimePath, "unbound")))
    && (s.survivors > 0 <==> Positive(Summary(ev, MutationSmoke, "survived")))
    && (s.coverageOk == Bool(false) <==> Denies(Get(Read(ev, ChangedCoverage), "ok")))
    && (s.scenariosOk == Bool(false) <==> Denies(Get(Read(ev, ScenarioSatisfaction), "ok")))
    && (s.redGreenOk == Bool(false) <==> Denies(Get(Read(ev, RedGreenReplay), "ok")))
  }

  ghost predicate TargetSignals(s: Signals, ev: Evidence) {
    && (s.coverageMisses != {} <==> LeavesOut(Read(ev, DiffTargets), Read(ev, ChangedCoverage)))
    && (s.runtimeMisses != {} <==> LeavesOut(Read(ev, DiffTargets), Read(ev, RuntimePath)))
    && (s.noTargets <==> NothingChanged(Read(ev, DiffTargets)))
  }

  /** The diff lists targets, none of them identified. */
  ghost predicate NothingChanged(diff: Json) {
    Get(diff, "targets").List? && forall id :: !Identifies(diff, "id", id)
  }

  predicate ObserverSignals(s: Signals, ev: Evidence) {
    var p := Get(Read(ev, RuntimePath), "producer");
    && s.runtimePresent == Truthy(Read(ev, RuntimePath))
    && (s.observerSealed == Bool(true) <==> Get(p, "sealed") == Bool(true))
    && s.observerIntegrity == Get(p, "trace_integrity") && s.observerDigest == Get(p, "tool_digest")
  }

  lemma ProofSignalsMean(ev: Evidence, flags: Flags)
    ensures ProofSignals(Assemble(ev, flags), ev) && Assemble(ev, flags).traceError == Get(Read(ev, Trace), "error")
  {
  }

  lemma TargetSignalsMean(ev: Evidence, flags: Flags)
    ensures TargetSignals(Assemble(ev, flags), ev)
  {
    var diff := Read(ev, DiffTargets);
    MissesMean(diff, Read(ev, ChangedCoverage));
    MissesMean(diff, Read(ev, RuntimePath));
    IdsMean(diff, "id");
    var ids := Ids(diff, "id");
    assert Assemble(ev, flags).noTargets == (ids == Some({}));
    if ids.Some? && forall id :: !Identifies(diff, "id", id) {
      assert ids.value == {};
    }
  }

  lemma ObserverSignalsMean(ev: Evidence, flags: Flags)
    ensures ObserverSignals(Assemble(ev, flags), ev)
  {
  }

  ghost predicate SomeBlocks(s: Signals, k: Checks) {
    exists f :: Blocks(s, k, f)
  }

  /** Blocking told from the signals, finding by finding. */
  ghost predicate SignalFault(s: Signals, k: Checks) {
    || s.validateBlocking > 0 || s.upgradeBlocking > 0 || s.secrets > 0 || s.traceError != Null
    || (k.strict && (ProofSignalFault(s) || ObserverSignalFault(s, k) || k.failures != []))
  }

  predicate ProofSignalFault(s: Signals) {
    || s.fakeTests > 0 || s.unbound > 0 || s.survivors > 0
    || s.coverageOk == Bool(false) || s.scenariosOk == Bool(false)
    || s.redGreenOk == Bool(false) || s.coverageMisses != {} || s.runtimeMisses != {}
  }

  predicate ObserverSignalFault(s: Signals, k: Checks) {
    s.runtimePresent && !(Sealed(s) && (k.probe == "" || s.observerDigest == Str(k.probe)))
  }

  lemma FaultBlocks(s: Signals, k: Checks)
    requires SignalFault(s, k)
    ensures SomeBlocks(s, k)
  {
    assert s.validateBlocking > 0 ==> Blocks(s, k, ValidateBlocking);
    assert s.upgradeBlocking > 0 ==> Blocks(s, k, UpgradeBlocking);
    assert s.secrets > 0 ==> Blocks(s, k, SecretsFound);
    assert s.traceError != Null ==> Blocks(s, k, TraceError) || Blocks(s, k, TraceMalformed);
    if k.strict {
      if ProofSignalFault(s) { ProofFaultBlocks(s, k); }
      assert ObserverSignalFault(s, k) ==> Blocks(s, k, ObserverNotSealed) || Blocks(s, k, ObserverSwapped);
      assert k.failures != [] ==> Blocks(s, k, NotTrusted(k.failures[0]));
    }
  }

  lemma ProofFaultBlocks(s: Signals, k: Checks)
    requires k.strict && ProofSignalFault(s)
    ensures SomeBlocks(s, k)
  {
    assert s.fakeTests > 0 ==> Blocks(s, k, FakeTests);
    assert s.unbound > 0 ==> Blocks(s, k, UnboundTargets);
    assert s.survivors > 0 ==> Blocks(s, k, MutantsSurvived);
    assert s.coverageOk == Bool(false) ==> Blocks(s, k, LinesNotCovered);
    assert s.scenariosOk == Bool(false) ==> Blocks(s, k, ScenarioUnsatisfied);
    assert s.redGreenOk == Bool(false) ==> Blocks(s, k, RedGreenFailed);
    assert s.coverageMisses != {} ==> Blocks(s, k, CoverageMisses);
    assert s.runtimeMisses != {} ==> Blocks(s, k, RuntimeMisses);
  }

  lemma BlocksByFault(s: Signals, k: Checks, f: Finding)
    requires Blocks(s, k, f)
    ensures SignalFault(s, k)
  {
    match f { case _ => }
  }

  /** The gate's decision blocks exactly when a document is at fault, or in strict mode a proof or the attestations. */
  lemma BlockedIff(ci: Ci, b: Bundle, o: Options, r: Report)
    requires IsReport(ci, b, o, r)
    ensures r.base.verdict == Block <==>
              || CoreFault(r.seen.evidence)
              || (o.strict && (ProofFault(r.seen.evidence, ci.expectedProbe) || TrustFault(ci, b, r)))
  {
    var k := Checks(o.strict, ci.expectedProbe, r.seen.failures);
    BlockedBySignals(r, k, r.seen.absent, r.seen.required, r.seen.doubtful);
    FaultsMean(ci, r.seen.signals, k, r.seen.evidence, r.seen.flags);
    FailuresMean(ci, b, o, r);
  }

  lemma BlockedBySignals(r: Report, k: Checks, missing: set<Artifact>, req: set<Artifact>, doubtful: bool)
    requires Decides(r.seen.signals, r.seen.tier, k, missing, req, doubtful, r.base)
    ensures r.base.verdict == Block <==> SignalFault(r.seen.signals, k)
  {
    var s := r.seen.signals;
    if SignalFault(s, k) {
      FaultBlocks(s, k);
      var f :| Blocks(s, k, f);
      assert f in r.base.blocking;
    }
    if r.base.blocking != [] {
      assert r.base.blocking[0] in r.base.blocking;
      BlocksByFault(s, k, r.base.blocking[0]);
    }
  }

  lemma FailuresMean(ci: Ci, b: Bundle, o: Options, r: Report)
    requires IsReport(ci, b, o, r)
    ensures r.seen.failures != [] <==> o.strict && TrustFault(ci, b, r)
    ensures r.seen.signals == Assemble(r.seen.evidence, r.seen.flags)
  {
    AttestedMeans(ci, b, r);
  }

  lemma FaultsMean(ci: Ci, s: Signals, k: Checks, ev: Evidence, flags: Flags)
    requires s == Assemble(ev, flags)
    ensures SignalFault(s, k) <==>
              CoreFault(ev) || (k.strict && (ProofFault(ev, k.probe) || k.failures != []))
  {
    CoreSignalsMean(ev, flags);
    ProofSignalsMean(ev, flags);
    TargetSignalsMean(ev, flags);
    ObserverSignalsMean(ev, flags);
  }

  // ------------------------------------------------------------------------
  // What can be used
  // ------------------------------------------------------------------------

  ghost predicate IsNumber(j: Json) {
    exists n: nat :: j == Int(n)
  }

  ghost predicate IsText(j: Json) {
    exists s :: j == Str(s)
  }

  predicate IsListAt(d: Json, k: string) {
    d.Obj? && k in d.fields && d.fields[k].List?
  }

  /** The shape demanded of a document, field by field. */
  ghost predicate WellShaped(a: Artifact, d: Json)
    requires d.Obj?
  {
    var summary, risk := Get(d, "summary"), Get(d, "risk");
    && (a in {Validate, Upgrade, TestQuality} ==>
          IsNumber(Get(summary, "blocking")) && IsNumber(Get(summary, "warning")))
    && (a == RuntimePath ==> IsNumber(Get(summary, "unbound")))
    && (a == MutationSmoke ==> IsNumber(Get(summary, "survived")))
    && (a == ScanSecrets ==> IsNumber(Get(d, "count")))
    && (a in {RuntimePath, ChangedCoverage, DiffTargets} ==> IsListAt(d, "targets"))
    && (a in {ChangedCoverage, ScenarioSatisfaction, RedGreenReplay} ==> Get(d, "ok") in {Bool(false), Bool(true)})
    && (a == Scenarios ==>
          && (exists tier :: tier in {"normal", "high", "critical"} && Get(risk, "tier") == Str(tier))
          && forall j :: j in {Get(risk, "model"), Get(d, "model")} ==> j == Null || IsText(j))
    && (a == Security ==>
          && (forall j :: j in {Get(d, "model"), Get(d, "model_name")} ==> j == Null || IsText(j))
          && ("is_superuser" in d.fields ==> d.fields["is_superuser"].Bool?)
          && ("_warnings" in d.fields ==> IsListAt(d, "_warnings")))
    && (a == EnvDiff ==>
          && summary.Obj?
          && (Get(summary, "severity") == Null
              || exists level :: level in {"none", "low", "high"} && Get(summary, "severity") == Str(level)))
    && (a == NativeCheck ==>
          && (IsListAt(d, "confirmed_candidates") || IsListAt(d, "considered"))
          && forall k :: k in {"confirmed_candidates", "considered"} && k in d.fields ==> IsListAt(d, k))
    && (a == Trace ==>
          var error := Get(d, "error");
          error != Null ==> error.Str? && exists i :: 0 <= i < |error.s| && error.s[i] !in " \t\n\r")
    && (a == Attestation ==> Get(d, "schema") == Str("odoo-ai-evidence/v1") && IsText(Get(d, "signature")))
  }

  /** A document is usable exactly when it is an object of that shape. */
  lemma UsableIff(a: Artifact, d: Json)
    ensures ArtifactValid(a, d) <==> d.Obj? && WellShaped(a, d)
  {
    if d.Obj? {
      match a {
        case Validate => UsableByCounts(a, d);
        case Upgrade => UsableByCounts(a, d);
        case TestQuality => UsableByCounts(a, d);
        case RuntimePath => UsableByCounts(a, d);
        case MutationSmoke => UsableByCounts(a, d);
        case ScanSecrets => UsableByCounts(a, d);
        case Scenarios => UsableByTexts(a, d);
        case Security => UsableByTexts(a, d);
        case Attestation => UsableByTexts(a, d);
        case EnvDiff =>
        case NativeCheck =>
        case Trace =>
        case ChangedCoverage =>
        case ScenarioSatisfaction =>
        case RedGreenReplay =>
        case DiffTargets =>
      }
    }
  }

  lemma NumbersAreCounts(j: Json)
    ensures IsNumber(j) <==> IsCount(j)
  {
    assert IsCount(j) ==> j == Int(j.i);
  }

  lemma TextsAreStrings(j: Json)
    ensures IsText(j) <==> j.Str?
  {
    assert j.Str? ==> j == Str(j.s);
  }

  lemma UsableByCounts(a: Artifact, d: Json)
    requires d.Obj? && a in {Validate, Upgrade, TestQuality, RuntimePath, MutationSmoke, ScanSecrets}
    ensures ArtifactValid(a, d) <==> WellShaped(a, d)
  {
    var summary := Get(d, "summary");
    NumbersAreCounts(Get(summary, "blocking"));
    NumbersAreCounts(Get(summary, "warning"));
    NumbersAreCounts(Get(summary, "unbound"));
    NumbersAreCounts(Get(summary, "survived"));
    NumbersAreCounts(Get(d, "count"));
  }

  lemma UsableByTexts(a: Artifact, d: Json)
    requires d.Obj? && a in {Scenarios, Security, Attestation}
    ensures ArtifactValid(a, d) <==> WellShaped(a, d)
  {
    forall j ensures IsText(j) <==> j.Str? { TextsAreStrings(j); }
  }

  // ------------------------------------------------------------------------
  // What leaves a doubt
  // ------------------------------------------------------------------------

  /** The manifest cannot be read, is no object, or holds something of the wrong kind. */
  ghost predicate Unclear(m: ManifestFile) {
    || m == BrokenManifest
    || (m.Manifest? && !m.doc.Null? && (
         || !m.doc.Obj?
         || (exists k :: k in m.doc.fields && MisTyped(k, m.doc.fields[k]))))
  }

  predicate MisTyped(k: string, j: Json) {
    || (k in {"changed_files", "touched_models"} && !(j.List? && forall x :: x in j.items ==> x.Str?))
    || (k in {"has_migration", "touches_security", "touches_controller"} && !j.Bool?)
  }

  lemma UnclearMeans(m: ManifestFile)
    ensures ManifestDoubtful(m) <==> Unclear(m)
  {
    if m.Manifest? && m.doc.Obj? {
      var d := m.doc;
      forall k | k in {"changed_files", "touched_models", "has_migration", "touches_security", "touches_controller"}
        ensures Get(d, k) == if k in d.fields then d.fields[k] else Null
      {
      }
      if ManifestDoubtful(m) {
        assert exists k :: k in d.fields && MisTyped(k, d.fields[k]) by {
          assert Has(d, "changed_files") && !ListOfStrings(Get(d, "changed_files")) ==>
                   MisTyped("changed_files", d.fields["changed_files"]);
          assert Has(d, "touched_models") && !ListOfStrings(Get(d, "touched_models")) ==>
                   MisTyped("touched_models", d.fields["touched_models"]);
          assert Has(d, "has_migration") && !Get(d, "has_migration").Bool? ==>
                   MisTyped("has_migration", d.fields["has_migration"]);
          assert Has(d, "touches_security") && !Get(d, "touches_security").Bool? ==>
                   MisTyped("touches_security", d.fields["touches_security"]);
          assert Has(d, "touches_controller") && !Get(d, "touches_controller").Bool? ==>
                   MisTyped("touches_controller", d.fields["touches_controller"]);
        }
      }
    }
  }

  /** At most one file, and that one usable. */
  ghost predicate Unambiguous(b: Bundle, a: Artifact) {
    a in b.files ==> |b.files[a]| <= 1 && forall f :: f in b.files[a] ==> f.Parsed? && ArtifactValid(a, f.doc.json)
  }

  lemma {:induction false} AllReadable(a: Artifact, files: seq<EvidenceFile>)
    ensures |Readable(a, files)| == |files| <==> forall f :: f in files ==> f.Parsed? && ArtifactValid(a, f.doc.json)
    ensures |Readable(a, files)| <= |files|
  {
    if files != [] {
      var n := |files| - 1;
      AllReadable(a, files[..n]);
      assert files == files[..n] + [files[n]];
    }
  }

  lemma DoubtfulMeans(b: Bundle, a: Artifact)
    ensures Doubtful(a, FilesOf(b, a)) <==> !Unambiguous(b, a)
  {
    AllReadable(a, FilesOf(b, a));
  }

  /** An artifact the mode reads. */
  predicate IsRead(strict: bool, a: Artifact) {
    || a in {NativeCheck, EnvDiff, Scenarios, Validate, Security, Trace, Upgrade, ScanSecrets}
    || (strict && a != Attestation)
  }

  /** What leaves a doubt: an unclear manifest, ambiguous or unusable files, and in strict mode envelopes without a key
      or a head to check them against and a runtime proof without a pinned observer. */
  ghost predicate LeavesDoubt(ci: Ci, b: Bundle, strict: bool, ev: Evidence) {
    || Unclear(b.manifest)
    || (exists a :: IsRead(strict, a) && !Unambiguous(b, a))
    || (strict && b.envelopes != [] && (ci.key == "" || ci.expectedHead == ""))
    || (strict && Truthy(Read(ev, RuntimePath)) && ci.expectedProbe == "")
  }

  lemma ReadNamesAre(strict: bool, a: Artifact)
    ensures a in NamesRead(strict) <==> IsRead(strict, a)
  {
  }

  lemma DoubtMeans(ci: Ci, b: Bundle, o: Options, r: Report)
    requires IsReport(ci, b, o, r)
    ensures r.seen.doubtful <==> LeavesDoubt(ci, b, o.strict, r.seen.evidence)
  {
    DoubtIs(ci, b, o, r);
    UnclearMeans(b.manifest);
    SomeDoubtfulMeans(b, o.strict);
    ObserverSignalsMean(r.seen.evidence, r.seen.flags);
  }

  lemma SomeDoubtfulMeans(b: Bundle, strict: bool)
    ensures SomeDoubtful(b, NamesRead(strict)) <==> exists a :: IsRead(strict, a) && !Unambiguous(b, a)
  {
    forall a ensures a in NamesRead(strict) <==> IsRead(strict, a) { ReadNamesAre(strict, a); }
    forall a ensures Doubtful(a, FilesOf(b, a)) <==> !Unambiguous(b, a) { DoubtfulMeans(b, a); }
  }

  lemma DoubtIs(ci: Ci, b: Bundle, o: Options, r: Report)
    requires IsReport(ci, b, o, r)
    ensures r.seen.signals == Assemble(r.seen.evidence, r.seen.flags)
    ensures r.seen.doubtful <==>
              ManifestDoubtful(b.manifest) || SomeDoubtful(b, NamesRead(o.strict))
              || (o.strict && Unpinned(ci, b, r.seen.signals))
  {
  }

  // ------------------------------------------------------------------------
  // When a change is approved
  // ------------------------------------------------------------------------

  /** Some demanded artifact is missing. */
  ghost predicate LacksEvidence(ci: Ci, b: Bundle, strict: bool, r: Report) {
    exists a :: Demanded(b.manifest, strict, a) && Lacks(ci, b, r, a)
  }

  ghost predicate Lacks(ci: Ci, b: Bundle, r: Report, a: Artifact) {
    if a == Attestation then !AllAttested(ci, b, r) else !HasUsable(b, a)
  }

  lemma LacksMeans(ci: Ci, b: Bundle, o: Options, r: Report)
    requires IsReport(ci, b, o, r)
    ensures r.base.missing != {} <==> LacksEvidence(ci, b, o.strict, r)
  {
    forall a ensures a in r.base.missing <==> Demanded(b.manifest, o.strict, a) && Lacks(ci, b, r, a) {
      MissingMeans(ci, b, o, r, a);
    }
    if r.base.missing != {} {
      var a :| a in r.base.missing;
      assert Demanded(b.manifest, o.strict, a) && Lacks(ci, b, r, a);
    }
  }

  /** The change needs someone's eyes: it is critical, risky or financial, evidence is missing or doubtful, or in strict
      mode the diff names no target at all. */
  ghost predicate NeedsEyes(ci: Ci, b: Bundle, strict: bool, r: Report) {
    var ev := r.seen.evidence;
    || IsCriticalChange(ev) || IsRiskyChange(ev, b.manifest) || IsFinancialChange(ev, b.manifest)
    || LacksEvidence(ci, b, strict, r) || LeavesDoubt(ci, b, strict, ev)
    || (strict && NothingChanged(Read(ev, DiffTargets)))
  }

  /** A report approves exactly when nothing blocks and nothing needs eyes. */
  lemma ApprovedIff(ci: Ci, b: Bundle, o: Options, r: Report)
    requires IsReport(ci, b, o, r)
    ensures r.verdict == Approve <==>
              && !CoreFault(r.seen.evidence)
              && (o.strict ==> !ProofFault(r.seen.evidence, ci.expectedProbe) && !TrustFault(ci, b, r))
              && !NeedsEyes(ci, b, o.strict, r)
  {
    BlockedIff(ci, b, o, r);
    TierMeans(ci, b, o, r);
    SomeApproval(ci, b, o, r);
    LacksMeans(ci, b, o, r);
    DoubtMeans(ci, b, o, r);
    DoubtIs(ci, b, o, r);
    TargetSignalsMean(r.seen.evidence, r.seen.flags);
    VerdictIs(ci, b, o, r);
    GateTheorems.PolicyNeverLoosens(ci, b, o, r);
    if r.base.verdict == Approve { GateTheorems.ApprovalIsClean(ci, b, o, r); }
  }

  lemma SomeApproval(ci: Ci, b: Bundle, o: Options, r: Report)
    requires IsReport(ci, b, o, r)
    ensures r.base.approvals != [] ==>
              IsCriticalChange(r.seen.evidence) || IsFinancialChange(r.seen.evidence, b.manifest)
              || IsRiskyChange(r.seen.evidence, b.manifest)
    ensures IsFinancialChange(r.seen.evidence, b.manifest) ==> r.base.approvals != []
  {
    ApprovalsMean(ci, b, o, r);
    if r.base.approvals != [] {
      FirstApproval(r.base.approvals);
    }
  }

  lemma FirstApproval(approvals: seq<Approval>)
    requires approvals != []
    ensures || SeniorDeveloper in approvals || FinanceOwner in approvals
            || ControllerReview in approvals || AccessReview in approvals
  {
    match approvals[0] {
      case SeniorDeveloper => assert SeniorDeveloper in approvals;
      case FinanceOwner => assert FinanceOwner in approvals;
      case ControllerReview => assert ControllerReview in approvals;
      case AccessReview => assert AccessReview in approvals;
    }
  }

  lemma VerdictIs(ci: Ci, b: Bundle, o: Options, r: Report)
    requires IsReport(ci, b, o, r)
    ensures r.base.verdict == Block <==> r.base.blocking != []
    ensures r.base.verdict == Approve <==>
              && r.base.blocking == [] && r.seen.tier == Normal && r.base.missing == {} && !r.seen.doubtful
              && r.base.approvals == [] && !(o.strict && r.seen.signals.noTargets)
  {
  }

  // ------------------------------------------------------------------------
  // What the policy does
  // ------------------------------------------------------------------------

  predicate IsDict(p: PolicyFile) {
    p.PolicyDoc? && p.doc.Obj?
  }

  /** The policy given, else the one in the bundle, else the one of the environment names the severity. */
  predicate FailsClosedOn(b: Bundle, o: Options, severity: string) {
    if IsDict(o.policyFile) then ListsText(o.policyFile.doc, "fail_closed_severities", severity)
    else if IsDict(b.policyFile) then ListsText(b.policyFile.doc, "fail_closed_severities", severity)
    else severity in o.policyEnv
  }

  predicate AsksFor(b: Bundle, o: Options, role: string) {
    if IsDict(o.policyFile) then ListsText(o.policyFile.doc, "required_signoff_roles", role)
    else IsDict(b.policyFile) && ListsText(b.policyFile.doc, "required_signoff_roles", role)
  }

  predicate ListsText(d: Json, key: string, s: string) {
    Get(d, key).List? && Str(s) in Get(d, key).items
  }

  /** Someone with a name signed for the role. */
  ghost predicate SignedBy(b: Bundle, role: string) {
    && IsDict(b.signoff) && Get(b.signoff.doc, "signoffs").List?
    && exists x, name :: x in Get(b.signoff.doc, "signoffs").items && Signature(x, role, name)
  }

  predicate Signature(x: Json, role: string, name: string) {
    Get(x, "role") == Str(role) && Get(x, "name") == Str(name) && exists i :: 0 <= i < |name| && name[i] !in " \t\n\r"
  }

  /** There is a list of sign-offs, and every role asked for is in it. */
  ghost predicate SignedOff(b: Bundle, o: Options) {
    && IsDict(b.signoff) && Get(b.signoff.doc, "signoffs").List?
    && forall role :: AsksFor(b, o, role) ==> SignedBy(b, role)
  }

  predicate Untrusted(f: Finding) {
    f == SecretsFound || f.NotTrusted?
  }

  /** The report surfaces something of the severity. */
  ghost predicate Surfaces(d: Decision, severity: string) {
    || (severity == "S4" && (
         || (exists f :: f in d.blocking && Untrusted(f))
         || Security in d.missing || ScanSecrets in d.missing || Attestation in d.missing
         || ControllerReview in d.approvals || AccessReview in d.approvals))
    || (severity == "S3" && (
         || UpgradeBlocking in d.blocking || Upgrade in d.missing
         || SeniorDeveloper in d.approvals || FinanceOwner in d.approvals))
    || (severity == "S2" && (
         || (exists f :: f in d.blocking && !Untrusted(f) && f != UpgradeBlocking)
         || (exists a :: a in d.missing && a !in {Security, ScanSecrets, Attestation, Upgrade})))
  }

  lemma SeveritySurfaces(d: Decision, detail: seq<Entry>, severity: string)
    requires Details(d, detail)
    ensures (exists e :: e in detail && Severity(e) == severity) <==> Surfaces(d, severity)
  {
    if e :| e in detail && Severity(e) == severity {
      match e {
        case BlockingEntry(f) => assert f in d.blocking;
        case MissingEntry(a) => assert a in d.missing;
        case ApprovalEntry(n) => assert n in d.approvals;
      }
    }
    if Surfaces(d, severity) {
      SurfacedIsDetailed(d, detail, severity);
    }
  }

  lemma SurfacedIsDetailed(d: Decision, detail: seq<Entry>, severity: string)
    requires Details(d, detail) && Surfaces(d, severity)
    ensures exists e :: e in detail && Severity(e) == severity
  {
    if f :| f in d.blocking && Severity(BlockingEntry(f)) == severity {
      FindingIsDetailed(d, detail, f);
    } else if a :| a in d.missing && Severity(MissingEntry(a)) == severity {
      MissingIsDetailed(d, detail, a);
    } else {
      ApprovalIsDetailed(d, detail, severity);
    }
  }

  lemma FindingIsDetailed(d: Decision, detail: seq<Entry>, f: Finding)
    requires Details(d, detail) && f in d.blocking
    ensures BlockingEntry(f) in detail
  {
  }

  lemma MissingIsDetailed(d: Decision, detail: seq<Entry>, a: Artifact)
    requires Details(d, detail) && a in d.missing
    ensures MissingEntry(a) in detail
  {
  }

  lemma ApprovalIsDetailed(d: Decision, detail: seq<Entry>, severity: string)
    requires Details(d, detail) && Surfaces(d, severity)
    requires forall f :: f in d.blocking ==> Severity(BlockingEntry(f)) != severity
    requires forall a :: a in d.missing ==> Severity(MissingEntry(a)) != severity
    ensures exists e :: e in detail && Severity(e) == severity
  {
    forall n | n in d.approvals ensures ApprovalEntry(n) in detail {}
    assert severity == "S4" ==> ControllerReview in d.approvals || AccessReview in d.approvals;
    assert severity == "S3" ==> SeniorDeveloper in d.approvals || FinanceOwner in d.approvals;
  }

  lemma TextListed(d: Json, key: string)
    ensures forall s :: s in StringsOf(Get(d, key)) <==> ListsText(d, key, s)
  {
    StringsListed(Manifest(d), key);
    forall s ensures s in StringsOf(Get(d, key)) <==> ListsText(d, key, s) {
      assert Lists(Manifest(d), key, s) <==> ListsText(d, key, s);
    }
  }

  lemma PolicyMeans(b: Bundle, o: Options)
    ensures var policy := ResolvePolicy(o.policyFile, b.policyFile, o.policyEnv);
            && (forall s :: policy.Some? && s in policy.value.severities <==> FailsClosedOn(b, o, s))
            && (forall x :: policy.Some? && x in policy.value.roles <==> AsksFor(b, o, x))
  {
    if IsDict(o.policyFile) {
      TextListed(o.policyFile.doc, "fail_closed_severities");
      TextListed(o.policyFile.doc, "required_signoff_roles");
    } else if IsDict(b.policyFile) {
      TextListed(b.policyFile.doc, "fail_closed_severities");
      TextListed(b.policyFile.doc, "required_signoff_roles");
    }
  }

  lemma SignatureMeans(x: Json, role: string)
    ensures NamedSignoff(x, role) <==> exists name :: Signature(x, role, name)
  {
    if NamedSignoff(x, role) {
      var name := Get(x, "name").s;
      assert Signature(x, role, name);
    }
  }

  lemma SignoffMeans(b: Bundle, o: Options, roles: set<string>)
    requires forall x :: x in roles <==> AsksFor(b, o, x)
    ensures SignoffCovers(b.signoff, roles) <==> SignedOff(b, o)
  {
    if IsDict(b.signoff) && Get(b.signoff.doc, "signoffs").List? {
      forall role ensures (exists x :: x in Get(b.signoff.doc, "signoffs").items && NamedSignoff(x, role)) <==>
                          SignedBy(b, role)
      {
        forall x ensures NamedSignoff(x, role) <==> exists name :: Signature(x, role, name) { SignatureMeans(x, role); }
      }
    }
  }

  /** The policy turns a report into a block exactly when it surfaces something of a severity the policy fails closed on
      and the sign-offs asked for are not all there. */
  lemma PolicyBlocksIff(ci: Ci, b: Bundle, o: Options, r: Report)
    requires IsReport(ci, b, o, r)
    ensures r.verdict == Block <==>
              || r.base.verdict == Block
              || ((exists severity :: FailsClosedOn(b, o, severity) && Surfaces(r.base, severity)) && !SignedOff(b, o))
  {
    var policy := ResolvePolicy(o.policyFile, b.policyFile, o.policyEnv);
    EnforcedIs(ci, b, o, r);
    PolicyMeans(b, o);
    forall severity ensures (exists e :: e in r.detail && Severity(e) == severity) <==> Surfaces(r.base, severity) {
      SeveritySurfaces(r.base, r.detail, severity);
    }
    if policy.Some? {
      SignoffMeans(b, o, policy.value.roles);
    }
    GateTheorems.PolicyNeverLoosens(ci, b, o, r);
  }

  lemma EnforcedIs(ci: Ci, b: Bundle, o: Options, r: Report)
    requires IsReport(ci, b, o, r)
    ensures Details(r.base, r.detail)
    ensures r.verdict == Enforced(r.base.verdict, r.detail, ResolvePolicy(o.policyFile, b.policyFile, o.policyEnv),
                                  b.signoff)
  {
  }
}
