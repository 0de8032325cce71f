/** What the deploy gate's attestation failures mean, told from the fields of the envelopes (deploy_gate.py). */
module Attestations {
  import opened Orders
  import opened JsonDoc
  import opened Provenance
  import opened Gate

  /** The names an envelope may give an artifact. */
  predicate IsNameOf(n: string, a: Artifact) {
    || (a == NativeCheck && n == "native_check")
    || (a == EnvDiff && (n == "env_diff" || n == "env-diff" || n == "env_fingerprint"))
    || (a == Scenarios && n == "scenarios")
    || (a == Validate && n == "validate")
    || (a == Security && n == "security")
    || (a == Trace && n == "trace")
    || (a == Upgrade && (n == "upgrade" || n == "upgrade_check" || n == "upgrade-diff"))
    || (a == ScanSecrets && (n == "scan_secrets" || n == "scan-secrets"))
    || (a == DiffTargets && (n == "diff_targets" || n == "diff-targets"))
    || (a == ChangedCoverage && (n == "changed_coverage" || n == "changed-coverage"))
    || (a == RuntimePath && (n == "runtime_path" || n == "runtime-path"))
    || (a == TestQuality && (n == "test_quality" || n == "test-quality"))
    || (a == ScenarioSatisfaction && (n == "scenario_satisfaction" || n == "scenario-satisfaction"))
    || (a == MutationSmoke && (n == "mutation_smoke" || n == "mutation-smoke"))
    || (a == RedGreenReplay && (n == "red_green_replay" || n == "red-green-replay"))
    || (a == Attestation && n == "provenance")
  }

  /** An envelope in the bundle that the key verifies. */
  predicate Signed(ci: Ci, envelopes: seq<EnvelopeFile>, env: Json) {
    Envelope(env) in envelopes && Verified(ci.crypto, env, ci.key)
  }

  predicate HashesIt(ci: Ci, env: Json, bytes: Bytes) {
    Get(Get(env, "artifact"), "sha256") == Str("sha256:" + ci.crypto.sha256(bytes))
  }

  predicate NamesIt(env: Json, a: Artifact) {
    Get(env, "artifact_name").Str? && IsNameOf(Get(env, "artifact_name").s, a)
  }

  /** It carries the CI head when that is known, and some head otherwise. */
  predicate CarriesHead(ci: Ci, env: Json) {
    var head := Get(Get(env, "subject"), "head_sha");
    if ci.expectedHead != "" then head == Str(ci.expectedHead) else head.Str? && head != Str("")
  }

  lemma NameByName(env: Json, a: Artifact)
    ensures NameOk(env, a) <==> NamesIt(env, a)
  {
    if Get(env, "artifact_name").Str? {
      if a in LAYER_L_NAMES { LayerAliases(a, Get(env, "artifact_name").s); }
      else { OtherAliases(a, Get(env, "artifact_name").s); }
    }
  }

  lemma LayerAliases(a: Artifact, n: string)
    requires a in LAYER_L_NAMES
    ensures n in Aliases(a) <==> IsNameOf(n, a)
  {
  }

  lemma OtherAliases(a: Artifact, n: string)
    requires a !in LAYER_L_NAMES
    ensures n in Aliases(a) <==> IsNameOf(n, a)
  {
  }

  lemma BindingParts(ci: Ci, env: Json, a: Artifact, bytes: Bytes)
    ensures Hashes(ci.crypto, env, bytes) <==> HashesIt(ci, env, bytes)
    ensures NameOk(env, a) <==> NamesIt(env, a)
    ensures HeadOk(env, ci.expectedHead) <==> CarriesHead(ci, env)
  {
    NameByName(env, a);
  }

  /** What each attestation failure says of an artifact that is required and consumed: no envelope the key verifies
      hashes its bytes; some does but none of those names it; some names it too but none of those carries the head. It
      has none of the three failures exactly when one envelope does all of it. */
  lemma BindingFailuresMean(ci: Ci, envelopes: seq<EnvelopeFile>, ev: Evidence, req: set<Artifact>, a: Artifact)
    requires a in req && a != Attestation && a in ev
    ensures Reported(ci, envelopes, ev, req, NotAttested(a)) <==>
              forall env :: Signed(ci, envelopes, env) ==> !HashesIt(ci, env, ev[a].bytes)
    ensures Reported(ci, envelopes, ev, req, WrongName(a)) <==>
              && (exists env :: Signed(ci, envelopes, env) && HashesIt(ci, env, ev[a].bytes))
              && (forall env :: Signed(ci, envelopes, env) && HashesIt(ci, env, ev[a].bytes) ==> !NamesIt(env, a))
    ensures Reported(ci, envelopes, ev, req, WrongHead(a)) <==>
              && (exists env :: Signed(ci, envelopes, env) && HashesIt(ci, env, ev[a].bytes) && NamesIt(env, a))
              && !BoundTo(ci, envelopes, a, ev[a].bytes)
  {
    var bytes, accepted := ev[a].bytes, Accepted(ci, envelopes);
    HashedMeans(ci, envelopes, bytes);
    NamedMeans(ci, envelopes, a, bytes);
    BoundMeans(ci, envelopes, a, bytes);
    FaultIs(ci, accepted, a, bytes);
  }

  lemma FaultIs(ci: Ci, accepted: seq<Json>, a: Artifact, bytes: Bytes)
    ensures BindingFault(ci, accepted, a, bytes) == Some(NotAttested(a)) <==> !SomeHashes(ci, accepted, bytes)
    ensures BindingFault(ci, accepted, a, bytes) == Some(WrongName(a)) <==>
              SomeHashes(ci, accepted, bytes) && !SomeNames(ci, accepted, a, bytes)
    ensures BindingFault(ci, accepted, a, bytes) == Some(WrongHead(a)) <==>
              SomeNames(ci, accepted, a, bytes) && !SomeBinds(ci, accepted, a, bytes)
  {
    if k :| 0 <= k < |accepted| && Binds(ci, accepted[k], a, bytes) {
      assert Hashes(ci.crypto, accepted[k], bytes) && NameOk(accepted[k], a);
    }
    if k :| 0 <= k < |accepted| && Hashes(ci.crypto, accepted[k], bytes) && NameOk(accepted[k], a) {
      assert SomeHashes(ci, accepted, bytes);
    }
  }

  /** One envelope hashes the bytes, names the artifact and carries the head. */
  ghost predicate BoundTo(ci: Ci, envelopes: seq<EnvelopeFile>, a: Artifact, bytes: Bytes) {
    exists env :: Signed(ci, envelopes, env) && HashesIt(ci, env, bytes) && NamesIt(env, a) && CarriesHead(ci, env)
  }

  lemma AcceptedIsSigned(ci: Ci, envelopes: seq<EnvelopeFile>)
    ensures forall env :: Signed(ci, envelopes, env) <==> env in Accepted(ci, envelopes)
  {
    AcceptedAre(ci, envelopes);
  }

  lemma HashedMeans(ci: Ci, envelopes: seq<EnvelopeFile>, bytes: Bytes)
    ensures SomeHashes(ci, Accepted(ci, envelopes), bytes) <==>
              exists env :: Signed(ci, envelopes, env) && HashesIt(ci, env, bytes)
  {
    var accepted := Accepted(ci, envelopes);
    AcceptedIsSigned(ci, envelopes);
    if k :| 0 <= k < |accepted| && Hashes(ci.crypto, accepted[k], bytes) {
      assert Signed(ci, envelopes, accepted[k]) && HashesIt(ci, accepted[k], bytes);
    }
  }

  lemma NamedMeans(ci: Ci, envelopes: seq<EnvelopeFile>, a: Artifact, bytes: Bytes)
    ensures SomeNames(ci, Accepted(ci, envelopes), a, bytes) <==>
              exists env :: Signed(ci, envelopes, env) && HashesIt(ci, env, bytes) && NamesIt(env, a)
  {
    var accepted := Accepted(ci, envelopes);
    AcceptedIsSigned(ci, envelopes);
    forall env ensures NameOk(env, a) <==> NamesIt(env, a) { NameByName(env, a); }
    if k :| 0 <= k < |accepted| && Hashes(ci.crypto, accepted[k], bytes) && NameOk(accepted[k], a) {
      assert Signed(ci, envelopes, accepted[k]) && HashesIt(ci, accepted[k], bytes);
    }
  }

  lemma BoundMeans(ci: Ci, envelopes: seq<EnvelopeFile>, a: Artifact, bytes: Bytes)
    ensures SomeBinds(ci, Accepted(ci, envelopes), a, bytes) <==> BoundTo(ci, envelopes, a, bytes)
    ensures Vouched(ci, envelopes, a, bytes) <==> BoundTo(ci, envelopes, a, bytes)
  {
    var accepted := Accepted(ci, envelopes);
    AcceptedIsSigned(ci, envelopes);
    VouchedIffBound(ci, envelopes, a, bytes);
    forall env ensures Binds(ci, env, a, bytes) <==> HashesIt(ci, env, bytes) && NamesIt(env, a) && CarriesHead(ci, env)
    {
      BindingParts(ci, env, a, bytes);
    }
    if k :| 0 <= k < |accepted| && Binds(ci, accepted[k], a, bytes) {
      assert Signed(ci, envelopes, accepted[k]);
    }
  }
}
