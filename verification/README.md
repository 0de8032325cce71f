# Models of the Odoo introspection and upgrade scripts

The scripts modelled here observe a running Odoo instance, decide whether a change may be deployed, and help to
port a fleet of addons to a new version. Each file keeps its decisions and algorithms apart from the live
environment; those parts are modelled here and their properties proved.

| file | component |
|---|---|
| Trace.dfy | runtime trace accounting: who ran which SQL statement |
| Matching.dfy | matching removed models and fields with their successors |
| Fleet.dfy | porting order of a fleet and the exclusion closure |
| Provenance.dfy, Producers.dfy, Gate.dfy, Attestations.dfy, GateTheorems.dfy, GateMeaning.dfy | signed evidence, its producers and the deploy gate |
| Fixture.dfy, FixtureSource.dfy, FixtureTheorems.dfy | fixture recipes, interpreted and compiled to source |
| Anchors.dfy | view inheritance: anchors, edits and composition |
| Redaction.dfy | structural redaction of JSON payloads |
| Merge.dfy | merging traces into one surface graph |
| Chain.dfy | display order of a view inheritance graph |
| Uat.dfy | round-robin allocation of acceptance cases |
| Observer.dfy | the tamper-evident recorder |
| Cosine.dfy | TF-IDF recall |
| JsonDoc.dfy, Orders.dfy | JSON values; orders, stable sorting, small sequence facts |

Where the code updates state, a class or a method with the same loops is proved equal to a function on values or to
a predicate that describes the result; the results are lemmas about that function or predicate. What a small function
shared by both sides computes is stated once more in its own terms: `Orders` and `JsonDoc` do so for comparing, sorting,
searching and folding text. Where a dictionary or a set is iterated, the order is arbitrary in the model.

Findings where the code does not do what one might read into it:

- Calls still open when a trace ends are written back with 0 statements, so a call around a returned child can be
  reported with a negative self count (`Trace.NonNegativeIff` says exactly when, `Trace.OpenCallReport` by how much).
- A recipe that refers to the result of a method step runs in generated code but not in the interpreter, which stores
  only created records (`FixtureTheorems.UnfaithfulDiverges`; `CodeRunsAsExec` holds for all other well-formed recipes,
  and `UsesACallResultIsUnfaithful` gives one that is not).
- `_worst_artifact` is documented as picking the worst duplicate, but only does so for three artifacts
  (`GateTheorems.WorstFileDecides`); for the others a clean file hides a faulty one exactly when it is first
  (`GateTheorems.FirstFileDecides`, `CleanTraceHidesError`). The doubt about duplicates still prevents an approval
  (`GateTheorems.DoubtIsNeverApproved`).
- The downgrade of an approval in the policy step can never take place (`GateTheorems.ApprovalIsClean`).
- The generated test file is documented to compile always, but a recipe without a create step gets a test of
  `self.None` and its file does not (`FixtureTheorems.FileParsesIff` is the exact condition).
- `verify_envelope` is documented never to raise, but does so on a signature that `int(s, 16)` takes for hex and that
  is not ASCII, when there is a key (`Provenance.VerifyEnvelope` says exactly when).
- A value under a sensitive key is never shown, except below a metadata key such as one that begins with an underscore:
  what is there is kept as it is (`Redaction.SensitiveKeysAreBlanked` says exactly when).
- Two payloads that differ only in strings inside a sensitive record can redact differently, because a nested `field`
  name decides whether its `value` is replaced (`Redaction.FieldNameShows`; `HiddenDifferencesVanish` is the exact
  condition).
- Field renames compare an unrounded ratio with a rounded best, so the name suggested may be that of a slightly worse
  candidate with the same rounded similarity (`Matching.NearTieNamesTheWorse` gives two such names; `BestIsNamedIff`
  is the exact condition).

## Model

| member | source | states |
|---|---|---|
| Trace.ComputeSelfSql | skills/odoo-introspect/scripts/trace_flow.py:63-80 | The stack pass returns, for every call, its cumulative count less those of the calls whose nearest earlier call of strictly smaller depth it is |
| Trace.SelfSumsToRoots | skills/odoo-introspect/scripts/trace_flow.py:63-80 | For any depths and counts, negative ones included, the self counts add up to the roots' cumulative counts |
| Trace.CallKeeps | skills/odoo-introspect/scripts/trace_flow.py:177-199 | A call event, recorded or past a cap, keeps the tracer's counters in step with the frames that are live |
| Trace.ReturnKeeps | skills/odoo-introspect/scripts/trace_flow.py:200-208 | A return of the innermost live frame finds its own record, or none when it was past a cap, and keeps the counters in step |
| Trace.SqlKeeps | skills/odoo-introspect/scripts/trace_flow.py:164-171 | A statement keeps every recorded call's account: live calls see it, closed ones do not |
| Trace.Tracer.OnCall | skills/odoo-introspect/scripts/trace_flow.py:177-199 | The state after a call event, with the caps, and the invariant |
| Trace.Tracer.OnReturn | skills/odoo-introspect/scripts/trace_flow.py:200-208 | The state after a return: the frame's entry leaves the index, its record gets the statements since its call, depth does not go below 0 |
| Trace.Tracer.Summarize | skills/odoo-introspect/scripts/trace_flow.py:251-254 | Calls still open are written back with 0 before the self counts are taken |
| Trace.TraceRun | skills/odoo-introspect/scripts/trace_flow.py:142-260 | Main result: tracing a well-nested run, under any caps, reports the self counts of the state the run leads to, and charges each recorded call that returned exactly the statements that fired while it was the innermost recorded live frame; in a completed run that is every call |
| Trace.ClosedCallIsExact | skills/odoo-introspect/scripts/trace_flow.py:63-80 | The same for one returned call at any point of a run, finished or not |
| Trace.OpenCallReport | skills/odoo-introspect/scripts/trace_flow.py:251-254 | A call left open is reported as minus the counts of its returned children, which is what it ran itself exactly when it ran nothing and they were quiet |
| Trace.NonNegativeIff | skills/odoo-introspect/scripts/trace_flow.py:251-254 | A reported self count is negative exactly for a call left open around a returned child that ran a statement |
| Trace.OpenCallCanGoNegative | skills/odoo-introspect/scripts/trace_flow.py:251-254 | The concrete run in which that happens, followed event by event: its two calls are reported as -1 and 1 |
| Matching.BestMatches | skills/odoo-upgrade/scripts/gen_manifest.py:194-221 | Collecting, sorting and greedily taking candidates yields the settled choice whatever order the two dictionaries iterate in |
| Matching.CandidateIff | skills/odoo-upgrade/scripts/gen_manifest.py:182-212 | A pair is a candidate exactly when both models have at least four fields and share at least four, and those are three fifths of the smaller set; that share, rounded, is its score |
| Matching.AbsorbedIsCandidate | skills/odoo-upgrade/scripts/gen_manifest.py:182-212 | A removed model of at least four fields contained in a model of the pool is a candidate with a full overlap, however large the other is; so it is matched with it, or one of the two is in a chosen pair at least as good |
| Matching.ChosenIsStable | skills/odoo-upgrade/scripts/gen_manifest.py:194-221 | The choice is injective both ways, made of candidates, best first; every candidate left out shares a side with a chosen pair that scores more, or as much with the larger other name |
| Matching.ChoiceIsUnique | skills/odoo-upgrade/scripts/gen_manifest.py:194-221 | There is only one such choice, so iteration order cannot matter |
| Matching.GreedyIsAtLeastHalf | skills/odoo-upgrade/scripts/gen_manifest.py:194-221 | No matching over the candidates has more than twice the greedy total similarity |
| Matching.MatchRemovedModels | skills/odoo-upgrade/scripts/gen_manifest.py:224-234 | Renames are chosen first, merges among what is left over |
| Matching.PhasesAreOneMatching | skills/odoo-upgrade/scripts/gen_manifest.py:224-234 | Both phases together are one matching, and a model without a partner lost every target it was eligible for |
| Matching.BestFieldRename | skills/odoo-upgrade/scripts/gen_manifest.py:237-271 | None is named exactly when every field has another type or a ratio below 0.60; otherwise, of the candidates with the best rounded ratio, the last one in order whose ratio lies above that value, or the first one when there is none |
| Matching.NamedIsUnique | skills/odoo-upgrade/scripts/gen_manifest.py:249-257 | That determines the field named |
| Matching.BestIsNamedIff | skills/odoo-upgrade/scripts/gen_manifest.py:249-257 | The field named has the best ratio of all exactly when the candidates are not listed so that a better one, rounding alike, is passed over |
| Matching.DistinctRoundingsNameBest | skills/odoo-upgrade/scripts/gen_manifest.py:249-257 | In particular the best is named when different ratios round differently |
| Matching.NearTieNamesTheWorse | skills/odoo-upgrade/scripts/gen_manifest.py:249-257 | For a removed field name of 45 characters and added ones of 23 and 26 characters that begin with 23 and 24 of its characters, in this order, the ratios 46/68 and 48/71 round alike and the second, worse name is given; both are twice a matched length over the two lengths, as the ratios compared are |
| Fleet.BuildTables | skills/odoo-upgrade/scripts/migrate_all.py:110-119 | In-degrees count each dependency entry with repetition and leave out self-edges and names outside the fleet; waiting lists mirror them |
| Fleet.EmitOne | skills/odoo-upgrade/scripts/migrate_all.py:120-128 | Emitting the head settles its dependents and keeps the queue sorted and made of exactly the ready modules |
| Fleet.TopoOrder | skills/odoo-upgrade/scripts/migrate_all.py:110-131 | Kahn's algorithm emits, at each step, the least ready module until none is ready, and appends the rest sorted |
| Fleet.OrderIsPermutation | skills/odoo-upgrade/scripts/migrate_all.py:129-131 | The result lists every module exactly once |
| Fleet.DependenciesPrecede | skills/odoo-upgrade/scripts/migrate_all.py:120-131 | Every intra-fleet dependency of an emitted module comes before it |
| Fleet.LeftoverReachesCycle | skills/odoo-upgrade/scripts/migrate_all.py:129-131 | A module is in the cyclic leftover exactly when a dependency cycle of length at least two can be reached from it |
| Fleet.OrderIsLeast | skills/odoo-upgrade/scripts/migrate_all.py:120-131 | The emitted part is the lexicographically least of all dependency-respecting orders of as many modules |
| Fleet.ResultIsUnique | skills/odoo-upgrade/scripts/migrate_all.py:110-131 | The result does not depend on the dictionary's iteration order |
| Fleet.PortableSet | skills/odoo-upgrade/scripts/migrate_all.py:134-152 | The fixpoint ends with exactly the names that depend, through any chain, on an excluded one; the portable set is the sorted rest, limited to installed modules when these are given |
| Fleet.TaintedIsLeastClosed | skills/odoo-upgrade/scripts/migrate_all.py:134-152 | Those names are the least superset of the exclusions closed under dependents, names outside the fleet included |
| Provenance.VerifyEnvelope | skills/odoo-introspect/scripts/provenance.py:97-142 | It raises exactly when there is a key and the signature reads as a hex number of the right length but is not ASCII; otherwise the reasons are exactly the envelope's problems, one of them a missing key, and there are none exactly when there is a key and the envelope has the required shape and the MAC of its content |
| Provenance.ProblemsAre | skills/odoo-introspect/scripts/provenance.py:79-142 | Each problem told from the envelope's fields: schema, a signature that reads as hex, `sha256:` with 64 hex digits, a key, and the MAC of the fields without the signature; and when it raises |
| Provenance.VerifiedIffSound | skills/odoo-introspect/scripts/provenance.py:97-142 | An object is accepted exactly when it has none of these problems and nothing raises |
| Provenance.AttestedVerifies | skills/odoo-introspect/scripts/provenance.py:157-175 | What is attested verifies under the same key and carries the name, path, hash, subject, producer, environment and command it was attested with |
| Provenance.TamperingIsRejected | skills/odoo-introspect/scripts/provenance.py:64-142 | An envelope that takes over the signature of an accepted one is accepted exactly when its content collides with the signed one under the MAC and its schema and digest have the required shape; so when the two contents do not collide, any change makes it rejected |
| Producers.EvaluatePath | skills/odoo-introspect/scripts/runtime_path_probe.py:151-203 | A target is bound exactly when its events and its registry fact meet every condition; each reason is given exactly when its condition fails, a place being a file of the target's name and a line in its method |
| Producers.BuildPathReport | skills/odoo-introspect/scripts/runtime_path_probe.py:224-272 | One result per target in order, the number of targets and of bound and unbound ones, and the ids of the unbound, with events and facts grouped by target id |
| Producers.CoveredLines | skills/odoo-introspect/scripts/changed_coverage_gate.py:77-100 | Covered lines are exactly those executed in some test context |
| Producers.MatchedIs | skills/odoo-introspect/scripts/changed_coverage_gate.py:59-74 | A target's coverage is that of the file with its very path, else of the first one where one path is the end of the other and both name the same file, else none |
| Producers.TestContextIff | skills/odoo-introspect/scripts/changed_coverage_gate.py:49-56 | A context is a test unless it is empty or contains `setup` or `import` in any case |
| Producers.EvaluateCoverage | skills/odoo-introspect/scripts/changed_coverage_gate.py:119-155 | Covered and missing lines partition the changed ones; the target passes exactly when nothing is missing, or it is of the normal tier, by its own risk or its model's, and nine in ten are covered |
| Producers.BuildCoverageReport | skills/odoo-introspect/scripts/changed_coverage_gate.py:158-188 | One result per target in order, the number fully covered, and a pass exactly when all are |
| Gate.ReadArtifact | skills/odoo-introspect/scripts/deploy_gate.py:624-749 | The document consumed for an artifact and whether doubt remains (ambiguous, unparseable or misshapen files) |
| Gate.WorstIsWorst | skills/odoo-introspect/scripts/deploy_gate.py:739-749 | For the counted artifacts the file taken is at least as bad as every other |
| Gate.ClassifyChangeRisk | skills/odoo-introspect/scripts/deploy_gate.py:423-475 | The tier is critical or normal exactly under the stated signals |
| Gate.GateDecision | skills/odoo-introspect/scripts/deploy_gate.py:478-621 | Which findings block, which approvals are needed, what is missing, and how the three-value verdict follows |
| Gate.VerifyProvenance | skills/odoo-introspect/scripts/deploy_gate.py:762-856 | Exactly the failures there are: an envelope that does not verify, and for each required consumed artifact how far its attestation got; none exactly when every envelope verifies and every such artifact is bound by one with its hash, its name and the expected head |
| Attestations.BindingFailuresMean | skills/odoo-introspect/scripts/deploy_gate.py:817-854 | Each failure of a required consumed artifact told from the envelopes' fields: none that verifies carries its hash; some do but none of them its name; some both but none of them the CI head as well |
| Gate.BuildFindingsDetail | skills/odoo-introspect/scripts/deploy_gate.py:889-911 | Every blocking finding and approval is itemised with its category, and nothing else |
| Gate.BuildReport | skills/odoo-introspect/scripts/deploy_gate.py:1007-1188 | How the report follows from the bundle, the settings and the mode |
| GateTheorems.ApprovalIsClean | skills/odoo-introspect/scripts/deploy_gate.py:889-911 | An approving decision has nothing itemised, so the policy step finds nothing and its downgrade of an approval can never happen |
| GateTheorems.PolicyNeverLoosens | skills/odoo-introspect/scripts/deploy_gate.py:1140-1174 | The fail-closed step never loosens a verdict |
| GateTheorems.StrictFindsMore | skills/odoo-introspect/scripts/deploy_gate.py:478-621 | On one bundle and policy, strict mode blocks on everything legacy mode blocks on, asks for the same approvals and misses at least as much |
| GateTheorems.StrictIsNoLooser | skills/odoo-introspect/scripts/deploy_gate.py:1007-1188 | The strict verdict is never more permissive than the legacy one |
| GateTheorems.StrictApprovalIsBound | skills/odoo-introspect/scripts/deploy_gate.py:762-856 | A strict approval means that for every required artifact there is a verified envelope whose fields hold its hash, one of its names and exactly the CI head, and the observer is sealed under the pinned digest |
| GateTheorems.StrictApprovalIsProved | skills/odoo-introspect/scripts/deploy_gate.py:1080-1128 | With proofs that carry the producers' reports, a strict approval means every changed target the diff identifies was bound at runtime and meets its coverage threshold |
| GateTheorems.WrittenReportsCarry | skills/odoo-introspect/scripts/runtime_path_probe.py:262-272 | The documents the producers write carry their reports, counts, ids and verdicts, also with the observer's self-report added |
| GateTheorems.StrictApprovalWasObserved | skills/odoo-introspect/scripts/deploy_gate.py:562-577 | When the runtime proof holds the self-report drawn up at the end of an observed run, a strict approval means the pinned observer saw that run undisturbed and every target it was given, if it expected as many, was entered |
| GateTheorems.DoubtIsNeverApproved | skills/odoo-introspect/scripts/deploy_gate.py:478-621 | Ambiguous, unparseable or misshapen evidence never ends in an approval, in either mode |
| GateTheorems.WorstCaseIsRead | skills/odoo-introspect/scripts/deploy_gate.py:739-749 | For three artifacts the worst usable file is read; for every other kind the first one |
| GateTheorems.FirstFileDecides | skills/odoo-introspect/scripts/deploy_gate.py:739-749 | For the artifacts read first a report blocks exactly when the first usable file is faulty, which is right exactly when no clean file stands in front of a faulty one |
| GateTheorems.WorstFileDecides | skills/odoo-introspect/scripts/deploy_gate.py:739-749 | For the three counted artifacts a report blocks exactly when some usable file is faulty |
| GateTheorems.CleanTraceHidesError | skills/odoo-introspect/scripts/deploy_gate.py:739-749 | A bundle whose clean trace stands in front of a failing one is not blocked for it, in either mode |
| GateMeaning.FlagsMean | skills/odoo-introspect/scripts/deploy_gate.py:270-304 | What the manifest says of a change: migration, controllers, access rights, bug fix and models, from its flags and the files it lists |
| GateMeaning.UsableIff | skills/odoo-introspect/scripts/deploy_gate.py:642-736 | The shape, field by field, that makes a document usable for its artifact |
| GateMeaning.MissingMeans | skills/odoo-introspect/scripts/deploy_gate.py:307-320 | Evidence is missing exactly when the change demands it and no file of it is usable, or the attestations are not all in order |
| GateMeaning.TierMeans | skills/odoo-introspect/scripts/deploy_gate.py:423-475 | Critical exactly for blocking issues, secrets, a high environment difference or a critical scenario risk; normal exactly when none of these and nothing risky is there |
| GateMeaning.ApprovalsMean | skills/odoo-introspect/scripts/deploy_gate.py:478-621 | Which approvals are asked for, told from the documents and the manifest |
| GateMeaning.DoubtMeans | skills/odoo-introspect/scripts/deploy_gate.py:1007-1120 | What leaves a doubt: an unclear manifest, more than one file or an unusable one, and in strict mode envelopes without key or head and a runtime proof without a pinned observer |
| GateMeaning.BlockedIff | skills/odoo-introspect/scripts/deploy_gate.py:478-621 | The decision blocks exactly when a document, a proof or the attestations are at fault |
| GateMeaning.ApprovedIff | skills/odoo-introspect/scripts/deploy_gate.py:1007-1188 | Main result: a report approves exactly when nothing is at fault and nothing is critical, risky, financial, missing, doubtful or, in strict mode, without any target |
| GateMeaning.PolicyBlocksIff | skills/odoo-introspect/scripts/deploy_gate.py:933-1004 | The policy in force turns a report into a block exactly when it surfaces something of a severity the policy fails closed on and a sign-off asked for is not there |
| Fixture.RenderFixtureCode | skills/odoo-introspect/scripts/fixture_factory.py:379-429 | The file generated for a recipe: the statements of its steps in order and the test line on the last created record; or that a back-reference raised |
| Fixture.Session.Exec | skills/odoo-introspect/scripts/fixture_factory.py:541-567 | Executing a recipe under the savepoint: effects stay only on a requested commit that fully succeeded |
| FixtureSource.LiteralParses | skills/odoo-introspect/scripts/fixture_factory.py:343-367 | Every literal written by the generator reads back as the value it was written from, in front of any text that does not continue it |
| FixtureTheorems.RefResolves | skills/odoo-introspect/scripts/fixture_factory.py:317-335 | `@name` and `@name.a. ... .z` in both modes: the attributes read one after the other off the record of that name, or chained onto its expression; an unknown name raises |
| FixtureTheorems.OtherTextResolves | skills/odoo-introspect/scripts/fixture_factory.py:317-335 | Text without the sign stands for itself, and a trailing dot reads nothing |
| FixtureTheorems.OnlyChainsRender | skills/odoo-introspect/scripts/fixture_factory.py:298-304 | In generated code an attribute with a dunder name raises and `expr` gives the expression's text |
| FixtureTheorems.RefEvaluates | skills/odoo-introspect/scripts/fixture_factory.py:287-335 | In generated code a reference to a step's name, with any chainable attributes, renders as `cls.name.a. ... .z` and evaluates to those attributes of what the class holds; a name of no step raises |
| FixtureTheorems.ValueAgrees | skills/odoo-introspect/scripts/fixture_factory.py:310-335 | A resolved value equals what its rendered literal evaluates to where bindings agree, and each fails where its bindings lack a reference |
| FixtureTheorems.ProgramParses | skills/odoo-introspect/scripts/fixture_factory.py:370-430 | The rendered body of a well-formed recipe parses, step by step, into the intended statements |
| FixtureTheorems.FileParsesIff | skills/odoo-introspect/scripts/fixture_factory.py:370-430 | The file generated for a well-formed recipe compiles exactly when some step creates a record, and its test asserts the record of the last such step |
| FixtureTheorems.CodeRunsAsExec | skills/odoo-introspect/scripts/fixture_factory.py:370-567 | Main result: on every environment the generated program performs the interpreter's creates and calls with the same arguments, and succeeds alike |
| FixtureTheorems.FileRunsAsExec | skills/odoo-introspect/scripts/fixture_factory.py:370-567 | So the file of a recipe with a create step compiles and sets up its class as the interpreter runs the recipe |
| FixtureTheorems.UnfaithfulDiverges | skills/odoo-introspect/scripts/fixture_factory.py:381-557 | The exact limit: a well-formed recipe that uses a method step's result where the interpreter has no record really does run differently |
| FixtureTheorems.UsesACallResultIsUnfaithful | skills/odoo-introspect/scripts/fixture_factory.py:381-557 | Such a recipe: a record, a call on it, and a second record that is given the call's result |
| FixtureTheorems.OnlyRecordsAreBound | skills/odoo-introspect/scripts/fixture_factory.py:541-557 | A run of the interpreter binds only created records that have an id and a display name; one that succeeds binds exactly the create steps |
| Anchors.FindIsFirst | skills/odoo-upgrade/scripts/anchor_check.py:166-179 | The anchor found is the first node in document order with the spec's tag and attributes, and there is one whenever some node has them |
| Anchors.LocatesFirstOffer | skills/odoo-upgrade/scripts/anchor_check.py:175-179 | The same with the condition written out: same tag, and every attribute but position and version there with its value; otherwise every node fails one of these |
| Anchors.LocatesBySelection | skills/odoo-upgrade/scripts/anchor_check.py:168-174 | An xpath spec is located where its expression, or `.` without one, selects |
| Anchors.FoundIffOffered | skills/odoo-upgrade/scripts/anchor_check.py:175-179 | An anchor is located exactly when some node carries its tag and attributes |
| Anchors.OperationText | skills/odoo-upgrade/scripts/anchor_check.py:182-208 | What an edit does to the document as text: content goes before the anchor's closing tag, after it, before its opening tag or in its place; only attributes change; or nothing changes |
| Anchors.AttributesFollowTheLast | skills/odoo-upgrade/scripts/anchor_check.py:185-191 | Setting attributes raises exactly when some `<attribute>` element has no name; otherwise the last one naming an attribute decides its value or drops it, and others stay |
| Anchors.DescendantsInOrder | skills/odoo-upgrade/scripts/anchor_check.py:186 | Those elements are all listed, in document order |
| Anchors.InsertionAdds | skills/odoo-upgrade/scripts/anchor_check.py:190-199 | An insertion located anywhere raises exactly beside the root, and otherwise adds exactly its content's nodes |
| Anchors.InsertionsGrowExactly | skills/odoo-upgrade/scripts/anchor_check.py:259-271 | Any list of insertions, located by tag or by expression, adds exactly the content of those located |
| Anchors.InsertionsFollowFaces | skills/odoo-upgrade/scripts/anchor_check.py:259-271 | For insertions located by tag and attributes, the final nodes and the reported misses are a function of the tags and attributes present, not of positions |
| Anchors.InsertionsKeepAnchors | skills/odoo-upgrade/scripts/anchor_check.py:182-208 | Any sequence of insertions, located by tag or by expression, keeps every tag-and-attribute anchor locatable |
| Anchors.InsertionsRaiseIff | skills/odoo-upgrade/scripts/anchor_check.py:146-151 | Insertions fail to compose exactly when one, at its turn, is a sibling insertion located at the root |
| Anchors.FoldAgreesWithCheck | skills/odoo-upgrade/scripts/anchor_check.py:146-151 | Where composition's loop succeeds, the fleet check's loop builds the same tree |
| Anchors.LineageIsDistinct | skills/odoo-upgrade/scripts/anchor_check.py:127-133 | A chain of ancestors up to a root never visits a view twice, so the trail only ever stops cycles |
| Anchors.OperationsOfContainer | skills/odoo-upgrade/scripts/anchor_check.py:158-163 | A view's operations are the elements of its container, or of a lone `<data>` without a position in it |
| Anchors.RootComposes | skills/odoo-upgrade/scripts/anchor_check.py:127-139 | A view without a parent composes to its template, or to the first element of its arch, or is missing |
| Anchors.ComposeIsOnePass | skills/odoo-upgrade/scripts/anchor_check.py:127-151 | Composition terminates and equals one pass over the ancestors' operations from the root view down; without a chain of at most nine views to a root it is missing |
| Anchors.ComposedKeepsAnchors | skills/odoo-upgrade/scripts/anchor_check.py:127-151 | When the ancestors only insert, the composed nodes are the root's plus the located content, and every anchor of the root view survives |
| Anchors.Arch.Apply | skills/odoo-upgrade/scripts/anchor_check.py:182-208 | The in-place edit, one insertion at a time, equals the edit described on values |
| Anchors.Arch.CheckAll | skills/odoo-upgrade/scripts/anchor_check.py:259-271 | The spec loop reports exactly the specs whose anchor is missing at their turn and swallows exceptions with what they changed |
| Anchors.ComposeView | skills/odoo-upgrade/scripts/anchor_check.py:127-151 | Recursive composition editing the parent's tree |
| Anchors.CheckView | skills/odoo-upgrade/scripts/anchor_check.py:248-271 | Verdict on one inheriting view: outside the target, parent not composable, raised, or its missing anchors |
| Anchors.MissesAreUnoffered | skills/odoo-upgrade/scripts/anchor_check.py:259-271 | For a view that only inserts, by tag and attributes, the misses are exactly the anchors whose tag and attribute values no node has at their turn |
| Redaction.RedactInPlace | skills/odoo-introspect/scripts/redaction.py:284-322 | The in-place worker, whatever order a dict lists its keys in, computes the redaction described on values |
| Redaction.RedactPayload | skills/odoo-introspect/scripts/redaction.py:263-278 | The entry point starts with nothing forced |
| Redaction.KeysDecide | skills/odoo-introspect/scripts/redaction.py:292-314 | What becomes of a value, told from its key and its neighbours: stripped, blanked when the key is sensitive, kept or marked as metadata, or redacted in its turn, forced when a sensitive record is dumped |
| Redaction.ValuesAreRedacted | skills/odoo-introspect/scripts/redaction.py:315-322 | Strings are replaced when forced and masked in external mode, lists redacted item by item, anything else kept |
| Redaction.SensitiveKeysAreBlanked | skills/odoo-introspect/scripts/redaction.py:300-314 | In both modes and at any depth an output holds a mark under a sensitive key, except below a metadata key, where the payload's value is kept |
| Redaction.HiddenDifferencesVanish | skills/odoo-introspect/scripts/redaction.py:284-322 | Payloads differing only under stripped or sensitive keys, in sensitive slots or in strings inside sensitive records redact alike exactly when, wherever just one of two objects is a sensitive slot, the other's value redacts to the same mark |
| Redaction.SameFieldsAgree | skills/odoo-introspect/scripts/redaction.py:294-299 | In particular they redact alike when corresponding objects name the same fields |
| Redaction.FieldNameShows | skills/odoo-introspect/scripts/redaction.py:294-299 | Without that they may not: a field name inside a sensitive record decides whether a number beside it is replaced |
| Redaction.OpenPathsAreRedacted | skills/odoo-introspect/scripts/redaction.py:300-322 | A string reached through ordinary keys comes out masked, or replaced when some object on the way is a sensitive record |
| Redaction.OutputStringsAreSafe | skills/odoo-introspect/scripts/redaction.py:284-322 | Every string of an external output is a placeholder, the masked form of the payload's own string there, or unchanged metadata |
| Merge.AggregateWrites | skills/odoo-introspect/scripts/trace_flow.py:108-125 | Per model the number of creates and of other writes and the sorted union of field names, models in order |
| Merge.ReexpandedIsAlike | skills/odoo-introspect/scripts/esg_sample.py:106-113 | Re-expanding a summary, items in any order, gives the same counts and fields as the events it summarises |
| Merge.MergedWritesAreExact | skills/odoo-introspect/scripts/esg_sample.py:90-120 | Merging per-seed summaries gives exactly the summary of the original events of all traced seeds |
| Merge.MergedReportIsTheSame | skills/odoo-introspect/scripts/esg_sample.py:90-120 | The writes listed in the merged graph are, entry by entry, those listed for all the original events at once |
| Merge.MergeSkeletons | skills/odoo-introspect/scripts/esg_sample.py:90-120 | Each whole edge once with its number of occurrences over the traced seeds, heaviest first then by name; each touched model with the sorted labels of the seeds that touched it |
| Merge.TouchedByMeans | skills/odoo-introspect/scripts/esg_sample.py:93-97 | The labels of a model: of each traced seed that touched it, the one given, else its method's name, else a question mark |
| Merge.ReportIsUnique | skills/odoo-introspect/scripts/esg_sample.py:115-118 | The edge report depends only on how often each edge occurs |
| Chain.OrderInheritanceChain | skills/odoo-introspect/scripts/entrypoints.py:54-82 | The recursive walk over shared state computes the order described on values |
| Chain.ListsTheReachable | skills/odoo-introspect/scripts/entrypoints.py:61-82 | Exactly the views reachable from the root are listed, each once, even on an inheritance cycle |
| Chain.ListedInAddressOrder | skills/odoo-introspect/scripts/entrypoints.py:71-81 | Views are listed in the order of their unique chains from the root, compared by priority and id at the first difference |
| Chain.ParentsFirst | skills/odoo-introspect/scripts/entrypoints.py:71-81 | A parent is listed before its children |
| Chain.SiblingsInOrder | skills/odoo-introspect/scripts/entrypoints.py:76-79 | Everything below one sibling comes before everything below the next in priority and id order |
| Chain.AddressUnique | skills/odoo-introspect/scripts/entrypoints.py:54-82 | With unique ids a view has only one direct chain from the root |
| Uat.QueuesAreRanked | skills/odoo-introspect/scripts/uat_pack.py:268-283 | A scenario's queue holds exactly the entrypoints of its own model, or of the document's when it names none, best first, those of one rank in the surface's order |
| Uat.RankedIs | skills/odoo-introspect/scripts/uat_pack.py:268 | Ranking keeps all entrypoints, better ones first, those of one rank in their order |
| Uat.FallbackIff | skills/odoo-introspect/scripts/uat_pack.py:284-289 | The fallback happens exactly when there are scenarios and entrypoints and none of these is of the model of any of those |
| Uat.FallbackQueues | skills/odoo-introspect/scripts/uat_pack.py:284-289 | The fallback gives every scenario the ten best entrypoints overall |
| Uat.Allocate | skills/odoo-introspect/scripts/uat_pack.py:291-303 | Exactly the smaller of ten and the total of the queues are allocated; each scenario gets a prefix of its queue; wherever one stops, one with entries left is at most one case behind any other and not behind a later one |
| Uat.BuildPack | skills/odoo-introspect/scripts/uat_pack.py:259-324 | The same for the whole pack, with the coverage note and the fallback flag |
| Uat.CoverageIsMaximal | skills/odoo-introspect/scripts/uat_pack.py:259-265 | No allocation of at most ten cases covers more scenarios |
| Uat.AllocationIsMaxMin | skills/odoo-introspect/scripts/uat_pack.py:291-303 | Giving a scenario more takes from one that has at most one case more than it |
| Uat.OnlyTheCapDrops | skills/odoo-introspect/scripts/uat_pack.py:305-314 | A scenario is cut short only when the cap was reached |
| Uat.NotedIffUnserved | skills/odoo-introspect/scripts/uat_pack.py:305-314 | The note lists exactly the scenarios that got no case, with the right reason |
| Observer.EvaluateIntegrity | skills/odoo-introspect/scripts/runtime_observer.py:101-168 | Sealed, tampered and absent exactly under the stated facts; no reasons exactly when sealed, and otherwise exactly those that apply |
| Observer.Recorder.Install | skills/odoo-introspect/scripts/runtime_observer.py:304-356 | The state after installing: fresh records, the watch set, and the audit count taken after its own settrace call |
| Observer.Recorder.Trace | skills/odoo-introspect/scripts/runtime_observer.py:331-347 | The state after one traced event, with the cap of twenty events a target |
| Observer.Recorder.Finalize | skills/odoo-introspect/scripts/runtime_observer.py:359-414 | The verdict drawn from the state, and the tracer removed |
| Observer.SelfReportIs | skills/odoo-introspect/scripts/runtime_observer.py:171-196 | The self-report carries the verdict by name, whether it is sealed, and the digest |
| Observer.RunTells | skills/odoo-introspect/scripts/runtime_observer.py:304-347 | After any run the recorder's counters are the run's totals: intrusions, invocations and calls per target up to the cap |
| Observer.CapKeepsHits | skills/odoo-introspect/scripts/runtime_observer.py:342-346 | The cap never changes the set of targets hit |
| Observer.SealedIff | skills/odoo-introspect/scripts/runtime_observer.py:359-401 | Exactly when a whole run is sealed, told from what happened in it |
| Observer.SealedMeansCalled | skills/odoo-introspect/scripts/runtime_observer.py:359-401 | A sealed, audited run had no settrace or setprofile call by anyone else; if it expected as many targets as it was given, their ids are distinct and each was called at its place |
| Observer.UnauditedIntrusionIsInvisible | skills/odoo-introspect/scripts/runtime_observer.py:237-247 | Without the audit hook, switching the recorder off and on again leaves no mark |
| Cosine.CauchySchwarz | skills/odoo-introspect/scripts/native_check.py:134-141 | The square of the dot product of two sparse vectors is at most the product of their squared norms |
| Cosine.ComputeCosine | skills/odoo-introspect/scripts/native_check.py:134-141 | The sums over keys, in any order, give the cosine |
| Cosine.CosineInRange | skills/odoo-introspect/scripts/native_check.py:134-141 | Cosines lie between -1 and 1, and between 0 and 1 without negative weights |
| Cosine.CosineOfSelf | skills/odoo-introspect/scripts/native_check.py:134-141 | A vector with a non-zero weight is at cosine 1 from itself, any other at 0 |
| Cosine.CosineOneIff | skills/odoo-introspect/scripts/native_check.py:134-141 | Cosine 1 is reached exactly by positive multiples |
| Cosine.CorpusIdf | skills/odoo-introspect/scripts/native_check.py:116-123 | The weights computed by counting cards per token |
| Cosine.IdfAtLeastOne | skills/odoo-introspect/scripts/native_check.py:116-123 | No corpus token weighs less than 1 |
| Cosine.RarerWeighsMore | skills/odoo-introspect/scripts/native_check.py:116-123 | With a growing logarithm a token found in fewer cards weighs more, and one that every card has weighs exactly 1 |
| Cosine.VectorsNonNegative | skills/odoo-introspect/scripts/native_check.py:126-131 | The vectors built have no negative weight, and a positive one on every corpus token |
| Cosine.CardMatchesItself | skills/odoo-introspect/scripts/native_check.py:144-160 | A requirement with exactly a card's tokens is at cosine 1 from it |
| Cosine.MatchCards | skills/odoo-introspect/scripts/native_check.py:144-160 | The cards above the threshold, sorted by rounded score and cut to the top |
| Cosine.TopIsBest | skills/odoo-introspect/scripts/native_check.py:159-160 | What is returned and what is cut off partition the scored cards, and nothing cut off scores above something returned |
| Cosine.TiesStayInOrder | skills/odoo-introspect/scripts/native_check.py:159 | Cards that score alike stay in corpus order |
| Cosine.MatchReturnsBest | skills/odoo-introspect/scripts/native_check.py:144-160 | Matching returns cards above the threshold with their rounded scores, best first; a card above the threshold that is not returned scores, rounded, at most what any returned one does, and truly more only where the two round alike |
| Cosine.PhrasesDominate | skills/odoo-introspect/scripts/native_check.py:87-97 | A card with more phrases verbatim in the requirement outscores every card with fewer |

## Left out

- Everything that needs a live environment, subprocesses, git, the network or files: a bundle is a map from artifact
  names to files, a view definition is given, an environment for recipes is a record of three functions.
- JSON and XML parsing, and the search for view definitions over files: values, trees and definitions are given.
- Floating-point rounding: scores are reals, `round` is a parameter; square root and logarithm are parameters with the
  property each proof needs.
- Regular expressions, `str.lower`, hashes and MACs: functions given to the model, as is what `int(s, 16)` reads.
  Digests are assumed to be ASCII and hex of their length in `Provenance.AttestedVerifies`.
- `Provenance.TamperingIsRejected`: rejects a change when the two contents do not collide under the MAC; that they do
  not is a matter of cryptography.
- `Gate.VerifyProvenance`: in the model an envelope on which verification raises is reported as one that does not
  verify; the code raises, and does not approve either.
- Lexing of generated Python: the source is a list of tokens, so quoting of strings is not modelled, nor are the
  comments, the docstring and the class name of a generated file, which come from the recipe's prose.
- `FixtureTheorems.OnlyChainsRender`: asks that nothing follows `expr`; attributes of the text it gives, such as the
  methods of a Python string, raise in the model.
- Attribute access on records may depend on the environment but does not change it; reading `display_name` after a
  create is not modelled.
- XPath evaluation: an expression selects some node or none. An expression selecting something that is not an element
  counts as selecting none.
- XML comments, tails and namespaces; and the identity of nodes: a tree is a value held by `Anchors.Arch`, which is
  updated as a whole.
- `move` operations change nothing, as in the code; `attributes` and `replace` are modelled and have their text stated
  by `Anchors.OperationText`, but the preservation of anchors is about insertions.
- `Anchors.InsertionsFollowFaces`: asks for anchors told by tag and attributes, since what an expression selects is not
  modelled; preservation, growth and raising are stated for both.
- Deploy gate: lower-casing and white space are those of ASCII. Identifiers that cannot be dictionary keys, and
  identifiers that are not strings where they would be joined into the text of a finding, make the code raise; in the
  model they get a verdict and a finding.
- Deploy gate and coverage: the override for files that fail to load, the command lines, the summaries by severity, and
  the extra finding the policy step appends when it blocks (its effect on the verdict is modelled).
- `GateTheorems.CleanTraceHidesError`: speaks of one kind of bundle; `GateTheorems.FirstFileDecides` is the general
  statement.
- `Matching.NearTieNamesTheWorse`: shows one list of fields; `Matching.BestIsNamedIff` is the general statement.
- `FixtureTheorems.UsesACallResultIsUnfaithful`: shows one recipe; `FixtureTheorems.UnfaithfulDiverges` is the general
  statement.
- `Redaction.FieldNameShows`: shows one pair of payloads; `Redaction.HiddenDifferencesVanish` is the general statement.
- `Trace.OpenCallCanGoNegative`: shows one run; `Trace.NonNegativeIff` is the general statement.
- `Redaction.HiddenDifferencesVanish`: asks that lower-casing leaves "model", "field" and "value" alone and that the
  sensitive-key pattern matches none of them, as is the case in the repository.
- Idempotence of redaction does not hold, because a masked field name may match the sensitive key pattern.
- Scanning text for secrets, the masks themselves, and rendering of reports to Markdown or HTML: presentation or
  patterns only.
- The tracer behind the surface graph: it stops tracing frames it has pushed, so its stack does not balance; only the
  merge is modelled.
- `eval_probe`, `summarize_calls` and the counting summaries: a probe is a nest of any and all over checks against the
  live registry, and the summaries count and sort per key what the model already has call by call.
- Red/green replay, environment diffs, scorers, the upgrade checker's renames and the other scripts of the repository:
  counting or single-branch decisions.
- Audit and tracing in the interpreter itself: the recorder may be invoked at any time, and an audit hook, once
  accepted, sees every call. The hook's counter is out of reach of the observed code.
