/** Candidate bundles and freeze registrations as dictionaries: what is written, and what reading it back gives. */
module CandidateFields {
  import opened Outcomes
  import opened Values
  import opened Packets
  import Calendar
  import Timestamps

  /** The field names of both dataclasses, each used as the dictionary key of the same name. */
  datatype Field =
    | BundleId | ContentHash | StrategyFamilyId | StrategySubfamilyId | SignalKernelDigest | KernelAbiVersion
    | StateSerializationVersion | AdapterCompatibilityHashes | ParameterizationDigest | ProductProfileId
    | ResearchSymbol | ExecutionSymbol | DatasetReleaseId | AnalyticReleaseId | DataProfileReleaseId
    | ResolvedContextBundleId | ExecutionProfileReleaseId | DependencyDagHash | FeatureContractHashes
    | OperatingEnvelopeProfileId | SessionConditionedRiskEnvelopeId | StrategyHardRiskBoundsDigest
    | EligibleAccountClassConstraints | MinimumCapitalUsd | MinimumMarginFraction
    | RequiredBrokerCapabilityProfileId | PortabilityPolicyDeclaration | RequiredEvidenceIds
    | CompatibilityMatrixVersion | SignatureIds | ConcreteAccountBindingId | LiveDataEntitlementId
    | CurrentFeeScheduleSnapshotId | CurrentMarginSnapshotId | SchemaVersion | RegistrationLogId
    | CandidateBundleId | RegistrationArtifactId | CorrelationId | OperatorReasonBundle | FrozenBundlePayload
    | CreatedAtUtc

  type Payload = map<Field, Value<Field>>

  /** What a dataclass field holds. */
  datatype FieldValue =
    | Text(s: string) | MaybeText(o: Option<string>) | Texts(ss: seq<string>) | Whole(n: int) | Number(x: real)
    | Nested(p: Payload)

  datatype CandidateBundle = CandidateBundle(
    bundleId: string, contentHash: string, strategyFamilyId: string, strategySubfamilyId: string,
    signalKernelDigest: string, kernelAbiVersion: string, stateSerializationVersion: string,
    adapterCompatibilityHashes: seq<string>, parameterizationDigest: string, productProfileId: string,
    researchSymbol: string, executionSymbol: string, datasetReleaseId: string,
    analyticReleaseId: Option<string>, dataProfileReleaseId: string, resolvedContextBundleId: string,
    executionProfileReleaseId: string, dependencyDagHash: string, featureContractHashes: seq<string>,
    operatingEnvelopeProfileId: string, sessionConditionedRiskEnvelopeId: Option<string>,
    strategyHardRiskBoundsDigest: string, eligibleAccountClassConstraints: seq<string>, minimumCapitalUsd: int,
    minimumMarginFraction: real, requiredBrokerCapabilityProfileId: string,
    portabilityPolicyDeclaration: string, requiredEvidenceIds: seq<string>, compatibilityMatrixVersion: string,
    signatureIds: seq<string>, concreteAccountBindingId: Option<string>, liveDataEntitlementId: Option<string>,
    currentFeeScheduleSnapshotId: Option<string>, currentMarginSnapshotId: Option<string>, schemaVersion: int
  )

  datatype Registration = Registration(
    registrationLogId: string, candidateBundleId: string, contentHash: string, signalKernelDigest: string,
    parameterizationDigest: string, datasetReleaseId: string, analyticReleaseId: Option<string>,
    dataProfileReleaseId: string, resolvedContextBundleId: string, executionProfileReleaseId: string,
    dependencyDagHash: string, featureContractHashes: seq<string>, requiredEvidenceIds: seq<string>,
    compatibilityMatrixVersion: string, signatureIds: seq<string>, registrationArtifactId: string,
    correlationId: string, operatorReasonBundle: seq<string>, frozenBundlePayload: Payload,
    createdAtUtc: string
  )

  predicate OfBundle(f: Field) {
    match f
    case RegistrationLogId => false
    case CandidateBundleId => false
    case RegistrationArtifactId => false
    case CorrelationId => false
    case OperatorReasonBundle => false
    case FrozenBundlePayload => false
    case CreatedAtUtc => false
    case _ => true
  }

  predicate OfRegistration(f: Field) {
    match f
    case RegistrationLogId => true
    case CandidateBundleId => true
    case ContentHash => true
    case SignalKernelDigest => true
    case ParameterizationDigest => true
    case DatasetReleaseId => true
    case AnalyticReleaseId => true
    case DataProfileReleaseId => true
    case ResolvedContextBundleId => true
    case ExecutionProfileReleaseId => true
    case DependencyDagHash => true
    case FeatureContractHashes => true
    case RequiredEvidenceIds => true
    case CompatibilityMatrixVersion => true
    case SignatureIds => true
    case RegistrationArtifactId => true
    case CorrelationId => true
    case OperatorReasonBundle => true
    case FrozenBundlePayload => true
    case CreatedAtUtc => true
    case _ => false
  }

  const REQUIRED_COUNT := 26

  /** The fields a candidate may not leave empty, in the order they are reported. */
  function RequiredAt(k: nat): (f: Field)
    ensures OfBundle(f)
  {
    match k
    case 0 => BundleId
    case 1 => ContentHash
    case 2 => StrategyFamilyId
    case 3 => StrategySubfamilyId
    case 4 => SignalKernelDigest
    case 5 => KernelAbiVersion
    case 6 => StateSerializationVersion
    case 7 => AdapterCompatibilityHashes
    case 8 => ParameterizationDigest
    case 9 => ProductProfileId
    case 10 => ResearchSymbol
    case 11 => ExecutionSymbol
    case 12 => DatasetReleaseId
    case 13 => DataProfileReleaseId
    case 14 => ResolvedContextBundleId
    case 15 => ExecutionProfileReleaseId
    case 16 => DependencyDagHash
    case 17 => FeatureContractHashes
    case 18 => OperatingEnvelopeProfileId
    case 19 => StrategyHardRiskBoundsDigest
    case 20 => EligibleAccountClassConstraints
    case 21 => RequiredBrokerCapabilityProfileId
    case 22 => PortabilityPolicyDeclaration
    case 23 => RequiredEvidenceIds
    case 24 => CompatibilityMatrixVersion
    case _ => SignatureIds
  }

  /** Where a field stands in that order; optional ids, the bounds and the version are not required. */
  function RequiredPlace(f: Field): int {
    match f
    case BundleId => 0
    case ContentHash => 1
    case StrategyFamilyId => 2
    case StrategySubfamilyId => 3
    case SignalKernelDigest => 4
    case KernelAbiVersion => 5
    case StateSerializationVersion => 6
    case AdapterCompatibilityHashes => 7
    case ParameterizationDigest => 8
    case ProductProfileId => 9
    case ResearchSymbol => 10
    case ExecutionSymbol => 11
    case DatasetReleaseId => 12
    case DataProfileReleaseId => 13
    case ResolvedContextBundleId => 14
    case ExecutionProfileReleaseId => 15
    case DependencyDagHash => 16
    case FeatureContractHashes => 17
    case OperatingEnvelopeProfileId => 18
    case StrategyHardRiskBoundsDigest => 19
    case EligibleAccountClassConstraints => 20
    case RequiredBrokerCapabilityProfileId => 21
    case PortabilityPolicyDeclaration => 22
    case RequiredEvidenceIds => 23
    case CompatibilityMatrixVersion => 24
    case SignatureIds => 25
    case _ => -1
  }

  predicate Required(f: Field) {
    RequiredPlace(f) >= 0
  }

  lemma PlaceOfRequired(k: nat)
    requires k < REQUIRED_COUNT
    ensures RequiredPlace(RequiredAt(k)) == k
  {
  }

  lemma RequiredAtPlace(f: Field)
    requires Required(f)
    ensures RequiredPlace(f) < REQUIRED_COUNT && RequiredAt(RequiredPlace(f)) == f
  {
  }

  function BundleField(b: CandidateBundle, f: Field): FieldValue
    requires OfBundle(f)
  {
    match f
    case BundleId => Text(b.bundleId)
    case ContentHash => Text(b.contentHash)
    case StrategyFamilyId => Text(b.strategyFamilyId)
    case StrategySubfamilyId => Text(b.strategySubfamilyId)
    case SignalKernelDigest => Text(b.signalKernelDigest)
    case KernelAbiVersion => Text(b.kernelAbiVersion)
    case StateSerializationVersion => Text(b.stateSerializationVersion)
    case AdapterCompatibilityHashes => Texts(b.adapterCompatibilityHashes)
    case ParameterizationDigest => Text(b.parameterizationDigest)
    case ProductProfileId => Text(b.productProfileId)
    case ResearchSymbol => Text(b.researchSymbol)
    case ExecutionSymbol => Text(b.executionSymbol)
    case DatasetReleaseId => Text(b.datasetReleaseId)
    case AnalyticReleaseId => MaybeText(b.analyticReleaseId)
    case DataProfileReleaseId => Text(b.dataProfileReleaseId)
    case ResolvedContextBundleId => Text(b.resolvedContextBundleId)
    case ExecutionProfileReleaseId => Text(b.executionProfileReleaseId)
    case DependencyDagHash => Text(b.dependencyDagHash)
    case FeatureContractHashes => Texts(b.featureContractHashes)
    case OperatingEnvelopeProfileId => Text(b.operatingEnvelopeProfileId)
    case SessionConditionedRiskEnvelopeId => MaybeText(b.sessionConditionedRiskEnvelopeId)
    case StrategyHardRiskBoundsDigest => Text(b.strategyHardRiskBoundsDigest)
    case EligibleAccountClassConstraints => Texts(b.eligibleAccountClassConstraints)
    case MinimumCapitalUsd => Whole(b.minimumCapitalUsd)
    case MinimumMarginFraction => Number(b.minimumMarginFraction)
    case RequiredBrokerCapabilityProfileId => Text(b.requiredBrokerCapabilityProfileId)
    case PortabilityPolicyDeclaration => Text(b.portabilityPolicyDeclaration)
    case RequiredEvidenceIds => Texts(b.requiredEvidenceIds)
    case CompatibilityMatrixVersion => Text(b.compatibilityMatrixVersion)
    case SignatureIds => Texts(b.signatureIds)
    case ConcreteAccountBindingId => MaybeText(b.concreteAccountBindingId)
    case LiveDataEntitlementId => MaybeText(b.liveDataEntitlementId)
    case CurrentFeeScheduleSnapshotId => MaybeText(b.currentFeeScheduleSnapshotId)
    case CurrentMarginSnapshotId => MaybeText(b.currentMarginSnapshotId)
    case SchemaVersion => Whole(b.schemaVersion)
  }

  function RegistrationField(r: Registration, f: Field): FieldValue
    requires OfRegistration(f)
  {
    match f
    case RegistrationLogId => Text(r.registrationLogId)
    case CandidateBundleId => Text(r.candidateBundleId)
    case ContentHash => Text(r.contentHash)
    case SignalKernelDigest => Text(r.signalKernelDigest)
    case ParameterizationDigest => Text(r.parameterizationDigest)
    case DatasetReleaseId => Text(r.datasetReleaseId)
    case AnalyticReleaseId => MaybeText(r.analyticReleaseId)
    case DataProfileReleaseId => Text(r.dataProfileReleaseId)
    case ResolvedContextBundleId => Text(r.resolvedContextBundleId)
    case ExecutionProfileReleaseId => Text(r.executionProfileReleaseId)
    case DependencyDagHash => Text(r.dependencyDagHash)
    case FeatureContractHashes => Texts(r.featureContractHashes)
    case RequiredEvidenceIds => Texts(r.requiredEvidenceIds)
    case CompatibilityMatrixVersion => Text(r.compatibilityMatrixVersion)
    case SignatureIds => Texts(r.signatureIds)
    case RegistrationArtifactId => Text(r.registrationArtifactId)
    case CorrelationId => Text(r.correlationId)
    case OperatorReasonBundle => Texts(r.operatorReasonBundle)
    case FrozenBundlePayload => Nested(r.frozenBundlePayload)
    case CreatedAtUtc => Text(r.createdAtUtc)
  }

  function Strs(ss: seq<string>): (r: seq<Value<Field>>)
    ensures |r| == |ss| && forall i :: 0 <= i < |ss| ==> r[i] == Str(ss[i])
  {
    if ss == [] then [] else [Str(ss[0])] + Strs(ss[1..])
  }

  // ---------- To dictionaries ----------

  /** The value `asdict` stores for a field: tuples stay tuples. */
  function Encoded(v: FieldValue): Value<Field> {
    match v
    case Text(s) => Str(s)
    case MaybeText(o) => if o.Some? then Str(o.value) else Null
    case Texts(ss) => Tuple(Strs(ss))
    case Whole(n) => Int(n)
    case Number(x) => Float(x)
    case Nested(p) => Dict(p)
  }

  function AsDict(b: CandidateBundle): Payload {
    map f: Field | OfBundle(f) :: Encoded(BundleField(b, f))
  }

  /** The JSON payload frozen into a registration. */
  function ToDict(b: CandidateBundle): Payload {
    Jsonable(Dict(AsDict(b))).entries
  }

  function RegistrationToDict(r: Registration): Payload {
    Jsonable(Dict(map f: Field | OfRegistration(f) :: Encoded(RegistrationField(r, f)))).entries
  }

  // ---------- From dictionaries ----------

  function Get(p: Payload, f: Field): Value<Field> {
    if f in p then p[f] else Null
  }

  function TextAt(p: Payload, f: Field): Outcome<string> {
    if f !in p then Raises(LookupFailed)
    else if p[f].Str? then Returns(p[f].s)
    else Raises(NotModelled)
  }

  function OptionalTextAt(p: Payload, f: Field): Outcome<Option<string>> {
    match Get(p, f)
    case Null => Returns(None)
    case Str(s) => Returns(Some(s))
    case _ => Raises(ValueError)
  }

  /** An empty text is read as absent. */
  function NonEmptyTextAt(p: Payload, f: Field): Outcome<Option<string>> {
    match Get(p, f)
    case Null => Returns(None)
    case Str(s) => Returns(if s == "" then None else Some(s))
    case _ => Raises(NotModelled)
  }

  function ReadTexts(vs: seq<Value<Field>>): Outcome<seq<string>> {
    if vs == [] then Returns([])
    else if !vs[0].Str? then Raises(NotModelled)
    else
      var rest :- ReadTexts(vs[1..]);
      Returns([vs[0].s] + rest)
  }

  function TextsAt(p: Payload, f: Field): Outcome<seq<string>> {
    if f !in p then Raises(LookupFailed)
    else if p[f].List? then ReadTexts(p[f].items)
    else Raises(NotModelled)
  }

  function IntAt(p: Payload, f: Field): Outcome<int> {
    if f !in p then Raises(LookupFailed)
    else if p[f].Int? then Returns(p[f].n)
    else Raises(ValueError)
  }

  function FloatAt(p: Payload, f: Field): Outcome<real> {
    if f !in p then Raises(LookupFailed)
    else match p[f]
      case Float(x) => Returns(x)
      case Int(n) => Returns(n as real)
      case Str(_) => Raises(NotModelled)
      case _ => Raises(ValueError)
  }

  function SchemaVersionAt(p: Payload): Outcome<int> {
    if SchemaVersion !in p then Returns(SUPPORTED_SCHEMA_VERSION) else IntAt(p, SchemaVersion)
  }

  function ReadStrategy(p: Payload): Outcome<(string, string, string, string, string, string)> {
    var bundleId :- TextAt(p, BundleId);
    var contentHash :- TextAt(p, ContentHash);
    var strategyFamilyId :- TextAt(p, StrategyFamilyId);
    var strategySubfamilyId :- TextAt(p, StrategySubfamilyId);
    var signalKernelDigest :- TextAt(p, SignalKernelDigest);
    var kernelAbiVersion :- TextAt(p, KernelAbiVersion);
    Returns((
      bundleId, contentHash, strategyFamilyId, strategySubfamilyId, signalKernelDigest, kernelAbiVersion))
  }

  function ReadAdapter(p: Payload): Outcome<(string, seq<string>, string, string, string, string)> {
    var stateSerializationVersion :- TextAt(p, StateSerializationVersion);
    var adapterCompatibilityHashes :- TextsAt(p, AdapterCompatibilityHashes);
    var parameterizationDigest :- TextAt(p, ParameterizationDigest);
    var productProfileId :- TextAt(p, ProductProfileId);
    var researchSymbol :- TextAt(p, ResearchSymbol);
    var executionSymbol :- TextAt(p, ExecutionSymbol);
    Returns((
      stateSerializationVersion, adapterCompatibilityHashes, parameterizationDigest, productProfileId,
      researchSymbol, executionSymbol))
  }

  function ReadRelease(p: Payload): Outcome<(string, Option<string>, string, string, string, string)> {
    var datasetReleaseId :- TextAt(p, DatasetReleaseId);
    var analyticReleaseId :- OptionalTextAt(p, AnalyticReleaseId);
    var dataProfileReleaseId :- TextAt(p, DataProfileReleaseId);
    var resolvedContextBundleId :- TextAt(p, ResolvedContextBundleId);
    var executionProfileReleaseId :- TextAt(p, ExecutionProfileReleaseId);
    var dependencyDagHash :- TextAt(p, DependencyDagHash);
    Returns((
      datasetReleaseId, analyticReleaseId, dataProfileReleaseId, resolvedContextBundleId,
      executionProfileReleaseId, dependencyDagHash))
  }

  function ReadEnvelope(p: Payload): Outcome<(seq<string>, string, Option<string>, string, seq<string>)> {
    var featureContractHashes :- TextsAt(p, FeatureContractHashes);
    var operatingEnvelopeProfileId :- TextAt(p, OperatingEnvelopeProfileId);
    var sessionConditionedRiskEnvelopeId :- NonEmptyTextAt(p, SessionConditionedRiskEnvelopeId);
    var strategyHardRiskBoundsDigest :- TextAt(p, StrategyHardRiskBoundsDigest);
    var eligibleAccountClassConstraints :- TextsAt(p, EligibleAccountClassConstraints);
    Returns((
      featureContractHashes, operatingEnvelopeProfileId, sessionConditionedRiskEnvelopeId,
      strategyHardRiskBoundsDigest, eligibleAccountClassConstraints))
  }

  function ReadConstraint(p: Payload): Outcome<(int, real, string, string, seq<string>)> {
    var minimumCapitalUsd :- IntAt(p, MinimumCapitalUsd);
    var minimumMarginFraction :- FloatAt(p, MinimumMarginFraction);
    var requiredBrokerCapabilityProfileId :- TextAt(p, RequiredBrokerCapabilityProfileId);
    var portabilityPolicyDeclaration :- TextAt(p, PortabilityPolicyDeclaration);
    var requiredEvidenceIds :- TextsAt(p, RequiredEvidenceIds);
    Returns((
      minimumCapitalUsd, minimumMarginFraction, requiredBrokerCapabilityProfileId,
      portabilityPolicyDeclaration, requiredEvidenceIds))
  }

  function ReadEvidence(p: Payload): Outcome<(string, seq<string>, Option<string>)> {
    var compatibilityMatrixVersion :- TextAt(p, CompatibilityMatrixVersion);
    var signatureIds :- TextsAt(p, SignatureIds);
    var concreteAccountBindingId :- OptionalTextAt(p, ConcreteAccountBindingId);
    Returns((
      compatibilityMatrixVersion, signatureIds, concreteAccountBindingId))
  }

  function ReadBinding(p: Payload): Outcome<(Option<string>, Option<string>, Option<string>, int)> {
    var liveDataEntitlementId :- OptionalTextAt(p, LiveDataEntitlementId);
    var currentFeeScheduleSnapshotId :- OptionalTextAt(p, CurrentFeeScheduleSnapshotId);
    var currentMarginSnapshotId :- OptionalTextAt(p, CurrentMarginSnapshotId);
    var schemaVersion :- SchemaVersionAt(p);
    Returns((
      liveDataEntitlementId, currentFeeScheduleSnapshotId, currentMarginSnapshotId, schemaVersion))
  }

  function BundleFromDict(p: Payload): Outcome<CandidateBundle> {
    var (
      bundleId, contentHash, strategyFamilyId, strategySubfamilyId, signalKernelDigest, kernelAbiVersion) :-
        ReadStrategy(p);
    var (
      stateSerializationVersion, adapterCompatibilityHashes, parameterizationDigest, productProfileId,
      researchSymbol, executionSymbol) :- ReadAdapter(p);
    var (
      datasetReleaseId, analyticReleaseId, dataProfileReleaseId, resolvedContextBundleId,
      executionProfileReleaseId, dependencyDagHash) :- ReadRelease(p);
    var (
      featureContractHashes, operatingEnvelopeProfileId, sessionConditionedRiskEnvelopeId,
      strategyHardRiskBoundsDigest, eligibleAccountClassConstraints) :- ReadEnvelope(p);
    var (
      minimumCapitalUsd, minimumMarginFraction, requiredBrokerCapabilityProfileId,
      portabilityPolicyDeclaration, requiredEvidenceIds) :- ReadConstraint(p);
    var (
      compatibilityMatrixVersion, signatureIds, concreteAccountBindingId) :- ReadEvidence(p);
    var (
      liveDataEntitlementId, currentFeeScheduleSnapshotId, currentMarginSnapshotId, schemaVersion) :- ReadBinding(p);
    Returns(CandidateBundle(
      bundleId, contentHash, strategyFamilyId, strategySubfamilyId, signalKernelDigest, kernelAbiVersion,
      stateSerializationVersion, adapterCompatibilityHashes, parameterizationDigest, productProfileId,
      researchSymbol, executionSymbol, datasetReleaseId, analyticReleaseId, dataProfileReleaseId,
      resolvedContextBundleId, executionProfileReleaseId, dependencyDagHash, featureContractHashes,
      operatingEnvelopeProfileId, sessionConditionedRiskEnvelopeId, strategyHardRiskBoundsDigest,
      eligibleAccountClassConstraints, minimumCapitalUsd, minimumMarginFraction,
      requiredBrokerCapabilityProfileId, portabilityPolicyDeclaration, requiredEvidenceIds,
      compatibilityMatrixVersion, signatureIds, concreteAccountBindingId, liveDataEntitlementId,
      currentFeeScheduleSnapshotId, currentMarginSnapshotId, schemaVersion))
  }

  lemma {:induction false} TextsOfStrs(ss: seq<string>)
    ensures ReadTexts(Strs(ss)) == Returns(ss)
  {
    if ss != [] {
      TextsOfStrs(ss[1..]);
      assert Strs(ss)[1..] == Strs(ss[1..]) && [ss[0]] + ss[1..] == ss;
    }
  }

  lemma JsonableStrs(ss: seq<string>)
    ensures Jsonable<Field>(Tuple(Strs(ss))) == List(Strs(ss))
  {
    var vs := Strs(ss);
    forall i | 0 <= i < |vs| ensures JsonableAll(vs)[i] == vs[i] {
      assert JsonableAll(vs)[i] == Jsonable(vs[i]);
    }
    assert JsonableAll(vs) == vs;
  }

  /** What JSON keeps of a field: tuples become lists, in nested payloads too. */
  function JsonOf(v: FieldValue): Value<Field> {
    match v
    case Texts(ss) => List(Strs(ss))
    case Nested(p) => Jsonable(Dict(p))
    case _ => Encoded(v)
  }

  lemma JsonOfEncoded(v: FieldValue)
    ensures Jsonable(Encoded(v)) == JsonOf(v)
  {
    if v.Texts? { JsonableStrs(v.ss); }
  }

  ghost predicate Records(p: Payload, b: CandidateBundle) {
    forall f :: OfBundle(f) ==> f in p && p[f] == JsonOf(BundleField(b, f))
  }

  lemma RecordedAt(p: Payload, b: CandidateBundle, f: Field)
    requires Records(p, b) && OfBundle(f)
    ensures f in p && p[f] == JsonOf(BundleField(b, f))
  {
  }

  lemma ToDictRecords(b: CandidateBundle)
    ensures Records(ToDict(b), b)
  {
    forall f: Field | OfBundle(f) ensures f in ToDict(b) && ToDict(b)[f] == JsonOf(BundleField(b, f)) {
      assert ToDict(b)[f] == Jsonable(AsDict(b)[f]);
      JsonOfEncoded(BundleField(b, f));
    }
  }

  function NonEmpty(o: Option<string>): Option<string> {
    if o == Some("") then None else o
  }

  lemma StrategyRead(p: Payload, b: CandidateBundle)
    requires Records(p, b)
    ensures ReadStrategy(p) == Returns((
          b.bundleId, b.contentHash, b.strategyFamilyId, b.strategySubfamilyId, b.signalKernelDigest,
          b.kernelAbiVersion))
  {
    assert BundleField(b, BundleId) == Text(b.bundleId);
    assert BundleField(b, ContentHash) == Text(b.contentHash);
    assert BundleField(b, StrategyFamilyId) == Text(b.strategyFamilyId);
    assert BundleField(b, StrategySubfamilyId) == Text(b.strategySubfamilyId);
    assert BundleField(b, SignalKernelDigest) == Text(b.signalKernelDigest);
    assert BundleField(b, KernelAbiVersion) == Text(b.kernelAbiVersion);
  }

  lemma AdapterRead(p: Payload, b: CandidateBundle)
    requires Records(p, b)
    ensures ReadAdapter(p) == Returns((
          b.stateSerializationVersion, b.adapterCompatibilityHashes, b.parameterizationDigest,
          b.productProfileId, b.researchSymbol, b.executionSymbol))
  {
    assert BundleField(b, StateSerializationVersion) == Text(b.stateSerializationVersion);
    assert BundleField(b, AdapterCompatibilityHashes) == Texts(b.adapterCompatibilityHashes);
    assert BundleField(b, ParameterizationDigest) == Text(b.parameterizationDigest);
    assert BundleField(b, ProductProfileId) == Text(b.productProfileId);
    assert BundleField(b, ResearchSymbol) == Text(b.researchSymbol);
    assert BundleField(b, ExecutionSymbol) == Text(b.executionSymbol);
    TextsOfStrs(b.adapterCompatibilityHashes);
  }

  lemma ReleaseRead(p: Payload, b: CandidateBundle)
    requires Records(p, b)
    ensures ReadRelease(p) == Returns((
          b.datasetReleaseId, b.analyticReleaseId, b.dataProfileReleaseId, b.resolvedContextBundleId,
          b.executionProfileReleaseId, b.dependencyDagHash))
  {
    assert BundleField(b, DatasetReleaseId) == Text(b.datasetReleaseId);
    assert BundleField(b, AnalyticReleaseId) == MaybeText(b.analyticReleaseId);
    assert BundleField(b, DataProfileReleaseId) == Text(b.dataProfileReleaseId);
    assert BundleField(b, ResolvedContextBundleId) == Text(b.resolvedContextBundleId);
    assert BundleField(b, ExecutionProfileReleaseId) == Text(b.executionProfileReleaseId);
    assert BundleField(b, DependencyDagHash) == Text(b.dependencyDagHash);
  }

  lemma EnvelopeRead(p: Payload, b: CandidateBundle)
    requires Records(p, b)
    ensures ReadEnvelope(p) == Returns((
          b.featureContractHashes, b.operatingEnvelopeProfileId, NonEmpty(b.sessionConditionedRiskEnvelopeId),
          b.strategyHardRiskBoundsDigest, b.eligibleAccountClassConstraints))
  {
    assert BundleField(b, FeatureContractHashes) == Texts(b.featureContractHashes);
    assert BundleField(b, OperatingEnvelopeProfileId) == Text(b.operatingEnvelopeProfileId);
    assert BundleField(b, SessionConditionedRiskEnvelopeId) == MaybeText(b.sessionConditionedRiskEnvelopeId);
    assert BundleField(b, StrategyHardRiskBoundsDigest) == Text(b.strategyHardRiskBoundsDigest);
    assert BundleField(b, EligibleAccountClassConstraints) == Texts(b.eligibleAccountClassConstraints);
    TextsOfStrs(b.featureContractHashes);
    TextsOfStrs(b.eligibleAccountClassConstraints);
  }

  lemma ConstraintRead(p: Payload, b: CandidateBundle)
    requires Records(p, b)
    ensures ReadConstraint(p) == Returns((
          b.minimumCapitalUsd, b.minimumMarginFraction, b.requiredBrokerCapabilityProfileId,
          b.portabilityPolicyDeclaration, b.requiredEvidenceIds))
  {
    assert BundleField(b, MinimumCapitalUsd) == Whole(b.minimumCapitalUsd);
    assert BundleField(b, MinimumMarginFraction) == Number(b.minimumMarginFraction);
    assert BundleField(b, RequiredBrokerCapabilityProfileId) == Text(b.requiredBrokerCapabilityProfileId);
    assert BundleField(b, PortabilityPolicyDeclaration) == Text(b.portabilityPolicyDeclaration);
    assert BundleField(b, RequiredEvidenceIds) == Texts(b.requiredEvidenceIds);
    TextsOfStrs(b.requiredEvidenceIds);
  }

  lemma EvidenceRead(p: Payload, b: CandidateBundle)
    requires Records(p, b)
    ensures ReadEvidence(p) == Returns((
          b.compatibilityMatrixVersion, b.signatureIds, b.concreteAccountBindingId))
  {
    assert BundleField(b, CompatibilityMatrixVersion) == Text(b.compatibilityMatrixVersion);
    assert BundleField(b, SignatureIds) == Texts(b.signatureIds);
    assert BundleField(b, ConcreteAccountBindingId) == MaybeText(b.concreteAccountBindingId);
    TextsOfStrs(b.signatureIds);
  }

  lemma BindingRead(p: Payload, b: CandidateBundle)
    requires Records(p, b)
    ensures ReadBinding(p) == Returns((
          b.liveDataEntitlementId, b.currentFeeScheduleSnapshotId, b.currentMarginSnapshotId, b.schemaVersion))
  {
    assert BundleField(b, LiveDataEntitlementId) == MaybeText(b.liveDataEntitlementId);
    assert BundleField(b, CurrentFeeScheduleSnapshotId) == MaybeText(b.currentFeeScheduleSnapshotId);
    assert BundleField(b, CurrentMarginSnapshotId) == MaybeText(b.currentMarginSnapshotId);
    assert BundleField(b, SchemaVersion) == Whole(b.schemaVersion);
  }

  /**
   * Reading a bundle's payload gives the bundle back, except that an empty risk-envelope id is read as absent;
   * so it gives the bundle back exactly when that id is not the empty text.
   */
  lemma BundleRoundTrip(b: CandidateBundle)
    ensures BundleFromDict(ToDict(b)) == Returns(
              if b.sessionConditionedRiskEnvelopeId == Some("") then b.(sessionConditionedRiskEnvelopeId := None)
              else b)
  {
    ToDictRecords(b);
    StrategyRead(ToDict(b), b);
    AdapterRead(ToDict(b), b);
    ReleaseRead(ToDict(b), b);
    EnvelopeRead(ToDict(b), b);
    ConstraintRead(ToDict(b), b);
    EvidenceRead(ToDict(b), b);
    BindingRead(ToDict(b), b);
  }

  /** No bundle that was read from a dictionary has an empty risk-envelope id. */
  lemma ReadEnvelopeNotEmpty(p: Payload)
    requires BundleFromDict(p).Returns?
    ensures BundleFromDict(p).value.sessionConditionedRiskEnvelopeId != Some("")
  {
    assert ReadEnvelope(p).Returns? && ReadEnvelope(p).value.2 != Some("");
  }

  /** A frozen payload records every field: no two bundles share one. */
  lemma PayloadInjective(a: CandidateBundle, b: CandidateBundle)
    ensures ToDict(a) == ToDict(b) <==> a == b
  {
    if ToDict(a) == ToDict(b) {
      BundleRoundTrip(a);
      BundleRoundTrip(b);
      SameEnvelope(a, b);
    }
  }

  lemma SameEnvelope(a: CandidateBundle, b: CandidateBundle)
    requires ToDict(a) == ToDict(b)
    ensures a.sessionConditionedRiskEnvelopeId == b.sessionConditionedRiskEnvelopeId
  {
    RecordedEnvelope(a);
    RecordedEnvelope(b);
  }

  lemma RecordedEnvelope(b: CandidateBundle)
    ensures SessionConditionedRiskEnvelopeId in ToDict(b)
    ensures ToDict(b)[SessionConditionedRiskEnvelopeId] == Encoded(MaybeText(b.sessionConditionedRiskEnvelopeId))
  {
    ToDictRecords(b);
    RecordedAt(ToDict(b), b, SessionConditionedRiskEnvelopeId);
  }

  /** Python's `==` between a payload and the one a bundle freezes to. */
  predicate Freezes(p: Payload, b: CandidateBundle) {
    Same(Dict(p), Dict(ToDict(b)))
  }

  function Kind(v: FieldValue): nat {
    match v
    case Text(_) => 0
    case MaybeText(_) => 1
    case Texts(_) => 2
    case Whole(_) => 3
    case Number(_) => 4
    case Nested(_) => 5
  }

  lemma SameKindPerField(a: CandidateBundle, b: CandidateBundle, f: Field)
    requires OfBundle(f)
    ensures Kind(BundleField(a, f)) == Kind(BundleField(b, f)) < 5
  {
  }

  /** On values of one dataclass field, Python's `==` is identity. */
  lemma SameFieldIsEqual(v: FieldValue, w: FieldValue)
    requires Kind(v) == Kind(w) < 5 && Same(JsonOf(v), JsonOf(w))
    ensures JsonOf(v) == JsonOf(w)
  {
    if v.Texts? {
      forall i | 0 <= i < |v.ss| ensures Strs(v.ss)[i] == Strs(w.ss)[i] {
        assert Same(Strs(v.ss)[i], Strs(w.ss)[i]);
      }
      assert Strs(v.ss) == Strs(w.ss);
    }
  }

  /** A payload frozen from a bundle equals only what that bundle freezes to. */
  lemma FreezesOnlyItsBundle(a: CandidateBundle, b: CandidateBundle)
    ensures Freezes(ToDict(a), b) <==> a == b
  {
    if Freezes(ToDict(a), b) {
      ToDictRecords(a);
      ToDictRecords(b);
      forall f | f in ToDict(a) ensures ToDict(a)[f] == ToDict(b)[f] {
        assert OfBundle(f);
        RecordedAt(ToDict(a), a, f);
        RecordedAt(ToDict(b), b, f);
        SameKindPerField(a, b, f);
        SameFieldIsEqual(BundleField(a, f), BundleField(b, f));
      }
      assert ToDict(a) == ToDict(b);
      PayloadInjective(a, b);
    }
    SameAsItself(Dict(ToDict(b)));
  }

  /** Bringing a payload into JSON form can only make it equal to a frozen one, and does so just by losing tuples. */
  lemma FreezesIff(p: Payload, b: CandidateBundle)
    ensures Freezes(p, b) <==> Freezes(JsonPayload(p), b) && TupleFree(Dict(p))
  {
    JsonableIsJson(Dict(AsDict(b)));
    SameAsJsonIff(Dict(p), Dict(ToDict(b)));
  }

  // ---------- Under which key each field is stored

  function OrNull(o: Option<string>): Value<Field> {
    if o.Some? then Str(o.value) else Null
  }

  lemma IdentityInPayload(b: CandidateBundle)
    ensures forall f :: OfBundle(f) ==> f in ToDict(b)
    ensures var p := ToDict(b);
            && p[BundleId] == Str(b.bundleId)
            && p[ContentHash] == Str(b.contentHash)
            && p[StrategyFamilyId] == Str(b.strategyFamilyId)
            && p[StrategySubfamilyId] == Str(b.strategySubfamilyId)
            && p[SignalKernelDigest] == Str(b.signalKernelDigest)
            && p[KernelAbiVersion] == Str(b.kernelAbiVersion)
  {
    ToDictRecords(b);
    assert BundleField(b, BundleId) == Text(b.bundleId);
    assert BundleField(b, ContentHash) == Text(b.contentHash);
    assert BundleField(b, StrategyFamilyId) == Text(b.strategyFamilyId);
    assert BundleField(b, StrategySubfamilyId) == Text(b.strategySubfamilyId);
    assert BundleField(b, SignalKernelDigest) == Text(b.signalKernelDigest);
    assert BundleField(b, KernelAbiVersion) == Text(b.kernelAbiVersion);
  }

  lemma StrategyInPayload(b: CandidateBundle)
    ensures forall f :: OfBundle(f) ==> f in ToDict(b)
    ensures var p := ToDict(b);
            && p[StateSerializationVersion] == Str(b.stateSerializationVersion)
            && p[AdapterCompatibilityHashes] == List(Strs(b.adapterCompatibilityHashes))
            && p[ParameterizationDigest] == Str(b.parameterizationDigest)
            && p[ProductProfileId] == Str(b.productProfileId)
            && p[ResearchSymbol] == Str(b.researchSymbol)
            && p[ExecutionSymbol] == Str(b.executionSymbol)
  {
    ToDictRecords(b);
    assert BundleField(b, StateSerializationVersion) == Text(b.stateSerializationVersion);
    assert BundleField(b, AdapterCompatibilityHashes) == Texts(b.adapterCompatibilityHashes);
    assert BundleField(b, ParameterizationDigest) == Text(b.parameterizationDigest);
    assert BundleField(b, ProductProfileId) == Text(b.productProfileId);
    assert BundleField(b, ResearchSymbol) == Text(b.researchSymbol);
    assert BundleField(b, ExecutionSymbol) == Text(b.executionSymbol);
  }

  lemma ReleasesInPayload(b: CandidateBundle)
    ensures forall f :: OfBundle(f) ==> f in ToDict(b)
    ensures var p := ToDict(b);
            && p[DatasetReleaseId] == Str(b.datasetReleaseId)
            && p[AnalyticReleaseId] == OrNull(b.analyticReleaseId)
            && p[DataProfileReleaseId] == Str(b.dataProfileReleaseId)
            && p[ResolvedContextBundleId] == Str(b.resolvedContextBundleId)
            && p[ExecutionProfileReleaseId] == Str(b.executionProfileReleaseId)
            && p[DependencyDagHash] == Str(b.dependencyDagHash)
  {
    ToDictRecords(b);
    assert BundleField(b, DatasetReleaseId) == Text(b.datasetReleaseId);
    assert BundleField(b, AnalyticReleaseId) == MaybeText(b.analyticReleaseId);
    assert BundleField(b, DataProfileReleaseId) == Text(b.dataProfileReleaseId);
    assert BundleField(b, ResolvedContextBundleId) == Text(b.resolvedContextBundleId);
    assert BundleField(b, ExecutionProfileReleaseId) == Text(b.executionProfileReleaseId);
    assert BundleField(b, DependencyDagHash) == Text(b.dependencyDagHash);
  }

  lemma EnvelopeInPayload(b: CandidateBundle)
    ensures forall f :: OfBundle(f) ==> f in ToDict(b)
    ensures var p := ToDict(b);
            && p[FeatureContractHashes] == List(Strs(b.featureContractHashes))
            && p[OperatingEnvelopeProfileId] == Str(b.operatingEnvelopeProfileId)
            && p[SessionConditionedRiskEnvelopeId] == OrNull(b.sessionConditionedRiskEnvelopeId)
            && p[StrategyHardRiskBoundsDigest] == Str(b.strategyHardRiskBoundsDigest)
            && p[EligibleAccountClassConstraints] == List(Strs(b.eligibleAccountClassConstraints))
            && p[MinimumCapitalUsd] == Int(b.minimumCapitalUsd)
  {
    ToDictRecords(b);
    assert BundleField(b, FeatureContractHashes) == Texts(b.featureContractHashes);
    assert BundleField(b, OperatingEnvelopeProfileId) == Text(b.operatingEnvelopeProfileId);
    assert BundleField(b, SessionConditionedRiskEnvelopeId) == MaybeText(b.sessionConditionedRiskEnvelopeId);
    assert BundleField(b, StrategyHardRiskBoundsDigest) == Text(b.strategyHardRiskBoundsDigest);
    assert BundleField(b, EligibleAccountClassConstraints) == Texts(b.eligibleAccountClassConstraints);
    assert BundleField(b, MinimumCapitalUsd) == Whole(b.minimumCapitalUsd);
  }

  lemma RequirementsInPayload(b: CandidateBundle)
    ensures forall f :: OfBundle(f) ==> f in ToDict(b)
    ensures var p := ToDict(b);
            && p[MinimumMarginFraction] == Float(b.minimumMarginFraction)
            && p[RequiredBrokerCapabilityProfileId] == Str(b.requiredBrokerCapabilityProfileId)
            && p[PortabilityPolicyDeclaration] == Str(b.portabilityPolicyDeclaration)
            && p[RequiredEvidenceIds] == List(Strs(b.requiredEvidenceIds))
            && p[CompatibilityMatrixVersion] == Str(b.compatibilityMatrixVersion)
            && p[SignatureIds] == List(Strs(b.signatureIds))
  {
    ToDictRecords(b);
    assert BundleField(b, MinimumMarginFraction) == Number(b.minimumMarginFraction);
    assert BundleField(b, RequiredBrokerCapabilityProfileId) == Text(b.requiredBrokerCapabilityProfileId);
    assert BundleField(b, PortabilityPolicyDeclaration) == Text(b.portabilityPolicyDeclaration);
    assert BundleField(b, RequiredEvidenceIds) == Texts(b.requiredEvidenceIds);
    assert BundleField(b, CompatibilityMatrixVersion) == Text(b.compatibilityMatrixVersion);
    assert BundleField(b, SignatureIds) == Texts(b.signatureIds);
  }

  lemma BindingsInPayload(b: CandidateBundle)
    ensures forall f :: OfBundle(f) ==> f in ToDict(b)
    ensures var p := ToDict(b);
            && p[ConcreteAccountBindingId] == OrNull(b.concreteAccountBindingId)
            && p[LiveDataEntitlementId] == OrNull(b.liveDataEntitlementId)
            && p[CurrentFeeScheduleSnapshotId] == OrNull(b.currentFeeScheduleSnapshotId)
            && p[CurrentMarginSnapshotId] == OrNull(b.currentMarginSnapshotId)
            && p[SchemaVersion] == Int(b.schemaVersion)
  {
    ToDictRecords(b);
    assert BundleField(b, ConcreteAccountBindingId) == MaybeText(b.concreteAccountBindingId);
    assert BundleField(b, LiveDataEntitlementId) == MaybeText(b.liveDataEntitlementId);
    assert BundleField(b, CurrentFeeScheduleSnapshotId) == MaybeText(b.currentFeeScheduleSnapshotId);
    assert BundleField(b, CurrentMarginSnapshotId) == MaybeText(b.currentMarginSnapshotId);
    assert BundleField(b, SchemaVersion) == Whole(b.schemaVersion);
  }

  // ---------- Serialising a registration and reading it back ----------

  /** A payload object; any other shape is outside the model. */
  function PayloadAt(p: Payload, f: Field): Outcome<Payload> {
    if f !in p then Raises(LookupFailed)
    else if p[f].Dict? then Returns(Jsonable(p[f]).entries)
    else Raises(NotModelled)
  }

  /** The creation time is normalised to UTC on reading; a missing one is replaced by the clock reading `now`. */
  function CreatedAt(p: Payload, now: string): Outcome<string> {
    match Get(p, CreatedAtUtc)
    case Null => Returns(now)
    case Str(s) => NormalizeUtcText(s)
    case _ => Raises(ValueError)
  }

  function NormalizeUtcText(s: string): Outcome<string> {
    Timestamps.Normalize(Timestamps.ExpandZulu(s))
  }

  function ReadDigestFields(p: Payload): Outcome<(string, string, string, string, string, string)> {
    var registrationLogId :- TextAt(p, RegistrationLogId);
    var candidateBundleId :- TextAt(p, CandidateBundleId);
    var contentHash :- TextAt(p, ContentHash);
    var signalKernelDigest :- TextAt(p, SignalKernelDigest);
    var parameterizationDigest :- TextAt(p, ParameterizationDigest);
    var datasetReleaseId :- TextAt(p, DatasetReleaseId);
    Returns((
      registrationLogId, candidateBundleId, contentHash, signalKernelDigest, parameterizationDigest,
      datasetReleaseId))
  }

  function ReadReferenceFields(p: Payload): Outcome<(Option<string>, string, string, string, string, seq<string>)> {
    var analyticReleaseId :- OptionalTextAt(p, AnalyticReleaseId);
    var dataProfileReleaseId :- TextAt(p, DataProfileReleaseId);
    var resolvedContextBundleId :- TextAt(p, ResolvedContextBundleId);
    var executionProfileReleaseId :- TextAt(p, ExecutionProfileReleaseId);
    var dependencyDagHash :- TextAt(p, DependencyDagHash);
    var featureContractHashes :- TextsAt(p, FeatureContractHashes);
    Returns((
      analyticReleaseId, dataProfileReleaseId, resolvedContextBundleId, executionProfileReleaseId,
      dependencyDagHash, featureContractHashes))
  }

  function ReadNoteFields(p: Payload): Outcome<(seq<string>, string, seq<string>, string, string, seq<string>)> {
    var requiredEvidenceIds :- TextsAt(p, RequiredEvidenceIds);
    var compatibilityMatrixVersion :- TextAt(p, CompatibilityMatrixVersion);
    var signatureIds :- TextsAt(p, SignatureIds);
    var registrationArtifactId :- TextAt(p, RegistrationArtifactId);
    var correlationId :- TextAt(p, CorrelationId);
    var operatorReasonBundle :- TextsAt(p, OperatorReasonBundle);
    Returns((
      requiredEvidenceIds, compatibilityMatrixVersion, signatureIds, registrationArtifactId, correlationId,
      operatorReasonBundle))
  }

  /** `created` is what reading the last field gave. */
  function ReadRegistration(p: Payload, created: Outcome<string>): Outcome<Registration> {
    var (
      registrationLogId, candidateBundleId, contentHash, signalKernelDigest, parameterizationDigest,
      datasetReleaseId) :- ReadDigestFields(p);
    var (
      analyticReleaseId, dataProfileReleaseId, resolvedContextBundleId, executionProfileReleaseId,
      dependencyDagHash, featureContractHashes) :- ReadReferenceFields(p);
    var (
      requiredEvidenceIds, compatibilityMatrixVersion, signatureIds, registrationArtifactId, correlationId,
      operatorReasonBundle) :- ReadNoteFields(p);
    var frozenBundlePayload :- PayloadAt(p, FrozenBundlePayload);
    var createdAtUtc :- created;
    Returns(Registration(
      registrationLogId, candidateBundleId, contentHash, signalKernelDigest, parameterizationDigest,
      datasetReleaseId, analyticReleaseId, dataProfileReleaseId, resolvedContextBundleId,
      executionProfileReleaseId, dependencyDagHash, featureContractHashes, requiredEvidenceIds,
      compatibilityMatrixVersion, signatureIds, registrationArtifactId, correlationId, operatorReasonBundle,
      frozenBundlePayload, createdAtUtc))
  }

  function RegistrationFromDict(p: Payload, now: string): Outcome<Registration> {
    ReadRegistration(p, CreatedAt(p, now))
  }

  ghost predicate RecordsRegistration(p: Payload, r: Registration) {
    forall f :: OfRegistration(f) ==> f in p && p[f] == JsonOf(RegistrationField(r, f))
  }

  lemma RegisteredAt(p: Payload, r: Registration, f: Field)
    requires RecordsRegistration(p, r) && OfRegistration(f)
    ensures f in p && p[f] == JsonOf(RegistrationField(r, f))
  {
  }

  lemma DigestFieldsRead(p: Payload, r: Registration)
    requires RecordsRegistration(p, r)
    ensures ReadDigestFields(p) == Returns((
          r.registrationLogId, r.candidateBundleId, r.contentHash, r.signalKernelDigest,
          r.parameterizationDigest, r.datasetReleaseId))
  {
    RegisteredAt(p, r, RegistrationLogId);
    RegisteredAt(p, r, CandidateBundleId);
    RegisteredAt(p, r, ContentHash);
    RegisteredAt(p, r, SignalKernelDigest);
    RegisteredAt(p, r, ParameterizationDigest);
    RegisteredAt(p, r, DatasetReleaseId);
  }

  lemma ReferenceFieldsRead(p: Payload, r: Registration)
    requires RecordsRegistration(p, r)
    ensures ReadReferenceFields(p) == Returns((
          r.analyticReleaseId, r.dataProfileReleaseId, r.resolvedContextBundleId, r.executionProfileReleaseId,
          r.dependencyDagHash, r.featureContractHashes))
  {
    RegisteredAt(p, r, AnalyticReleaseId);
    RegisteredAt(p, r, DataProfileReleaseId);
    RegisteredAt(p, r, ResolvedContextBundleId);
    RegisteredAt(p, r, ExecutionProfileReleaseId);
    RegisteredAt(p, r, DependencyDagHash);
    RegisteredAt(p, r, FeatureContractHashes);
    TextsOfStrs(r.featureContractHashes);
  }

  lemma TextsAtStrs(p: Payload, f: Field, ss: seq<string>)
    requires f in p && p[f] == List(Strs(ss))
    ensures TextsAt(p, f) == Returns(ss)
  {
    TextsOfStrs(ss);
  }

  /** Each field of the freeze note, as its own reader gives it. */
  predicate NoteFieldsAgree(p: Payload, r: Registration) {
    && TextsAt(p, RequiredEvidenceIds) == Returns(r.requiredEvidenceIds)
    && TextAt(p, CompatibilityMatrixVersion) == Returns(r.compatibilityMatrixVersion)
    && TextsAt(p, SignatureIds) == Returns(r.signatureIds)
    && TextAt(p, RegistrationArtifactId) == Returns(r.registrationArtifactId)
    && TextAt(p, CorrelationId) == Returns(r.correlationId)
    && TextsAt(p, OperatorReasonBundle) == Returns(r.operatorReasonBundle)
  }

  lemma NoteFieldsRecorded(p: Payload, r: Registration)
    requires RecordsRegistration(p, r)
    ensures NoteFieldsAgree(p, r)
  {
    RegisteredAt(p, r, RequiredEvidenceIds);
    RegisteredAt(p, r, CompatibilityMatrixVersion);
    RegisteredAt(p, r, SignatureIds);
    RegisteredAt(p, r, RegistrationArtifactId);
    RegisteredAt(p, r, CorrelationId);
    RegisteredAt(p, r, OperatorReasonBundle);
    TextsAtStrs(p, RequiredEvidenceIds, r.requiredEvidenceIds);
    TextsAtStrs(p, SignatureIds, r.signatureIds);
    TextsAtStrs(p, OperatorReasonBundle, r.operatorReasonBundle);
  }

  lemma NoteFieldsRead(p: Payload, r: Registration)
    requires NoteFieldsAgree(p, r)
    ensures ReadNoteFields(p) == Returns((
          r.requiredEvidenceIds, r.compatibilityMatrixVersion, r.signatureIds, r.registrationArtifactId,
          r.correlationId, r.operatorReasonBundle))
  {
  }

  lemma RegistrationToDictRecords(r: Registration)
    ensures RecordsRegistration(RegistrationToDict(r), r)
  {
    var m := map f: Field | OfRegistration(f) :: Encoded(RegistrationField(r, f));
    forall f: Field | OfRegistration(f)
      ensures f in RegistrationToDict(r) && RegistrationToDict(r)[f] == JsonOf(RegistrationField(r, f))
    {
      assert RegistrationToDict(r)[f] == Jsonable(m[f]);
      JsonOfEncoded(RegistrationField(r, f));
    }
  }

  /** The payload as JSON: its tuples are lists, its enum members texts. */
  function JsonPayload(p: Payload): Payload {
    Jsonable(Dict(p)).entries
  }

  /** What reading back changes: the spelling of the creation time, and of the payload what JSON does not keep. */
  function ReadBack(r: Registration, created: string): Registration {
    r.(createdAtUtc := created, frozenBundlePayload := JsonPayload(r.frozenBundlePayload))
  }

  lemma RegistrationReadBack(p: Payload, r: Registration, created: Outcome<string>)
    requires RecordsRegistration(p, r)
    ensures ReadRegistration(p, created) ==
            if created.Raises? then Raises(created.error) else Returns(ReadBack(r, created.value))
  {
    DigestFieldsRead(p, r);
    ReferenceFieldsRead(p, r);
    NoteFieldsRecorded(p, r);
    NoteFieldsRead(p, r);
    PayloadRead(p, r);
  }

  lemma PayloadRead(p: Payload, r: Registration)
    requires RecordsRegistration(p, r)
    ensures PayloadAt(p, FrozenBundlePayload) == Returns(JsonPayload(r.frozenBundlePayload))
  {
    RegisteredAt(p, r, FrozenBundlePayload);
    JsonableIdempotent(Dict(r.frozenBundlePayload));
  }

  lemma CreationTimeRead(p: Payload, r: Registration, now: string)
    requires RecordsRegistration(p, r)
    ensures CreatedAt(p, now) == NormalizeUtcText(r.createdAtUtc)
  {
    RegisteredAt(p, r, CreatedAtUtc);
  }

  /**
   * Serialising a registration and reading it back changes at most the spelling of its creation time and brings its
   * payload into JSON form; it fails exactly when that time does not normalise.
   */
  lemma RegistrationRoundTrip(r: Registration, now: string)
    ensures var created := NormalizeUtcText(r.createdAtUtc);
            RegistrationFromDict(RegistrationToDict(r), now) ==
            if created.Raises? then Raises(created.error) else Returns(ReadBack(r, created.value))
  {
    RegistrationToDictRecords(r);
    var p := RegistrationToDict(r);
    CreationTimeRead(p, r, now);
    RegistrationReadBack(p, r, CreatedAt(p, now));
  }

  lemma JsonPayloadUnchanged(p: Payload)
    requires IsJson(Dict(p))
    ensures JsonPayload(p) == p
  {
    JsonableFixesJson(Dict(p));
  }

  lemma ClockTimeNormalizes(u: int)
    requires Calendar.Representable(u)
    ensures NormalizeUtcText(Timestamps.CanonicalText(u)) == Returns(Timestamps.CanonicalText(u))
  {
    Timestamps.CanonicalTextHasNoZulu(u);
    Timestamps.ExpandNothing(Timestamps.CanonicalText(u));
    Timestamps.CanonicalTextRead(u);
    Timestamps.NormalizePrintsMoment(Timestamps.CanonicalText(u));
  }

  /** A registration stamped by the UTC clock survives serialisation unchanged. */
  lemma ClockStampedRegistrationRoundTrips(r: Registration, now: string, u: int)
    requires IsJson(Dict(r.frozenBundlePayload))
    requires Calendar.Representable(u) && r.createdAtUtc == Timestamps.CanonicalText(u)
    ensures RegistrationFromDict(RegistrationToDict(r), now) == Returns(r)
  {
    RegistrationRoundTrip(r, now);
    JsonPayloadUnchanged(r.frozenBundlePayload);
    ClockTimeNormalizes(u);
  }
}
