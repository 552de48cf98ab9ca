/** Freezing a candidate bundle into a registration, and loading it against that registration. */
module CandidatePackets {
  import opened Outcomes
  import opened Lists
  import opened Values
  import opened CandidateFields
  import opened Packets
  import Calendar
  import Timestamps

  // ---------- Candidate validity ----------

  datatype Reason =
    | SCHEMA_VERSION_UNSUPPORTED | MISSING_REQUIRED_FIELDS | NOT_CONTENT_ADDRESSED
    | CONCRETE_ACCOUNT_BINDING_FORBIDDEN | FRESHNESS_CONTEXT_FORBIDDEN | ACCOUNT_CONSTRAINTS_INVALID | FROZEN
    | FREEZE_LOG_INCOMPLETE | FREEZE_LOG_MISMATCH | FREEZE_REGISTERED | LOAD_INVALID | LOAD_MISMATCH
    | LOAD_MATCHES_FREEZE_LOG

  datatype Report = Report(status: Status, reason: Reason, missingFields: seq<Field>)

  /** Python truthiness of what a field holds. */
  predicate Truthy(v: FieldValue) {
    match v
    case Text(s) => s != ""
    case MaybeText(o) => o.Some? && o.value != ""
    case Texts(ss) => ss != []
    case Whole(n) => n != 0
    case Number(x) => x != 0.0
    case Nested(p) => p != map[]
  }

  /** The required fields, in order, and whether each is empty. */
  function Emptiness(b: CandidateBundle): nat -> (Field, bool) {
    (k: nat) => (RequiredAt(k), !Truthy(BundleField(b, RequiredAt(k))))
  }

  function MissingBundleFields(b: CandidateBundle): seq<Field> {
    Noted(REQUIRED_COUNT, Emptiness(b))
  }

  predicate Contains(text: string, part: string) {
    |part| <= |text| && (text[..|part|] == part || (text != "" && Contains(text[1..], part)))
  }

  predicate MentionsDigest(identifier: string, digest: string) {
    identifier != "" && digest != "" && Contains(identifier, digest)
  }

  predicate Given(o: Option<string>) {
    o.Some? && o.value != ""
  }

  function CandidateVerdict(b: CandidateBundle, missing: seq<Field>): Report {
    if b.schemaVersion != SUPPORTED_SCHEMA_VERSION then
      Report(INVALID, SCHEMA_VERSION_UNSUPPORTED, [])
    else if missing != [] then
      Report(INVALID, MISSING_REQUIRED_FIELDS, missing)
    else if !MentionsDigest(b.bundleId, b.contentHash) then
      Report(VIOLATION, NOT_CONTENT_ADDRESSED, [])
    else if Given(b.concreteAccountBindingId) then
      Report(VIOLATION, CONCRETE_ACCOUNT_BINDING_FORBIDDEN, [])
    else if Given(b.liveDataEntitlementId) || Given(b.currentFeeScheduleSnapshotId)
            || Given(b.currentMarginSnapshotId) then
      Report(VIOLATION, FRESHNESS_CONTEXT_FORBIDDEN, [])
    else if b.minimumCapitalUsd <= 0 || !(0.0 < b.minimumMarginFraction < 1.0) then
      Report(INVALID, ACCOUNT_CONSTRAINTS_INVALID, [])
    else
      Report(PASS, FROZEN, [])
  }

  function ValidateCandidateBundle(b: CandidateBundle): Report {
    CandidateVerdict(b, MissingBundleFields(b))
  }

  predicate ValidCandidate(b: CandidateBundle) {
    ValidateCandidateBundle(b).status == PASS
  }

  lemma {:induction false} ContainedOccurs(text: string, part: string) returns (before: string, after: string)
    requires Contains(text, part)
    ensures text == before + part + after
  {
    if text[..|part|] == part {
      before, after := "", text[|part|..];
    } else {
      before, after := ContainedOccurs(text[1..], part);
      before := [text[0]] + before;
    }
  }

  lemma {:induction false} OccurringContained(before: string, part: string, after: string)
    ensures Contains(before + part + after, part)
  {
    var text := before + part + after;
    if before == "" {
      assert text[..|part|] == part;
    } else {
      assert text[1..] == before[1..] + part + after;
      OccurringContained(before[1..], part, after);
    }
  }

  /** The text is the part with something before and something after it. */
  ghost predicate Occurs(part: string, text: string) {
    exists before: string, after: string :: text == before + part + after
  }

  lemma ContainsIffOccurs(text: string, part: string)
    ensures Contains(text, part) <==> Occurs(part, text)
  {
    if Contains(text, part) { var before, after := ContainedOccurs(text, part); }
    if before: string, after: string :| text == before + part + after { OccurringContained(before, part, after); }
  }

  /** A candidate is valid exactly when it is complete, content-addressed, free of live bindings and within bounds. */
  lemma CandidateValidIff(b: CandidateBundle)
    ensures ValidCandidate(b) <==> EveryFieldFilled(b) && Unbound(b) && Occurs(b.contentHash, b.bundleId)
  {
    NothingMissingIffFilled(b);
    VerdictPasses(b, MissingBundleFields(b));
    MentionsIffOccurs(b);
  }

  lemma MentionsIffOccurs(b: CandidateBundle)
    ensures MentionsDigest(b.bundleId, b.contentHash) ==> Occurs(b.contentHash, b.bundleId)
    ensures EveryFieldFilled(b) && Occurs(b.contentHash, b.bundleId) ==> MentionsDigest(b.bundleId, b.contentHash)
  {
    ContainsIffOccurs(b.bundleId, b.contentHash);
    if EveryFieldFilled(b) { FilledIsIdentified(b); }
  }

  /** No required field is empty. */
  ghost predicate EveryFieldFilled(b: CandidateBundle) {
    forall f :: Required(f) ==> OfBundle(f) && Truthy(BundleField(b, f))
  }

  /** Of the supported version, free of live bindings and within bounds. */
  predicate Unbound(b: CandidateBundle) {
    && b.schemaVersion == SUPPORTED_SCHEMA_VERSION
    && !Given(b.concreteAccountBindingId) && !Given(b.liveDataEntitlementId)
    && !Given(b.currentFeeScheduleSnapshotId) && !Given(b.currentMarginSnapshotId)
    && b.minimumCapitalUsd > 0 && 0.0 < b.minimumMarginFraction < 1.0
  }

  lemma VerdictPasses(b: CandidateBundle, missing: seq<Field>)
    ensures CandidateVerdict(b, missing).status == PASS <==>
            Unbound(b) && missing == [] && MentionsDigest(b.bundleId, b.contentHash)
  {
  }

  lemma NothingMissingIffFilled(b: CandidateBundle)
    ensures MissingBundleFields(b) == [] <==> EveryFieldFilled(b)
  {
    var missing := MissingBundleFields(b);
    forall f ensures f in missing <==> Required(f) && OfBundle(f) && !Truthy(BundleField(b, f)) {
      MissingNamesEmptyFields(b, f);
    }
    forall f | Required(f) ensures OfBundle(f) { RequiredAtPlace(f); }
    if missing != [] { assert missing[0] in missing; }
  }

  lemma MissingNamesEmptyFields(b: CandidateBundle, f: Field)
    ensures f in MissingBundleFields(b) <==> Required(f) && OfBundle(f) && !Truthy(BundleField(b, f))
  {
    NotedMembers(REQUIRED_COUNT, Emptiness(b), f);
    if k: nat :| k < REQUIRED_COUNT && Emptiness(b)(k) == (f, true) { NotedIsEmpty(b, f, k); }
    if Required(f) && OfBundle(f) && !Truthy(BundleField(b, f)) { EmptyIsNoted(b, f); }
  }

  lemma NotedIsEmpty(b: CandidateBundle, f: Field, k: nat)
    requires k < REQUIRED_COUNT && Emptiness(b)(k) == (f, true)
    ensures Required(f) && OfBundle(f) && !Truthy(BundleField(b, f))
  {
    PlaceOfRequired(k);
  }

  lemma EmptyIsNoted(b: CandidateBundle, f: Field)
    requires Required(f) && OfBundle(f) && !Truthy(BundleField(b, f))
    ensures RequiredPlace(f) < REQUIRED_COUNT && Emptiness(b)(RequiredPlace(f)) == (f, true)
  {
    RequiredAtPlace(f);
  }

  lemma FilledIsIdentified(b: CandidateBundle)
    requires EveryFieldFilled(b)
    ensures b.bundleId != "" && b.contentHash != ""
  {
    assert Required(BundleId) && Required(ContentHash);
    assert BundleField(b, BundleId) == FieldValue.Text(b.bundleId);
    assert BundleField(b, ContentHash) == FieldValue.Text(b.contentHash);
  }

  /** Every one of the twenty-six texts and lists is filled in. */
  predicate BundleFilled(b: CandidateBundle) {
    && b.bundleId != "" && b.contentHash != "" && b.strategyFamilyId != "" && b.strategySubfamilyId != ""
    && b.signalKernelDigest != "" && b.kernelAbiVersion != "" && b.stateSerializationVersion != ""
    && b.adapterCompatibilityHashes != [] && b.parameterizationDigest != "" && b.productProfileId != ""
    && b.researchSymbol != "" && b.executionSymbol != "" && b.datasetReleaseId != "" && b.dataProfileReleaseId != ""
    && b.resolvedContextBundleId != "" && b.executionProfileReleaseId != "" && b.dependencyDagHash != ""
    && b.featureContractHashes != [] && b.operatingEnvelopeProfileId != "" && b.strategyHardRiskBoundsDigest != ""
    && b.eligibleAccountClassConstraints != [] && b.requiredBrokerCapabilityProfileId != ""
    && b.portabilityPolicyDeclaration != "" && b.requiredEvidenceIds != [] && b.compatibilityMatrixVersion != ""
    && b.signatureIds != []
  }

  lemma FilledTruthy(b: CandidateBundle, f: Field)
    requires BundleFilled(b) && Required(f)
    ensures OfBundle(f) && Truthy(BundleField(b, f))
  {
  }

  lemma FilledGroup1(b: CandidateBundle)
    requires EveryFieldFilled(b)
    ensures b.bundleId != "" && b.contentHash != ""
            && b.strategyFamilyId != "" && b.strategySubfamilyId != ""
            && b.signalKernelDigest != ""
  {
    assert Required(BundleId);
    assert BundleField(b, BundleId) == FieldValue.Text(b.bundleId);
    assert Required(ContentHash);
    assert BundleField(b, ContentHash) == FieldValue.Text(b.contentHash);
    assert Required(StrategyFamilyId);
    assert BundleField(b, StrategyFamilyId) == FieldValue.Text(b.strategyFamilyId);
    assert Required(StrategySubfamilyId);
    assert BundleField(b, StrategySubfamilyId) == FieldValue.Text(b.strategySubfamilyId);
    assert Required(SignalKernelDigest);
    assert BundleField(b, SignalKernelDigest) == FieldValue.Text(b.signalKernelDigest);
  }

  lemma FilledGroup2(b: CandidateBundle)
    requires EveryFieldFilled(b)
    ensures b.kernelAbiVersion != "" && b.stateSerializationVersion != ""
            && b.adapterCompatibilityHashes != [] && b.parameterizationDigest != ""
            && b.productProfileId != ""
  {
    assert Required(KernelAbiVersion);
    assert BundleField(b, KernelAbiVersion) == FieldValue.Text(b.kernelAbiVersion);
    assert Required(StateSerializationVersion);
    assert BundleField(b, StateSerializationVersion) == FieldValue.Text(b.stateSerializationVersion);
    assert Required(AdapterCompatibilityHashes);
    assert BundleField(b, AdapterCompatibilityHashes) == FieldValue.Texts(b.adapterCompatibilityHashes);
    assert Required(ParameterizationDigest);
    assert BundleField(b, ParameterizationDigest) == FieldValue.Text(b.parameterizationDigest);
    assert Required(ProductProfileId);
    assert BundleField(b, ProductProfileId) == FieldValue.Text(b.productProfileId);
  }

  lemma FilledGroup3(b: CandidateBundle)
    requires EveryFieldFilled(b)
    ensures b.researchSymbol != "" && b.executionSymbol != ""
            && b.datasetReleaseId != "" && b.dataProfileReleaseId != ""
  {
    assert Required(ResearchSymbol);
    assert BundleField(b, ResearchSymbol) == FieldValue.Text(b.researchSymbol);
    assert Required(ExecutionSymbol);
    assert BundleField(b, ExecutionSymbol) == FieldValue.Text(b.executionSymbol);
    assert Required(DatasetReleaseId);
    assert BundleField(b, DatasetReleaseId) == FieldValue.Text(b.datasetReleaseId);
    assert Required(DataProfileReleaseId);
    assert BundleField(b, DataProfileReleaseId) == FieldValue.Text(b.dataProfileReleaseId);
  }

  lemma FilledGroup4(b: CandidateBundle)
    requires EveryFieldFilled(b)
    ensures b.resolvedContextBundleId != "" && b.executionProfileReleaseId != ""
            && b.dependencyDagHash != "" && b.featureContractHashes != []
  {
    assert Required(ResolvedContextBundleId);
    assert BundleField(b, ResolvedContextBundleId) == FieldValue.Text(b.resolvedContextBundleId);
    assert Required(ExecutionProfileReleaseId);
    assert BundleField(b, ExecutionProfileReleaseId) == FieldValue.Text(b.executionProfileReleaseId);
    assert Required(DependencyDagHash);
    assert BundleField(b, DependencyDagHash) == FieldValue.Text(b.dependencyDagHash);
    assert Required(FeatureContractHashes);
    assert BundleField(b, FeatureContractHashes) == FieldValue.Texts(b.featureContractHashes);
  }

  lemma FilledGroup5(b: CandidateBundle)
    requires EveryFieldFilled(b)
    ensures b.operatingEnvelopeProfileId != "" && b.strategyHardRiskBoundsDigest != ""
            && b.eligibleAccountClassConstraints != [] && b.requiredBrokerCapabilityProfileId != ""
  {
    assert Required(OperatingEnvelopeProfileId);
    assert BundleField(b, OperatingEnvelopeProfileId) == FieldValue.Text(b.operatingEnvelopeProfileId);
    assert Required(StrategyHardRiskBoundsDigest);
    assert BundleField(b, StrategyHardRiskBoundsDigest) == FieldValue.Text(b.strategyHardRiskBoundsDigest);
    assert Required(EligibleAccountClassConstraints);
    assert BundleField(b, EligibleAccountClassConstraints) == FieldValue.Texts(b.eligibleAccountClassConstraints);
    assert Required(RequiredBrokerCapabilityProfileId);
    assert BundleField(b, RequiredBrokerCapabilityProfileId) == FieldValue.Text(b.requiredBrokerCapabilityProfileId);
  }

  lemma FilledGroup6(b: CandidateBundle)
    requires EveryFieldFilled(b)
    ensures b.portabilityPolicyDeclaration != "" && b.requiredEvidenceIds != []
            && b.compatibilityMatrixVersion != "" && b.signatureIds != []
  {
    assert Required(PortabilityPolicyDeclaration);
    assert BundleField(b, PortabilityPolicyDeclaration) == FieldValue.Text(b.portabilityPolicyDeclaration);
    assert Required(RequiredEvidenceIds);
    assert BundleField(b, RequiredEvidenceIds) == FieldValue.Texts(b.requiredEvidenceIds);
    assert Required(CompatibilityMatrixVersion);
    assert BundleField(b, CompatibilityMatrixVersion) == FieldValue.Text(b.compatibilityMatrixVersion);
    assert Required(SignatureIds);
    assert BundleField(b, SignatureIds) == FieldValue.Texts(b.signatureIds);
  }

  lemma EveryFieldFilledIff(b: CandidateBundle)
    ensures EveryFieldFilled(b) <==> BundleFilled(b)
  {
    if BundleFilled(b) {
      forall f | Required(f) ensures OfBundle(f) && Truthy(BundleField(b, f)) { FilledTruthy(b, f); }
    }
    if EveryFieldFilled(b) {
      FilledGroup1(b);
      FilledGroup2(b);
      FilledGroup3(b);
      FilledGroup4(b);
      FilledGroup5(b);
      FilledGroup6(b);
    }
  }

  /**
   * A candidate passes exactly when it is of the supported version, has every text and list filled, contains its hash
   * in its id, carries no live binding, and asks for positive capital and a margin fraction strictly between 0 and 1.
   */
  lemma ValidCandidateWrittenOut(b: CandidateBundle)
    ensures ValidCandidate(b) <==>
            && b.schemaVersion == 1 && BundleFilled(b)
            && (exists before: string, after: string :: b.bundleId == before + b.contentHash + after)
            && (b.concreteAccountBindingId == None || b.concreteAccountBindingId == Some(""))
            && (b.liveDataEntitlementId == None || b.liveDataEntitlementId == Some(""))
            && (b.currentFeeScheduleSnapshotId == None || b.currentFeeScheduleSnapshotId == Some(""))
            && (b.currentMarginSnapshotId == None || b.currentMarginSnapshotId == Some(""))
            && b.minimumCapitalUsd > 0 && 0.0 < b.minimumMarginFraction < 1.0
  {
    CandidateValidIff(b);
    EveryFieldFilledIff(b);
  }

  /** Why a candidate is refused: the first of these, in this order, that does not hold. */
  lemma RefusalReasons(b: CandidateBundle)
    ensures var r, supported := ValidateCandidateBundle(b), b.schemaVersion == SUPPORTED_SCHEMA_VERSION;
            var addressed := Occurs(b.contentHash, b.bundleId);
            var live := Given(b.liveDataEntitlementId) || Given(b.currentFeeScheduleSnapshotId)
                        || Given(b.currentMarginSnapshotId);
            var filled, account := BundleFilled(b), Given(b.concreteAccountBindingId);
            && (r.reason == SCHEMA_VERSION_UNSUPPORTED <==> !supported)
            && (r.reason == MISSING_REQUIRED_FIELDS <==> supported && !filled)
            && (r.reason == NOT_CONTENT_ADDRESSED <==> supported && filled && !addressed)
            && (r.reason == CONCRETE_ACCOUNT_BINDING_FORBIDDEN <==> supported && filled && addressed && account)
            && (r.reason == FRESHNESS_CONTEXT_FORBIDDEN <==>
                 supported && filled && addressed && !account && live)
            && (r.reason == ACCOUNT_CONSTRAINTS_INVALID <==>
                 supported && filled && addressed && !account && !live && !ValidCandidate(b))
            && (r.status == VIOLATION <==> supported && filled && (!addressed || account || live))
  {
    NothingMissingIffFilled(b);
    EveryFieldFilledIff(b);
    MentionsIffOccurs(b);
    RefusalOnParts(b, MissingBundleFields(b));
  }

  lemma RefusalOnParts(b: CandidateBundle, missing: seq<Field>)
    ensures var r, supported := CandidateVerdict(b, missing), b.schemaVersion == SUPPORTED_SCHEMA_VERSION;
            var filled, addressed := missing == [], MentionsDigest(b.bundleId, b.contentHash);
            var live := Given(b.liveDataEntitlementId) || Given(b.currentFeeScheduleSnapshotId)
                        || Given(b.currentMarginSnapshotId);
            var account := Given(b.concreteAccountBindingId);
            && (r.reason == SCHEMA_VERSION_UNSUPPORTED <==> !supported)
            && (r.reason == MISSING_REQUIRED_FIELDS <==> supported && !filled)
            && (r.reason == NOT_CONTENT_ADDRESSED <==> supported && filled && !addressed)
            && (r.reason == CONCRETE_ACCOUNT_BINDING_FORBIDDEN <==> supported && filled && addressed && account)
            && (r.reason == FRESHNESS_CONTEXT_FORBIDDEN <==>
                 supported && filled && addressed && !account && live)
            && (r.reason == ACCOUNT_CONSTRAINTS_INVALID <==>
                 supported && filled && addressed && !account && !live && r.status != PASS)
            && (r.status == VIOLATION <==> supported && filled && (!addressed || account || live))
            && (r.reason == MISSING_REQUIRED_FIELDS ==> r.missingFields == missing)
  {
  }

  // ---------- Freeze registrations ----------

  datatype FreezeNote = FreezeNote(logId: string, artifactId: string, correlationId: string, reasons: seq<string>)

  /** `now` is the clock reading used for the creation time. */
  function BuildRegistration(b: CandidateBundle, note: FreezeNote, now: string): Registration {
    Registration(
      note.logId, b.bundleId, b.contentHash, b.signalKernelDigest, b.parameterizationDigest,
      b.datasetReleaseId, b.analyticReleaseId, b.dataProfileReleaseId, b.resolvedContextBundleId,
      b.executionProfileReleaseId, b.dependencyDagHash, b.featureContractHashes, b.requiredEvidenceIds,
      b.compatibilityMatrixVersion, b.signatureIds, note.artifactId, note.correlationId, note.reasons,
      ToDict(b), now)
  }

  /** A registration field fails to mirror the bundle: the field of the same name, the bundle id, or the payload. */
  predicate Differs(b: CandidateBundle, r: Registration, f: Field) {
    if f == CandidateBundleId then r.candidateBundleId != b.bundleId
    else if f == FrozenBundlePayload then !Freezes(r.frozenBundlePayload, b)
    else OfBundle(f) && OfRegistration(f) && RegistrationField(r, f) != BundleField(b, f)
  }

  const COMPARISONS := 15

  /** The comparisons, in order: the name to report, and whether to report it. */
  function Comparison(b: CandidateBundle, r: Registration, k: nat): (Field, bool) {
    match k
    case 0 => (CandidateBundleId, r.candidateBundleId != b.bundleId)
    case 1 => (ContentHash, r.contentHash != b.contentHash)
    case 2 => (SignalKernelDigest, r.signalKernelDigest != b.signalKernelDigest)
    case 3 => (ParameterizationDigest, r.parameterizationDigest != b.parameterizationDigest)
    case 4 => (DatasetReleaseId, r.datasetReleaseId != b.datasetReleaseId)
    case 5 => (AnalyticReleaseId, r.analyticReleaseId != b.analyticReleaseId)
    case 6 => (DataProfileReleaseId, r.dataProfileReleaseId != b.dataProfileReleaseId)
    case 7 => (ResolvedContextBundleId, r.resolvedContextBundleId != b.resolvedContextBundleId)
    case 8 => (ExecutionProfileReleaseId, r.executionProfileReleaseId != b.executionProfileReleaseId)
    case 9 => (DependencyDagHash, r.dependencyDagHash != b.dependencyDagHash)
    case 10 => (FeatureContractHashes, r.featureContractHashes != b.featureContractHashes)
    case 11 => (RequiredEvidenceIds, r.requiredEvidenceIds != b.requiredEvidenceIds)
    case 12 => (CompatibilityMatrixVersion, r.compatibilityMatrixVersion != b.compatibilityMatrixVersion)
    case 13 => (SignatureIds, r.signatureIds != b.signatureIds)
    case _ => (FrozenBundlePayload, !Freezes(r.frozenBundlePayload, b))
  }

  function Comparisons(b: CandidateBundle, r: Registration): nat -> (Field, bool) {
    (k: nat) => Comparison(b, r, k)
  }

  /** What the first `n` comparisons report. */
  function Differing(b: CandidateBundle, r: Registration, n: nat): seq<Field> {
    Noted(n, Comparisons(b, r))
  }

  /** The names reported when a registration does not mirror a bundle. */
  function Mismatches(b: CandidateBundle, r: Registration): seq<Field> {
    Differing(b, r, COMPARISONS)
  }

  lemma ComparesDigestsByName(b: CandidateBundle, r: Registration, k: nat)
    requires k < 5
    ensures Comparison(b, r, k).1 <==> Differs(b, r, Comparison(b, r, k).0)
  {
  }

  lemma ComparesReleasesByName(b: CandidateBundle, r: Registration, k: nat)
    requires 5 <= k < 10
    ensures Comparison(b, r, k).1 <==> Differs(b, r, Comparison(b, r, k).0)
  {
  }

  lemma ComparesEvidenceByName(b: CandidateBundle, r: Registration, k: nat)
    requires 10 <= k < 14
    ensures Comparison(b, r, k).1 <==> Differs(b, r, Comparison(b, r, k).0)
  {
  }

  lemma ComparesPayload(b: CandidateBundle, r: Registration)
    ensures Comparison(b, r, 14).1 <==> Differs(b, r, FrozenBundlePayload)
    ensures Comparison(b, r, 14).0 == FrozenBundlePayload
  {
  }

  lemma ComparesByName(b: CandidateBundle, r: Registration, k: nat)
    requires k < COMPARISONS
    ensures Comparison(b, r, k).1 <==> Differs(b, r, Comparison(b, r, k).0)
  {
    if k < 5 {
      ComparesDigestsByName(b, r, k);
    } else if k < 10 {
      ComparesReleasesByName(b, r, k);
    } else if k < 14 {
      ComparesEvidenceByName(b, r, k);
    } else {
      ComparesPayload(b, r);
    }
  }

  /** No shared field is forgotten. */
  lemma EverySharedFieldIsCompared(b: CandidateBundle, r: Registration, f: Field) returns (k: int)
    requires f == CandidateBundleId || f == FrozenBundlePayload || (OfBundle(f) && OfRegistration(f))
    ensures 0 <= k < COMPARISONS && Comparison(b, r, k).0 == f
  {
    k := match f
      case CandidateBundleId => 0
      case ContentHash => 1
      case SignalKernelDigest => 2
      case ParameterizationDigest => 3
      case DatasetReleaseId => 4
      case AnalyticReleaseId => 5
      case DataProfileReleaseId => 6
      case ResolvedContextBundleId => 7
      case ExecutionProfileReleaseId => 8
      case DependencyDagHash => 9
      case FeatureContractHashes => 10
      case RequiredEvidenceIds => 11
      case CompatibilityMatrixVersion => 12
      case SignatureIds => 13
      case _ => 14;
  }

  /** The reported names are exactly the fields that differ. */
  lemma MismatchesNameDifferences(b: CandidateBundle, r: Registration, f: Field)
    ensures f in Mismatches(b, r) <==> Differs(b, r, f)
  {
    NotedMembers(COMPARISONS, Comparisons(b, r), f);
    forall k: nat | k < COMPARISONS ensures Comparison(b, r, k).1 <==> Differs(b, r, Comparison(b, r, k).0) {
      ComparesByName(b, r, k);
    }
    if Differs(b, r, f) {
      var k := EverySharedFieldIsCompared(b, r, f);
      assert Comparisons(b, r)(k) == (f, true);
    }
  }

  /** The comparisons append, in order, exactly the fields that differ. */
  method CandidateFreezeMismatches(b: CandidateBundle, r: Registration) returns (mismatches: seq<Field>)
    ensures mismatches == Mismatches(b, r)
    ensures forall f :: f in mismatches <==> Differs(b, r, f)
  {
    mismatches := DigestMismatches(b, r);
    mismatches := ReleaseMismatches(b, r, mismatches);
    mismatches := EvidenceMismatches(b, r, mismatches);
    if !Freezes(r.frozenBundlePayload, b) { mismatches := mismatches + [FrozenBundlePayload]; }
    assert mismatches == Differing(b, r, COMPARISONS);
    forall f ensures f in mismatches <==> Differs(b, r, f) { MismatchesNameDifferences(b, r, f); }
  }

  method DigestMismatches(b: CandidateBundle, r: Registration) returns (m: seq<Field>)
    ensures m == Differing(b, r, 5)
  {
    m := [];
    if r.candidateBundleId != b.bundleId { m := m + [CandidateBundleId]; }
    assert m == Differing(b, r, 1);
    if r.contentHash != b.contentHash { m := m + [ContentHash]; }
    assert m == Differing(b, r, 2);
    if r.signalKernelDigest != b.signalKernelDigest { m := m + [SignalKernelDigest]; }
    assert m == Differing(b, r, 3);
    if r.parameterizationDigest != b.parameterizationDigest { m := m + [ParameterizationDigest]; }
    assert m == Differing(b, r, 4);
    if r.datasetReleaseId != b.datasetReleaseId { m := m + [DatasetReleaseId]; }
  }

  method ReleaseMismatches(b: CandidateBundle, r: Registration, before: seq<Field>) returns (m: seq<Field>)
    requires before == Differing(b, r, 5)
    ensures m == Differing(b, r, 10)
  {
    m := before;
    if r.analyticReleaseId != b.analyticReleaseId { m := m + [AnalyticReleaseId]; }
    assert m == Differing(b, r, 6);
    if r.dataProfileReleaseId != b.dataProfileReleaseId { m := m + [DataProfileReleaseId]; }
    assert m == Differing(b, r, 7);
    if r.resolvedContextBundleId != b.resolvedContextBundleId { m := m + [ResolvedContextBundleId]; }
    assert m == Differing(b, r, 8);
    if r.executionProfileReleaseId != b.executionProfileReleaseId { m := m + [ExecutionProfileReleaseId]; }
    assert m == Differing(b, r, 9);
    if r.dependencyDagHash != b.dependencyDagHash { m := m + [DependencyDagHash]; }
  }

  method EvidenceMismatches(b: CandidateBundle, r: Registration, before: seq<Field>) returns (m: seq<Field>)
    requires before == Differing(b, r, 10)
    ensures m == Differing(b, r, 14)
  {
    m := before;
    if r.featureContractHashes != b.featureContractHashes { m := m + [FeatureContractHashes]; }
    assert m == Differing(b, r, 11);
    if r.requiredEvidenceIds != b.requiredEvidenceIds { m := m + [RequiredEvidenceIds]; }
    assert m == Differing(b, r, 12);
    if r.compatibilityMatrixVersion != b.compatibilityMatrixVersion { m := m + [CompatibilityMatrixVersion]; }
    assert m == Differing(b, r, 13);
    if r.signatureIds != b.signatureIds { m := m + [SignatureIds]; }
  }

  // ---------- Validating a registration and loading against it ----------

  function MissingRegistrationFields(r: Registration): seq<Field> {
    var m := Note([], r.registrationLogId == "", RegistrationLogId);
    var m := Note(m, r.registrationArtifactId == "", RegistrationArtifactId);
    var m := Note(m, r.correlationId == "", CorrelationId);
    var m := Note(m, r.operatorReasonBundle == [], OperatorReasonBundle);
    Note(m, r.frozenBundlePayload == map[], FrozenBundlePayload)
  }

  function FreezeReport(b: CandidateBundle, r: Registration, mismatches: seq<Field>): Report {
    if !ValidCandidate(b) then ValidateCandidateBundle(b)
    else if MissingRegistrationFields(r) != [] then
      Report(INVALID, FREEZE_LOG_INCOMPLETE, MissingRegistrationFields(r))
    else if mismatches != [] then
      Report(VIOLATION, FREEZE_LOG_MISMATCH, mismatches)
    else
      Report(PASS, FREEZE_REGISTERED, [])
  }

  function LoadReport(b: CandidateBundle, r: Registration): Report {
    var freeze := FreezeReport(b, r, Mismatches(b, r));
    if freeze.status == INVALID then Report(INVALID, LOAD_INVALID, freeze.missingFields)
    else if freeze.status == VIOLATION then Report(VIOLATION, LOAD_MISMATCH, freeze.missingFields)
    else Report(PASS, LOAD_MATCHES_FREEZE_LOG, [])
  }

  method ValidateCandidateBundleLoad(b: CandidateBundle, r: Registration) returns (report: Report)
    ensures report == LoadReport(b, r)
    ensures report.status == PASS <==>
              ValidCandidate(b) && Complete(r) && Mirrors(r, b)
  {
    var mismatches := CandidateFreezeMismatches(b, r);
    var freeze := FreezeReport(b, r, mismatches);
    if freeze.status != PASS {
      var status := if freeze.status == INVALID then INVALID else VIOLATION;
      var reason := if status == INVALID then LOAD_INVALID else LOAD_MISMATCH;
      report := Report(status, reason, freeze.missingFields);
    } else {
      report := Report(PASS, LOAD_MATCHES_FREEZE_LOG, []);
    }
    LoadPassesIffMirrored(b, r);
  }

  predicate Loads(b: CandidateBundle, r: Registration) {
    LoadReport(b, r).status == PASS
  }

  /** The log, artifact, correlation, reason and payload entries a registration may not leave empty. */
  predicate Complete(r: Registration) {
    r.registrationLogId != "" && r.registrationArtifactId != "" && r.correlationId != ""
    && r.operatorReasonBundle != [] && r.frozenBundlePayload != map[]
  }

  /** Nothing in the registration differs from the bundle. */
  ghost predicate Mirrors(r: Registration, b: CandidateBundle) {
    forall f :: !Differs(b, r, f)
  }

  lemma NothingMissingIffComplete(r: Registration)
    ensures Complete(r) <==> MissingRegistrationFields(r) == []
  {
  }

  lemma NoMismatchIffMirrored(b: CandidateBundle, r: Registration)
    ensures Mismatches(b, r) == [] <==> Mirrors(r, b)
  {
    var m := Mismatches(b, r);
    if m != [] {
      assert m[0] in m;
      MismatchesNameDifferences(b, r, m[0]);
    } else {
      forall f ensures !Differs(b, r, f) { MismatchesNameDifferences(b, r, f); }
    }
  }

  lemma LoadPassesIffMirrored(b: CandidateBundle, r: Registration)
    ensures Loads(b, r) <==> ValidCandidate(b) && Complete(r) && Mirrors(r, b)
  {
    NothingMissingIffComplete(r);
    NoMismatchIffMirrored(b, r);
  }

  /** The entries a registration may not leave empty. */
  const REQUIRED_ENTRIES: set<Field> :=
    {RegistrationLogId, RegistrationArtifactId, CorrelationId, OperatorReasonBundle, FrozenBundlePayload}

  lemma MissingNamesEmptyEntries(r: Registration, f: Field)
    ensures f in MissingRegistrationFields(r) <==>
            f in REQUIRED_ENTRIES && OfRegistration(f) && !Truthy(RegistrationField(r, f))
  {
  }

  /** The note's entries each go to their own field of the registration. */
  lemma BuiltNote(b: CandidateBundle, note: FreezeNote, now: string)
    ensures var r := BuildRegistration(b, note, now);
            && r.registrationLogId == note.logId && r.registrationArtifactId == note.artifactId
            && r.correlationId == note.correlationId && r.operatorReasonBundle == note.reasons
            && r.createdAtUtc == now && r.candidateBundleId == b.bundleId && r.frozenBundlePayload == ToDict(b)
  {
  }

  /** Which entries of a registration are reported as missing. */
  lemma MissingEntriesWrittenOut(r: Registration)
    ensures var m := MissingRegistrationFields(r);
            && (RegistrationLogId in m <==> r.registrationLogId == "")
            && (RegistrationArtifactId in m <==> r.registrationArtifactId == "")
            && (CorrelationId in m <==> r.correlationId == "")
            && (OperatorReasonBundle in m <==> r.operatorReasonBundle == [])
            && (FrozenBundlePayload in m <==> r.frozenBundlePayload == map[])
  {
  }

  /** Why a valid bundle is refused: the registration's empty entries by name, or else exactly what differs. */
  lemma RefusedLoadNamesTheCause(b: CandidateBundle, r: Registration, f: Field)
    requires ValidCandidate(b)
    ensures var report := LoadReport(b, r);
            && (report.status == INVALID <==> !Complete(r))
            && (!Complete(r) ==>
                 (f in report.missingFields <==>
                   f in REQUIRED_ENTRIES && OfRegistration(f) && !Truthy(RegistrationField(r, f))))
            && (Complete(r) ==> (report.status == VIOLATION <==> !Mirrors(r, b)))
            && (Complete(r) ==> (f in report.missingFields <==> Differs(b, r, f)))
  {
    NothingMissingIffComplete(r);
    NoMismatchIffMirrored(b, r);
    MissingNamesEmptyEntries(r, f);
    MismatchesNameDifferences(b, r, f);
    ReportOfValid(b, r, Mismatches(b, r));
  }

  lemma ReportOfValid(b: CandidateBundle, r: Registration, mismatches: seq<Field>)
    requires ValidCandidate(b)
    ensures var report := FreezeReport(b, r, mismatches);
            var missing := MissingRegistrationFields(r);
            && (report.status == INVALID <==> missing != [])
            && (report.status == VIOLATION <==> missing == [] && mismatches != [])
            && report.missingFields == if missing != [] then missing else mismatches
  {
  }

  lemma PayloadNotEmpty(b: CandidateBundle)
    ensures ToDict(b) != map[]
  {
    ToDictRecords(b);
    RecordedAt(ToDict(b), b, BundleId);
  }

  predicate Filled(note: FreezeNote) {
    note.logId != "" && note.artifactId != "" && note.correlationId != "" && note.reasons != []
  }

  lemma BuiltMirrorsOnlyItsBundle(frozen: CandidateBundle, loaded: CandidateBundle, note: FreezeNote, now: string)
    ensures Mirrors(BuildRegistration(frozen, note, now), loaded) <==> loaded == frozen
  {
    var r := BuildRegistration(frozen, note, now);
    FreezesOnlyItsBundle(frozen, loaded);
    if loaded == frozen {
      forall f ensures !Differs(frozen, r, f) { }
    } else {
      assert Differs(loaded, r, FrozenBundlePayload);
    }
  }

  lemma BuiltComplete(b: CandidateBundle, note: FreezeNote, now: string)
    ensures Complete(BuildRegistration(b, note, now)) <==> Filled(note)
  {
    PayloadNotEmpty(b);
  }

  /** A load accepts exactly the bundle that was frozen: valid, and equal to it in every field. */
  lemma LoadAcceptsExactlyTheFrozenBundle(
      frozen: CandidateBundle, loaded: CandidateBundle, note: FreezeNote, now: string)
    ensures Loads(loaded, BuildRegistration(frozen, note, now)) <==>
            Filled(note) && ValidCandidate(loaded) && loaded == frozen
  {
    LoadPassesIffMirrored(loaded, BuildRegistration(frozen, note, now));
    BuiltMirrorsOnlyItsBundle(frozen, loaded, note, now);
    BuiltComplete(frozen, note, now);
  }

  /**
   * Freezing a bundle and loading what its own payload reads back as passes exactly when the bundle is valid,
   * the note is filled in, and the risk-envelope id is not the empty text.
   */
  lemma FrozenPayloadReloads(b: CandidateBundle, note: FreezeNote, now: string)
    ensures var r := BuildRegistration(b, note, now);
            var back := BundleFromDict(r.frozenBundlePayload);
            back.Returns? &&
            (Loads(back.value, r) <==>
              Filled(note) && ValidCandidate(b) && b.sessionConditionedRiskEnvelopeId != Some(""))
  {
    BundleRoundTrip(b);
    var back := BundleFromDict(ToDict(b));
    LoadAcceptsExactlyTheFrozenBundle(b, back.value, note, now);
  }

  /** A bundle that was itself read from a dictionary comes back from its frozen payload unchanged, and so reloads. */
  lemma ReadBundleReloads(p: Payload, note: FreezeNote, now: string)
    requires BundleFromDict(p).Returns?
    ensures var b := BundleFromDict(p).value;
            var r := BuildRegistration(b, note, now);
            BundleFromDict(r.frozenBundlePayload) == Returns(b) && (Loads(b, r) <==> Filled(note) && ValidCandidate(b))
  {
    var b := BundleFromDict(p).value;
    ReadEnvelopeNotEmpty(p);
    BundleRoundTrip(b);
    LoadAcceptsExactlyTheFrozenBundle(b, b, note, now);
  }

  function SmallBundle(envelope: Option<string>): CandidateBundle {
    CandidateBundle("h", "h", "h", "h", "h", "h", "h", ["h"], "h", "h", "h", "h", "h", None, "h", "h", "h", "h", ["h"],
      "h", envelope, "h", ["h"], 1, 0.5, "h", "h", ["h"], "h", ["h"], None, None, None, None, SUPPORTED_SCHEMA_VERSION)
  }

  lemma SmallBundleEveryFieldFilled(envelope: Option<string>)
    ensures EveryFieldFilled(SmallBundle(envelope))
  {
    forall f | Required(f) ensures OfBundle(f) && Truthy(BundleField(SmallBundle(envelope), f)) { }
  }

  lemma SmallBundleOccurs(envelope: Option<string>)
    ensures Unbound(SmallBundle(envelope))
    ensures Occurs(SmallBundle(envelope).contentHash, SmallBundle(envelope).bundleId)
  {
    assert "h" == "" + "h" + "";
  }

  lemma SmallBundleValid(envelope: Option<string>)
    ensures ValidCandidate(SmallBundle(envelope))
  {
    SmallBundleEveryFieldFilled(envelope);
    SmallBundleOccurs(envelope);
    CandidateValidIff(SmallBundle(envelope));
  }

  /** A valid bundle, built with an empty risk-envelope id, that loads as it is but not from its own frozen payload. */
  lemma EmptyEnvelopeDoesNotReload(now: string) returns (b: CandidateBundle, note: FreezeNote)
    ensures var r := BuildRegistration(b, note, now);
            var back := BundleFromDict(r.frozenBundlePayload);
            ValidCandidate(b) && Loads(b, r) && back.Returns? && !Loads(back.value, r)
  {
    b, note := SmallBundle(Some("")), FreezeNote("n", "n", "n", ["n"]);
    SmallBundleValid(Some(""));
    FrozenPayloadReloads(b, note, now);
    LoadAcceptsExactlyTheFrozenBundle(b, b, note, now);
  }

  /** A registration says the same of every field but its creation time and its payload after reading it back. */
  lemma OtherFieldsReadBack(b: CandidateBundle, r: Registration, created: string, f: Field)
    requires f != FrozenBundlePayload
    ensures Differs(b, ReadBack(r, created), f) == Differs(b, r, f)
  {
    if OfRegistration(f) && OfBundle(f) {
      assert RegistrationField(ReadBack(r, created), f) == RegistrationField(r, f);
    }
  }

  lemma MirroringReadBack(b: CandidateBundle, r: Registration, created: string)
    ensures Mirrors(r, b) <==> Mirrors(ReadBack(r, created), b) && TupleFree(Dict(r.frozenBundlePayload))
  {
    var r' := ReadBack(r, created);
    FreezesIff(r.frozenBundlePayload, b);
    forall f | f != FrozenBundlePayload ensures Differs(b, r', f) == Differs(b, r, f) {
      OtherFieldsReadBack(b, r, created, f);
    }
    assert Differs(b, r, FrozenBundlePayload) <==>
           Differs(b, r', FrozenBundlePayload) || !TupleFree(Dict(r.frozenBundlePayload));
    if !Mirrors(r', b) {
      var f :| Differs(b, r', f);
      assert Differs(b, r, f);
    }
    if !Mirrors(r, b) {
      var f :| Differs(b, r, f);
      assert f != FrozenBundlePayload ==> Differs(b, r', f);
    }
  }

  /**
   * Against the registration as it is, exactly those bundles load that load against it after serialising and reading
   * back, provided its payload holds no tuple; with a tuple in the payload, none loads before.
   */
  lemma ReadBackVerdict(b: CandidateBundle, r: Registration, now: string)
    requires NormalizeUtcText(r.createdAtUtc).Returns?
    ensures var back := RegistrationFromDict(RegistrationToDict(r), now);
            back.Returns? && (Loads(b, r) <==> Loads(b, back.value) && TupleFree(Dict(r.frozenBundlePayload)))
  {
    var created := NormalizeUtcText(r.createdAtUtc).value;
    var r' := ReadBack(r, created);
    RegistrationRoundTrip(r, now);
    LoadPassesIffMirrored(b, r);
    LoadPassesIffMirrored(b, r');
    MirroringReadBack(b, r, created);
    assert r'.frozenBundlePayload == map[] <==> r.frozenBundlePayload == map[] by {
      assert r'.frozenBundlePayload.Keys == r.frozenBundlePayload.Keys;
    }
  }

  lemma BuiltTupleFree(b: CandidateBundle, note: FreezeNote, now: string)
    ensures TupleFree(Dict(BuildRegistration(b, note, now).frozenBundlePayload))
  {
    JsonableIsJson(Dict(AsDict(b)));
    JsonIsTupleFree(Dict(ToDict(b)));
  }

  /** End to end: freeze, serialise, read back, load. Exactly the frozen bundle is accepted. */
  lemma ReloadedRegistrationAcceptsExactlyTheFrozenBundle(
      frozen: CandidateBundle, loaded: CandidateBundle, note: FreezeNote, created: string, now: string)
    requires NormalizeUtcText(created).Returns?
    ensures var back := RegistrationFromDict(RegistrationToDict(BuildRegistration(frozen, note, created)), now);
            back.Returns? &&
            (Loads(loaded, back.value) <==> Filled(note) && ValidCandidate(loaded) && loaded == frozen)
  {
    var r := BuildRegistration(frozen, note, created);
    ReadBackVerdict(loaded, r, now);
    BuiltTupleFree(frozen, note, created);
    LoadAcceptsExactlyTheFrozenBundle(frozen, loaded, note, created);
  }

  /** A registration whose payload was built with tuples: no bundle loads against it until it is read back. */
  lemma TuplePayloadLoadsOnlyReadBack(now: string) returns (b: CandidateBundle, r: Registration)
    ensures var back := RegistrationFromDict(RegistrationToDict(r), now);
            back.Returns? && !Loads(b, r) && Loads(b, back.value)
  {
    var note, time := FreezeNote("n", "n", "n", ["n"]), Timestamps.CanonicalText(Calendar.FIRST_MICRO);
    b := SmallBundle(None);
    r := BuildRegistration(b, note, time).(frozenBundlePayload := AsDict(b));
    ClockTimeNormalizes(Calendar.FIRST_MICRO);
    assert ReadBack(r, time) == BuildRegistration(b, note, time);
    SmallBundleValid(None);
    LoadAcceptsExactlyTheFrozenBundle(b, b, note, time);
    RegistrationRoundTrip(r, now);
    ReadBackVerdict(b, r, now);
    FieldsHoldTuples(b);
  }

  lemma FieldsHoldTuples(b: CandidateBundle)
    ensures !TupleFree(Dict(AsDict(b)))
  {
    assert AsDict(b)[SignatureIds] == Tuple(Strs(b.signatureIds));
  }
}
