/** Session-readiness packets and the per-session tradeability gate, whose windows are compared as texts. */
module Sessions {
  import opened Outcomes
  import opened Lists
  import opened Timestamps
  import opened Packets
  import Text

  datatype SessionStatus = GREEN | BLOCKED | SUSPECT

  datatype DiscrepancyStatus = CLEAR | BLOCKING

  datatype SessionPacket = SessionPacket(
    packetId: string, deploymentInstanceId: string, sessionId: string, validFromUtc: string, validToUtc: string,
    sourcePromotionPacketId: string, feeCheckId: string, marginCheckId: string, entitlementCheckId: string,
    contractConformanceCheckId: string, backupFreshnessCheckId: string, restoreDrillCheckId: string,
    clockHealthCheckId: string, secretHealthCheckId: string, discrepancyStatus: DiscrepancyStatus,
    operatingEnvelopeCheckId: string, sessionEligibilityCheckId: string, sessionStatus: SessionStatus,
    blockedCheckIds: seq<string>, decisionTraceHash: string, schemaVersion: int)

  datatype TradeabilityRequest = TradeabilityRequest(
    gateId: string, packet: SessionPacket, activeDeploymentInstanceId: string, activePromotionPacketId: string,
    currentSessionId: string, evaluatedAtUtc: string, staleCheckIds: seq<string>, failedCheckIds: seq<string>,
    correlationId: string, operatorReasonBundle: seq<string>, signedGateHash: string, schemaVersion: int)

  datatype Reason =
    | PACKET_SCHEMA_VERSION_UNSUPPORTED | PACKET_MISSING_REQUIRED_FIELDS | PACKET_INVALID_VALIDITY_WINDOW
    | PACKET_VALIDITY_WINDOW_INVERTED | PACKET_GREEN_REQUIRES_CLEAR_DISCREPANCIES
    | PACKET_GREEN_REQUIRES_ALL_CHECKS_PASSING | PACKET_VALID
    | TRADEABILITY_SESSION_PACKET_INVALID | TRADEABILITY_SCHEMA_VERSION_UNSUPPORTED
    | TRADEABILITY_MISSING_REQUIRED_FIELDS | TRADEABILITY_INVALID_EVALUATION_TIME | TRADEABILITY_BINDING_MISMATCH
    | TRADEABILITY_OUTSIDE_VALIDITY_WINDOW | TRADEABILITY_REQUIRES_GREEN_PACKET
    | TRADEABILITY_FRESHNESS_CHECK_FAILED | TRADEABILITY_INFRASTRUCTURE_CHECK_FAILED
    | TRADEABILITY_GREEN_FOR_NEW_ENTRIES

  datatype Report = Report(status: Status, reason: Reason, missingFields: seq<Entry>)

  /** What the list of missing fields may hold: besides field names, the ids of checks and the packet's status. */
  datatype Entry = Field(name: FieldName) | CheckId(id: string) | PacketStatus(status: SessionStatus)

  type Answered = Outcome<Report>

  function Says(status: Status, reason: Reason): Answered {
    Returns(Report(status, reason, []))
  }

  predicate Passing(a: Answered) {
    a.Returns? && a.value.status == PASS
  }

  /** The fields that may be reported, by name. */
  datatype FieldName =
    | SESSION_READINESS_PACKET_ID | DEPLOYMENT_INSTANCE_ID | SESSION_ID | VALID_FROM_UTC | VALID_TO_UTC
    | SOURCE_PROMOTION_PACKET_ID | FEE_CHECK_ID | MARGIN_CHECK_ID | ENTITLEMENT_CHECK_ID
    | CONTRACT_CONFORMANCE_CHECK_ID | BACKUP_FRESHNESS_CHECK_ID | RESTORE_DRILL_CHECK_ID | CLOCK_HEALTH_CHECK_ID
    | SECRET_HEALTH_CHECK_ID | OPERATING_ENVELOPE_CHECK_ID | SESSION_ELIGIBILITY_CHECK_ID | DECISION_TRACE_HASH
    | TRADEABILITY_GATE_ID | ACTIVE_DEPLOYMENT_INSTANCE_ID | ACTIVE_PROMOTION_PACKET_ID | CURRENT_SESSION_ID
    | EVALUATED_AT_UTC | CORRELATION_ID | OPERATOR_REASON_BUNDLE | SIGNED_GATE_HASH

  const PACKET_FIELDS := 17

  /** The required fields, in order, and whether each is empty. */
  function PacketField(p: SessionPacket, k: nat): (Entry, bool) {
    match k
    case 0 => (Field(SESSION_READINESS_PACKET_ID), p.packetId == "")
    case 1 => (Field(DEPLOYMENT_INSTANCE_ID), p.deploymentInstanceId == "")
    case 2 => (Field(SESSION_ID), p.sessionId == "")
    case 3 => (Field(VALID_FROM_UTC), p.validFromUtc == "")
    case 4 => (Field(VALID_TO_UTC), p.validToUtc == "")
    case 5 => (Field(SOURCE_PROMOTION_PACKET_ID), p.sourcePromotionPacketId == "")
    case 6 => (Field(FEE_CHECK_ID), p.feeCheckId == "")
    case 7 => (Field(MARGIN_CHECK_ID), p.marginCheckId == "")
    case 8 => (Field(ENTITLEMENT_CHECK_ID), p.entitlementCheckId == "")
    case 9 => (Field(CONTRACT_CONFORMANCE_CHECK_ID), p.contractConformanceCheckId == "")
    case 10 => (Field(BACKUP_FRESHNESS_CHECK_ID), p.backupFreshnessCheckId == "")
    case 11 => (Field(RESTORE_DRILL_CHECK_ID), p.restoreDrillCheckId == "")
    case 12 => (Field(CLOCK_HEALTH_CHECK_ID), p.clockHealthCheckId == "")
    case 13 => (Field(SECRET_HEALTH_CHECK_ID), p.secretHealthCheckId == "")
    case 14 => (Field(OPERATING_ENVELOPE_CHECK_ID), p.operatingEnvelopeCheckId == "")
    case 15 => (Field(SESSION_ELIGIBILITY_CHECK_ID), p.sessionEligibilityCheckId == "")
    case _ => (Field(DECISION_TRACE_HASH), p.decisionTraceHash == "")
  }

  function PacketEmptiness(p: SessionPacket): nat -> (Entry, bool) {
    (k: nat) => PacketField(p, k)
  }

  function MissingPacketFields(p: SessionPacket): seq<Entry> {
    Noted(PACKET_FIELDS, PacketEmptiness(p))
  }

  // ---------- Session packets ----------

  /** The window's two texts denote moments, the first earlier than the second. */
  predicate OrderedWindow(p: SessionPacket) {
    var from, to := MomentOf(p.validFromUtc), MomentOf(p.validToUtc);
    from.Some? && to.Some? && from.value < to.value
  }

  /** What a text says as a timestamp: whether it is aware, and whether its moment is in range. */
  datatype Reading = Reading(aware: bool, inRange: bool)

  function ReadingOf(text: string): Reading {
    Reading(AwareText(text), !OutOfRange(text))
  }

  datatype WindowReading = WindowReading(from: Reading, to: Reading, ordered: bool)

  function ReadWindow(p: SessionPacket): WindowReading {
    WindowReading(ReadingOf(p.validFromUtc), ReadingOf(p.validToUtc), OrderedWindow(p))
  }

  /**
   * What a session packet with empty fields `missing` and window `w` must satisfy, in order of precedence. An
   * unreadable or naive time is reported; a time outside years 1 to 9999 raises what the validator does not catch.
   */
  function PacketRequirements(p: SessionPacket, missing: seq<Entry>, w: WindowReading): seq<Requirement<Answered>> {
    var green := p.sessionStatus == GREEN;
    [Requirement(p.schemaVersion == SUPPORTED_SCHEMA_VERSION, Says(INVALID, PACKET_SCHEMA_VERSION_UNSUPPORTED)),
     Requirement(missing == [], Returns(Report(INVALID, PACKET_MISSING_REQUIRED_FIELDS, missing))),
     Requirement(w.from.aware, Says(INVALID, PACKET_INVALID_VALIDITY_WINDOW)),
     Requirement(w.from.inRange, Raises(OverflowError)),
     Requirement(w.to.aware, Says(INVALID, PACKET_INVALID_VALIDITY_WINDOW)),
     Requirement(w.to.inRange, Raises(OverflowError)),
     Requirement(w.ordered, Says(INVALID, PACKET_VALIDITY_WINDOW_INVERTED)),
     Requirement(green ==> p.discrepancyStatus == CLEAR, Says(VIOLATION, PACKET_GREEN_REQUIRES_CLEAR_DISCREPANCIES)),
     Requirement(green ==> p.blockedCheckIds == [], Says(VIOLATION, PACKET_GREEN_REQUIRES_ALL_CHECKS_PASSING))]
  }

  function PacketAnswer(p: SessionPacket, missing: seq<Entry>, w: WindowReading): Answered {
    Answer(PacketRequirements(p, missing, w), Says(PASS, PACKET_VALID))
  }

  function PacketVerdict(p: SessionPacket): Answered {
    PacketAnswer(p, MissingPacketFields(p), ReadWindow(p))
  }

  predicate ValidPacket(p: SessionPacket) {
    Passing(PacketVerdict(p))
  }

  predicate CompletePacket(p: SessionPacket) {
    p.schemaVersion == SUPPORTED_SCHEMA_VERSION && MissingPacketFields(p) == []
  }

  /** Normalising a text does what its reading says. */
  ghost predicate Normalizes(n: Outcome<string>, r: Reading) {
    (n == Raises(ValueError) <==> !r.aware) && (n == Raises(OverflowError) <==> !r.inRange)
    && (n.Raises? ==> n.error == ValueError || n.error == OverflowError)
  }

  lemma NormalizesAsRead(text: string)
    ensures Normalizes(Normalize(text), ReadingOf(text))
  {
    NormalizePrintsMoment(text);
  }

  /** The early returns, which compare the normalised window as texts. */
  method ValidateSessionReadinessPacket(p: SessionPacket) returns (r: Answered)
    ensures r == PacketVerdict(p)
  {
    NormalizesAsRead(p.validFromUtc);
    NormalizesAsRead(p.validToUtc);
    WindowInOrder(p);
    r := EvaluatePacket(p, MissingPacketFields(p), Normalize(p.validFromUtc), Normalize(p.validToUtc), ReadWindow(p));
  }

  method EvaluatePacket(p: SessionPacket, missing: seq<Entry>, validFrom: Outcome<string>, validTo: Outcome<string>,
      ghost w: WindowReading) returns (r: Answered)
    requires Normalizes(validFrom, w.from) && Normalizes(validTo, w.to)
    requires validFrom.Returns? && validTo.Returns? ==> (Text.AtMost(validTo.value, validFrom.value) <==> !w.ordered)
    ensures r == PacketAnswer(p, missing, w)
  {
    ghost var rs, pass := PacketRequirements(p, missing, w), Says(PASS, PACKET_VALID);
    if p.schemaVersion != SUPPORTED_SCHEMA_VERSION {
      FirstUnmetAnswers(rs, pass, 0);
      return Says(INVALID, PACKET_SCHEMA_VERSION_UNSUPPORTED);
    }
    assert HoldUpTo(rs, 1);
    if missing != [] {
      FirstUnmetAnswers(rs, pass, 1);
      return Returns(Report(INVALID, PACKET_MISSING_REQUIRED_FIELDS, missing));
    }
    assert HoldUpTo(rs, 2);
    if validFrom.Raises? {
      FirstUnmetAnswers(rs, pass, if validFrom.error == ValueError then 2 else 3);
      if validFrom.error != ValueError { return Raises(validFrom.error); }
      return Says(INVALID, PACKET_INVALID_VALIDITY_WINDOW);
    }
    assert HoldUpTo(rs, 4);
    if validTo.Raises? {
      FirstUnmetAnswers(rs, pass, if validTo.error == ValueError then 4 else 5);
      if validTo.error != ValueError { return Raises(validTo.error); }
      return Says(INVALID, PACKET_INVALID_VALIDITY_WINDOW);
    }
    assert HoldUpTo(rs, 6);
    if Text.AtMost(validTo.value, validFrom.value) {
      FirstUnmetAnswers(rs, pass, 6);
      return Says(INVALID, PACKET_VALIDITY_WINDOW_INVERTED);
    }
    assert HoldUpTo(rs, 7);
    if p.sessionStatus == GREEN && p.discrepancyStatus != CLEAR {
      FirstUnmetAnswers(rs, pass, 7);
      return Says(VIOLATION, PACKET_GREEN_REQUIRES_CLEAR_DISCREPANCIES);
    }
    assert HoldUpTo(rs, 8);
    if p.sessionStatus == GREEN && p.blockedCheckIds != [] {
      FirstUnmetAnswers(rs, pass, 8);
      return Says(VIOLATION, PACKET_GREEN_REQUIRES_ALL_CHECKS_PASSING);
    }
    AllMetPasses(rs, pass);
    return Says(PASS, PACKET_VALID);
  }

  lemma OrderedTexts(a: string, b: string)
    ensures Normalize(a).Returns? <==> MomentOf(a).Some?
    ensures Normalize(b).Returns? <==> MomentOf(b).Some?
    ensures MomentOf(a).Some? && MomentOf(b).Some? ==>
              (Text.Less(Normalize(a).value, Normalize(b).value) <==> MomentOf(a).value < MomentOf(b).value) &&
              (Normalize(a).value == Normalize(b).value <==> MomentOf(a).value == MomentOf(b).value)
  {
    NormalizePrintsMoment(a);
    NormalizePrintsMoment(b);
    if MomentOf(a).Some? && MomentOf(b).Some? { NormalizedOrderIsTimeOrder(a, b); }
  }

  lemma WindowInOrder(p: SessionPacket)
    ensures Normalize(p.validFromUtc).Returns? && Normalize(p.validToUtc).Returns? ==>
              (Text.AtMost(Normalize(p.validToUtc).value, Normalize(p.validFromUtc).value) <==> !OrderedWindow(p))
  {
    OrderedTexts(p.validFromUtc, p.validToUtc);
    if MomentOf(p.validFromUtc).Some? && MomentOf(p.validToUtc).Some? {
      Text.LessTrichotomy(Normalize(p.validFromUtc).value, Normalize(p.validToUtc).value);
    }
  }

  /** Starting before it ends, and green only with nothing against it. */
  predicate Wellformed(p: SessionPacket) {
    OrderedWindow(p) && (p.sessionStatus == GREEN ==> p.discrepancyStatus == CLEAR && p.blockedCheckIds == [])
  }

  /** One of the window's times, taken in order, lies outside years 1 to 9999. */
  predicate WindowOverflows(p: SessionPacket) {
    OutOfRange(p.validFromUtc) || (MomentOf(p.validFromUtc).Some? && OutOfRange(p.validToUtc))
  }

  lemma PacketAnswerCases(p: SessionPacket, missing: seq<Entry>, w: WindowReading)
    ensures var a := PacketAnswer(p, missing, w);
            var complete := p.schemaVersion == SUPPORTED_SCHEMA_VERSION && missing == [];
            var inside := w.from.aware && w.from.inRange && w.to.aware && w.to.inRange;
            var clear := p.sessionStatus == GREEN ==> p.discrepancyStatus == CLEAR && p.blockedCheckIds == [];
            && (Passing(a) <==> complete && inside && w.ordered && clear)
            && (a.Raises? <==> complete && w.from.aware && (!w.from.inRange || (w.to.aware && !w.to.inRange)))
            && (a.Raises? ==> a.error == OverflowError)
  {
    var rs, pass := PacketRequirements(p, missing, w), Says(PASS, PACKET_VALID);
    var k := MetOrFirstUnmet(rs);
    if FirstUnmet(rs, k) {
      FirstUnmetAnswers(rs, pass, k);
      assert k > 0 ==> rs[0].holds;
      assert k > 1 ==> rs[1].holds;
      assert k > 2 ==> rs[2].holds;
      assert k > 3 ==> rs[3].holds;
      assert k > 4 ==> rs[4].holds;
      assert k > 5 ==> rs[5].holds;
    } else {
      AllMetPasses(rs, pass);
      assert rs[0].holds && rs[1].holds && rs[2].holds && rs[3].holds && rs[4].holds;
      assert rs[5].holds && rs[6].holds && rs[7].holds && rs[8].holds;
    }
  }

  lemma WindowRead(p: SessionPacket)
    ensures var w := ReadWindow(p);
            && (WindowOverflows(p) <==> w.from.aware && (!w.from.inRange || (w.to.aware && !w.to.inRange)))
            && (w.ordered ==> w.from.aware && w.from.inRange && w.to.aware && w.to.inRange)
  {
    NormalizePrintsMoment(p.validFromUtc);
    NormalizePrintsMoment(p.validToUtc);
  }

  /** A packet is valid exactly when it is complete and well formed. */
  lemma PacketValidIff(p: SessionPacket)
    ensures ValidPacket(p) <==> CompletePacket(p) && Wellformed(p)
  {
    PacketAnswerCases(p, MissingPacketFields(p), ReadWindow(p));
    WindowRead(p);
  }

  /** An exception escapes exactly when a complete packet's window overflows. */
  lemma PacketEscapesIff(p: SessionPacket)
    ensures PacketVerdict(p).Raises? <==> CompletePacket(p) && WindowOverflows(p)
    ensures PacketVerdict(p).Raises? ==> PacketVerdict(p).error == OverflowError
  {
    PacketAnswerCases(p, MissingPacketFields(p), ReadWindow(p));
    WindowRead(p);
  }

  // ---------- Which fields must be filled ----------

  /** Every one of the seventeen texts is filled in. */
  predicate PacketFilled(p: SessionPacket) {
    && p.packetId != "" && p.deploymentInstanceId != "" && p.sessionId != "" && p.validFromUtc != ""
    && p.validToUtc != "" && p.sourcePromotionPacketId != "" && p.feeCheckId != "" && p.marginCheckId != ""
    && p.entitlementCheckId != "" && p.contractConformanceCheckId != "" && p.backupFreshnessCheckId != ""
    && p.restoreDrillCheckId != "" && p.clockHealthCheckId != "" && p.secretHealthCheckId != ""
    && p.operatingEnvelopeCheckId != "" && p.sessionEligibilityCheckId != "" && p.decisionTraceHash != ""
  }

  /** The field of that name is one of the seventeen, and empty. */
  predicate PacketLacks(p: SessionPacket, name: FieldName) {
    match name
    case SESSION_READINESS_PACKET_ID => p.packetId == ""
    case DEPLOYMENT_INSTANCE_ID => p.deploymentInstanceId == ""
    case SESSION_ID => p.sessionId == ""
    case VALID_FROM_UTC => p.validFromUtc == ""
    case VALID_TO_UTC => p.validToUtc == ""
    case SOURCE_PROMOTION_PACKET_ID => p.sourcePromotionPacketId == ""
    case FEE_CHECK_ID => p.feeCheckId == ""
    case MARGIN_CHECK_ID => p.marginCheckId == ""
    case ENTITLEMENT_CHECK_ID => p.entitlementCheckId == ""
    case CONTRACT_CONFORMANCE_CHECK_ID => p.contractConformanceCheckId == ""
    case BACKUP_FRESHNESS_CHECK_ID => p.backupFreshnessCheckId == ""
    case RESTORE_DRILL_CHECK_ID => p.restoreDrillCheckId == ""
    case CLOCK_HEALTH_CHECK_ID => p.clockHealthCheckId == ""
    case SECRET_HEALTH_CHECK_ID => p.secretHealthCheckId == ""
    case OPERATING_ENVELOPE_CHECK_ID => p.operatingEnvelopeCheckId == ""
    case SESSION_ELIGIBILITY_CHECK_ID => p.sessionEligibilityCheckId == ""
    case DECISION_TRACE_HASH => p.decisionTraceHash == ""
    case _ => false
  }

  function PacketPlace(name: FieldName): nat {
    match name
    case SESSION_READINESS_PACKET_ID => 0
    case DEPLOYMENT_INSTANCE_ID => 1
    case SESSION_ID => 2
    case VALID_FROM_UTC => 3
    case VALID_TO_UTC => 4
    case SOURCE_PROMOTION_PACKET_ID => 5
    case FEE_CHECK_ID => 6
    case MARGIN_CHECK_ID => 7
    case ENTITLEMENT_CHECK_ID => 8
    case CONTRACT_CONFORMANCE_CHECK_ID => 9
    case BACKUP_FRESHNESS_CHECK_ID => 10
    case RESTORE_DRILL_CHECK_ID => 11
    case CLOCK_HEALTH_CHECK_ID => 12
    case SECRET_HEALTH_CHECK_ID => 13
    case OPERATING_ENVELOPE_CHECK_ID => 14
    case SESSION_ELIGIBILITY_CHECK_ID => 15
    case DECISION_TRACE_HASH => 16
    case _ => PACKET_FIELDS
  }

  lemma PacketFieldLacks(p: SessionPacket, k: nat)
    requires k < PACKET_FIELDS
    ensures PacketField(p, k).0.Field? && PacketPlace(PacketField(p, k).0.name) == k
    ensures PacketField(p, k).1 <==> PacketLacks(p, PacketField(p, k).0.name)
  {
  }

  lemma PacketPlaceNames(p: SessionPacket, name: FieldName)
    requires PacketPlace(name) < PACKET_FIELDS
    ensures PacketField(p, PacketPlace(name)).0 == Field(name)
  {
  }

  lemma PacketLacksPlaced(p: SessionPacket, name: FieldName)
    requires PacketLacks(p, name)
    ensures PacketPlace(name) < PACKET_FIELDS
  {
  }

  lemma PacketFieldNamed(p: SessionPacket, name: FieldName)
    requires PacketPlace(name) < PACKET_FIELDS
    ensures PacketField(p, PacketPlace(name)) == (Field(name), PacketLacks(p, name))
  {
    PacketPlaceNames(p, name);
    PacketFieldLacks(p, PacketPlace(name));
  }

  lemma PacketEmptinessAt(p: SessionPacket, k: nat)
    ensures PacketEmptiness(p)(k) == PacketField(p, k)
  {
  }

  lemma FilledLacksNothing(p: SessionPacket, name: FieldName)
    requires PacketFilled(p)
    ensures !PacketLacks(p, name)
  {
  }

  lemma LacksNothingFilled(p: SessionPacket)
    requires forall name :: !PacketLacks(p, name)
    ensures PacketFilled(p)
  {
    assert !PacketLacks(p, SESSION_READINESS_PACKET_ID);
    assert !PacketLacks(p, DEPLOYMENT_INSTANCE_ID);
    assert !PacketLacks(p, SESSION_ID);
    assert !PacketLacks(p, VALID_FROM_UTC);
    assert !PacketLacks(p, VALID_TO_UTC);
    assert !PacketLacks(p, SOURCE_PROMOTION_PACKET_ID);
    assert !PacketLacks(p, FEE_CHECK_ID);
    assert !PacketLacks(p, MARGIN_CHECK_ID);
    assert !PacketLacks(p, ENTITLEMENT_CHECK_ID);
    assert !PacketLacks(p, CONTRACT_CONFORMANCE_CHECK_ID);
    assert !PacketLacks(p, BACKUP_FRESHNESS_CHECK_ID);
    assert !PacketLacks(p, RESTORE_DRILL_CHECK_ID);
    assert !PacketLacks(p, CLOCK_HEALTH_CHECK_ID);
    assert !PacketLacks(p, SECRET_HEALTH_CHECK_ID);
    assert !PacketLacks(p, OPERATING_ENVELOPE_CHECK_ID);
    assert !PacketLacks(p, SESSION_ELIGIBILITY_CHECK_ID);
    assert !PacketLacks(p, DECISION_TRACE_HASH);
  }

  /** The names listed as missing are exactly those of the empty fields. */
  lemma MissingPacketNames(p: SessionPacket, name: FieldName)
    ensures Field(name) in MissingPacketFields(p) <==> PacketLacks(p, name)
  {
    NotedMembers(PACKET_FIELDS, PacketEmptiness(p), Field(name));
    if k: nat :| k < PACKET_FIELDS && PacketEmptiness(p)(k) == (Field(name), true) { PacketFieldLacks(p, k); }
    if PacketLacks(p, name) {
      PacketLacksPlaced(p, name);
      PacketFieldNamed(p, name);
      PacketEmptinessAt(p, PacketPlace(name));
    }
  }

  lemma NothingMissingIffFilled(p: SessionPacket)
    ensures MissingPacketFields(p) == [] <==> PacketFilled(p)
  {
    NothingNoted(PACKET_FIELDS, PacketEmptiness(p));
    if !PacketFilled(p) {
      if forall name :: !PacketLacks(p, name) { LacksNothingFilled(p); }
      var name :| PacketLacks(p, name);
      MissingPacketNames(p, name);
    } else {
      forall k: nat | k < PACKET_FIELDS ensures !PacketEmptiness(p)(k).1 {
        PacketFieldLacks(p, k);
        FilledLacksNothing(p, PacketField(p, k).0.name);
      }
    }
  }

  /**
   * A valid packet is of the supported version, has all its fields, starts before it ends, and is green only with
   * clear discrepancies and no blocked check; all these together are enough.
   */
  lemma PacketValidWrittenOut(p: SessionPacket)
    ensures ValidPacket(p) <==>
            && p.schemaVersion == 1 && PacketFilled(p)
            && MomentOf(p.validFromUtc).Some? && MomentOf(p.validToUtc).Some?
            && MomentOf(p.validFromUtc).value < MomentOf(p.validToUtc).value
            && (p.sessionStatus == GREEN ==> p.discrepancyStatus == CLEAR && p.blockedCheckIds == [])
  {
    PacketValidIff(p);
    NothingMissingIffFilled(p);
  }

  /** A supported packet with empty fields is reported as such, naming exactly the empty ones. */
  lemma IncompletePacketNamesFields(p: SessionPacket, name: FieldName)
    requires p.schemaVersion == 1 && !PacketFilled(p)
    ensures PacketVerdict(p) == Returns(Report(INVALID, PACKET_MISSING_REQUIRED_FIELDS, MissingPacketFields(p)))
    ensures Field(name) in MissingPacketFields(p) <==> PacketLacks(p, name)
  {
    NothingMissingIffFilled(p);
    MissingPacketNames(p, name);
    FirstUnmetAnswers(PacketRequirements(p, MissingPacketFields(p), ReadWindow(p)), Says(PASS, PACKET_VALID), 1);
  }

  /** What a complete packet is told, by reason. */
  lemma CompletePacketReasons(p: SessionPacket)
    requires p.schemaVersion == 1 && PacketFilled(p) && PacketVerdict(p).Returns?
    ensures var r, from, to := PacketVerdict(p).value, MomentOf(p.validFromUtc), MomentOf(p.validToUtc);
            var read, green := from.Some? && to.Some?, p.sessionStatus == GREEN;
            && (r.reason == PACKET_INVALID_VALIDITY_WINDOW <==> !read)
            && (r.reason == PACKET_VALIDITY_WINDOW_INVERTED <==> read && to.value <= from.value)
            && (r.reason == PACKET_GREEN_REQUIRES_CLEAR_DISCREPANCIES <==>
                 read && from.value < to.value && green && p.discrepancyStatus != CLEAR)
            && (r.reason == PACKET_GREEN_REQUIRES_ALL_CHECKS_PASSING <==>
                 read && from.value < to.value && green && p.discrepancyStatus == CLEAR && p.blockedCheckIds != [])
  {
    NothingMissingIffFilled(p);
    NormalizePrintsMoment(p.validFromUtc);
    NormalizePrintsMoment(p.validToUtc);
    CompleteAnswers(p, ReadWindow(p));
  }

  lemma CompleteAnswers(p: SessionPacket, w: WindowReading)
    requires p.schemaVersion == SUPPORTED_SCHEMA_VERSION && PacketAnswer(p, [], w).Returns?
    requires w.ordered ==> w.from.aware && w.from.inRange && w.to.aware && w.to.inRange
    ensures var r, green := PacketAnswer(p, [], w).value, p.sessionStatus == GREEN;
            var read := w.from.aware && w.from.inRange && w.to.aware && w.to.inRange;
            && (r.reason == PACKET_INVALID_VALIDITY_WINDOW <==> !read)
            && (r.reason == PACKET_VALIDITY_WINDOW_INVERTED <==> read && !w.ordered)
            && (r.reason == PACKET_GREEN_REQUIRES_CLEAR_DISCREPANCIES <==>
                 w.ordered && green && p.discrepancyStatus != CLEAR)
            && (r.reason == PACKET_GREEN_REQUIRES_ALL_CHECKS_PASSING <==>
                 w.ordered && green && p.discrepancyStatus == CLEAR && p.blockedCheckIds != [])
  {
    var rs, pass := PacketRequirements(p, [], w), Says(PASS, PACKET_VALID);
    var k := MetOrFirstUnmet(rs);
    if FirstUnmet(rs, k) {
      FirstUnmetAnswers(rs, pass, k);
      assert k > 2 ==> rs[2].holds;
      assert k > 3 ==> rs[3].holds;
      assert k > 4 ==> rs[4].holds;
      assert k > 5 ==> rs[5].holds;
      assert k > 6 ==> rs[6].holds;
      assert k > 7 ==> rs[7].holds;
    } else {
      AllMetPasses(rs, pass);
      assert rs[2].holds && rs[3].holds && rs[4].holds && rs[5].holds && rs[6].holds && rs[7].holds && rs[8].holds;
    }
  }

  function PacketFrom(start: string): SessionPacket {
    SessionPacket("x", "x", "x", start, "x", "x", "x", "x", "x", "x", "x", "x", "x", "x", CLEAR, "x", "x", GREEN, [],
      "x", SUPPORTED_SCHEMA_VERSION)
  }

  lemma PacketFromComplete(start: string)
    requires start != ""
    ensures CompletePacket(PacketFrom(start))
  {
    NothingMissingIffFilled(PacketFrom(start));
  }

  /** A complete packet from which the exception escapes: its window starts at 0001-01-01T00:00:00+01:00. */
  lemma PacketCanEscape() returns (p: SessionPacket)
    ensures CompletePacket(p) && PacketVerdict(p) == Raises(OverflowError)
  {
    var start := FirstHourOutOfRange();
    p := PacketFrom(start);
    PacketFromComplete(start);
    PacketEscapesIff(p);
  }

  // ---------- The window check ----------

  /** The gate's window check, on normalised texts. */
  predicate InWindow(p: SessionPacket, at: string) {
    var from, to, now := Normalize(p.validFromUtc), Normalize(p.validToUtc), Normalize(at);
    from.Returns? && to.Returns? && now.Returns?
    && Text.AtMost(from.value, now.value) && Text.Less(now.value, to.value)
  }

  /** The same question asked of the moments themselves. */
  predicate Covers(p: SessionPacket, at: string) {
    var from, to, now := MomentOf(p.validFromUtc), MomentOf(p.validToUtc), MomentOf(at);
    from.Some? && to.Some? && now.Some? && from.value <= now.value < to.value
  }

  /** Comparing texts is comparing moments, whatever offsets the three texts were written with. */
  lemma WindowCheckIsChronological(p: SessionPacket, at: string)
    ensures InWindow(p, at) <==> Covers(p, at)
  {
    OrderedTexts(p.validFromUtc, at);
    OrderedTexts(at, p.validToUtc);
  }

  // ---------- Tradeability ----------

  const REQUEST_FIELDS := 8

  function RequestField(q: TradeabilityRequest, k: nat): (Entry, bool) {
    match k
    case 0 => (Field(TRADEABILITY_GATE_ID), q.gateId == "")
    case 1 => (Field(ACTIVE_DEPLOYMENT_INSTANCE_ID), q.activeDeploymentInstanceId == "")
    case 2 => (Field(ACTIVE_PROMOTION_PACKET_ID), q.activePromotionPacketId == "")
    case 3 => (Field(CURRENT_SESSION_ID), q.currentSessionId == "")
    case 4 => (Field(EVALUATED_AT_UTC), q.evaluatedAtUtc == "")
    case 5 => (Field(CORRELATION_ID), q.correlationId == "")
    case 6 => (Field(OPERATOR_REASON_BUNDLE), q.operatorReasonBundle == [])
    case _ => (Field(SIGNED_GATE_HASH), q.signedGateHash == "")
  }

  function RequestEmptiness(q: TradeabilityRequest): nat -> (Entry, bool) {
    (k: nat) => RequestField(q, k)
  }

  function MissingRequestFields(q: TradeabilityRequest): seq<Entry> {
    Noted(REQUEST_FIELDS, RequestEmptiness(q))
  }

  predicate Bound(q: TradeabilityRequest) {
    q.activeDeploymentInstanceId == q.packet.deploymentInstanceId
    && q.activePromotionPacketId == q.packet.sourcePromotionPacketId
    && q.currentSessionId == q.packet.sessionId
  }

  /** The bindings that do not match, by name. */
  function BindingMismatches(q: TradeabilityRequest): (m: seq<Entry>)
    ensures m == [] <==> Bound(q)
  {
    var m := Note([],
      q.activeDeploymentInstanceId != q.packet.deploymentInstanceId, Field(ACTIVE_DEPLOYMENT_INSTANCE_ID));
    var m := Note(m, q.activePromotionPacketId != q.packet.sourcePromotionPacketId, Field(ACTIVE_PROMOTION_PACKET_ID));
    Note(m, q.currentSessionId != q.packet.sessionId, Field(CURRENT_SESSION_ID))
  }

  /**
   * What new entries need beyond a valid packet, in order of precedence; `at` is the evaluation time as read and
   * `covered` whether the packet's window covers it.
   */
  function GateRequirements(q: TradeabilityRequest, missing: seq<Entry>, at: Reading, covered: bool)
    : seq<Requirement<Answered>>
  {
    [Requirement(q.schemaVersion == SUPPORTED_SCHEMA_VERSION,
       Says(INVALID, TRADEABILITY_SCHEMA_VERSION_UNSUPPORTED)),
     Requirement(missing == [], Returns(Report(INVALID, TRADEABILITY_MISSING_REQUIRED_FIELDS, missing))),
     Requirement(at.aware, Says(INVALID, TRADEABILITY_INVALID_EVALUATION_TIME)),
     Requirement(at.inRange, Raises(OverflowError)),
     Requirement(Bound(q), Returns(Report(VIOLATION, TRADEABILITY_BINDING_MISMATCH, BindingMismatches(q)))),
     Requirement(covered, Says(VIOLATION, TRADEABILITY_OUTSIDE_VALIDITY_WINDOW)),
     Requirement(q.packet.sessionStatus == GREEN,
       Returns(Report(VIOLATION, TRADEABILITY_REQUIRES_GREEN_PACKET, [PacketStatus(q.packet.sessionStatus)]))),
     Requirement(q.staleCheckIds == [],
       Returns(Report(VIOLATION, TRADEABILITY_FRESHNESS_CHECK_FAILED, CheckIds(q.staleCheckIds)))),
     Requirement(q.failedCheckIds == [],
       Returns(Report(VIOLATION, TRADEABILITY_INFRASTRUCTURE_CHECK_FAILED, CheckIds(q.failedCheckIds))))]
  }

  function CheckIds(ids: seq<string>): (es: seq<Entry>)
    ensures |es| == |ids| && forall i :: 0 <= i < |ids| ==> es[i] == CheckId(ids[i])
  {
    seq(|ids|, i requires 0 <= i < |ids| => CheckId(ids[i]))
  }

  function GateAnswer(q: TradeabilityRequest, missing: seq<Entry>, at: Reading, covered: bool): Answered {
    Answer(GateRequirements(q, missing, at, covered), Says(PASS, TRADEABILITY_GREEN_FOR_NEW_ENTRIES))
  }

  /** What the gate's own requirements answer. */
  function GateOf(q: TradeabilityRequest): Answered {
    GateAnswer(q, MissingRequestFields(q), ReadingOf(q.evaluatedAtUtc), Covers(q.packet, q.evaluatedAtUtc))
  }

  /** The gate's verdict: the packet's, if that does not pass, and else that of the gate's own requirements. */
  function Verdict(q: TradeabilityRequest): Answered {
    var session :- PacketVerdict(q.packet);
    if session.status != PASS then
      Returns(Report(session.status, TRADEABILITY_SESSION_PACKET_INVALID, session.missingFields))
    else
      GateOf(q)
  }

  predicate InOrder(q: TradeabilityRequest) {
    q.schemaVersion == SUPPORTED_SCHEMA_VERSION && MissingRequestFields(q) == []
  }

  predicate Clear(q: TradeabilityRequest) {
    q.packet.sessionStatus == GREEN && q.staleCheckIds == [] && q.failedCheckIds == []
  }

  lemma GateAnswerCases(q: TradeabilityRequest, missing: seq<Entry>, at: Reading, covered: bool)
    ensures var a := GateAnswer(q, missing, at, covered);
            var inOrder := q.schemaVersion == SUPPORTED_SCHEMA_VERSION && missing == [];
            && (Passing(a) <==> inOrder && at.aware && at.inRange && Bound(q) && covered && Clear(q))
            && (a.Raises? <==> inOrder && at.aware && !at.inRange) && (a.Raises? ==> a.error == OverflowError)
  {
    var rs := GateRequirements(q, missing, at, covered);
    var pass := Says(PASS, TRADEABILITY_GREEN_FOR_NEW_ENTRIES);
    var k := MetOrFirstUnmet(rs);
    if FirstUnmet(rs, k) {
      FirstUnmetAnswers(rs, pass, k);
      assert k > 0 ==> rs[0].holds;
      assert k > 1 ==> rs[1].holds;
      assert k > 2 ==> rs[2].holds;
      assert k > 3 ==> rs[3].holds;
    } else {
      AllMetPasses(rs, pass);
      assert rs[0].holds && rs[1].holds && rs[2].holds && rs[3].holds && rs[4].holds;
      assert rs[5].holds && rs[6].holds && rs[7].holds && rs[8].holds;
    }
  }

  lemma TimeRead(q: TradeabilityRequest)
    ensures var at := ReadingOf(q.evaluatedAtUtc);
            && (OutOfRange(q.evaluatedAtUtc) <==> at.aware && !at.inRange)
            && (Covers(q.packet, q.evaluatedAtUtc) ==> at.aware && at.inRange)
  {
    NormalizePrintsMoment(q.evaluatedAtUtc);
  }

  /** Entries are allowed exactly inside the packet's window in real time, with everything else in order. */
  lemma PassesIffTradeable(q: TradeabilityRequest)
    ensures Passing(Verdict(q)) <==>
            ValidPacket(q.packet) && InOrder(q) && Bound(q) && Covers(q.packet, q.evaluatedAtUtc) && Clear(q)
  {
    GateAnswerCases(
      q, MissingRequestFields(q), ReadingOf(q.evaluatedAtUtc), Covers(q.packet, q.evaluatedAtUtc));
    TimeRead(q);
  }

  /**
   * The only exception that escapes is an overflow. It does exactly when the gate reaches a time outside years 1 to
   * 9999: in the window of a complete packet, or, for a valid packet and a request in order, the evaluation time.
   */
  lemma OnlyOverflowEscapes(q: TradeabilityRequest)
    ensures Verdict(q).Raises? ==> Verdict(q).error == OverflowError
    ensures Verdict(q).Raises? <==>
            (CompletePacket(q.packet) && WindowOverflows(q.packet))
            || (ValidPacket(q.packet) && InOrder(q) && OutOfRange(q.evaluatedAtUtc))
  {
    PacketEscapesIff(q.packet);
    GateEscapes(q);
    VerdictRaises(q);
  }

  lemma GateEscapes(q: TradeabilityRequest)
    ensures GateOf(q).Raises? <==> InOrder(q) && OutOfRange(q.evaluatedAtUtc)
    ensures GateOf(q).Raises? ==> GateOf(q).error == OverflowError
  {
    GateAnswerCases(
      q, MissingRequestFields(q), ReadingOf(q.evaluatedAtUtc), Covers(q.packet, q.evaluatedAtUtc));
    TimeRead(q);
  }

  lemma VerdictRaises(q: TradeabilityRequest)
    ensures Verdict(q) == if PacketVerdict(q.packet).Raises? then Raises(PacketVerdict(q.packet).error)
                          else if ValidPacket(q.packet) then GateOf(q) else Verdict(q)
    ensures PacketVerdict(q.packet).Returns? && !ValidPacket(q.packet) ==> Verdict(q).Returns?
  {
  }

  /** Every one of the eight entries is filled in. */
  predicate RequestFilled(q: TradeabilityRequest) {
    && q.gateId != "" && q.activeDeploymentInstanceId != "" && q.activePromotionPacketId != ""
    && q.currentSessionId != "" && q.evaluatedAtUtc != "" && q.correlationId != "" && q.operatorReasonBundle != []
    && q.signedGateHash != ""
  }

  predicate RequestLacks(q: TradeabilityRequest, name: FieldName) {
    match name
    case TRADEABILITY_GATE_ID => q.gateId == ""
    case ACTIVE_DEPLOYMENT_INSTANCE_ID => q.activeDeploymentInstanceId == ""
    case ACTIVE_PROMOTION_PACKET_ID => q.activePromotionPacketId == ""
    case CURRENT_SESSION_ID => q.currentSessionId == ""
    case EVALUATED_AT_UTC => q.evaluatedAtUtc == ""
    case CORRELATION_ID => q.correlationId == ""
    case OPERATOR_REASON_BUNDLE => q.operatorReasonBundle == []
    case SIGNED_GATE_HASH => q.signedGateHash == ""
    case _ => false
  }

  lemma RequestFieldLacks(q: TradeabilityRequest, k: nat)
    requires k < REQUEST_FIELDS
    ensures RequestField(q, k).0.Field?
    ensures RequestField(q, k).1 <==> RequestLacks(q, RequestField(q, k).0.name)
  {
  }

  lemma RequestLacksPlaced(q: TradeabilityRequest, name: FieldName) returns (k: int)
    requires RequestLacks(q, name)
    ensures 0 <= k < REQUEST_FIELDS && RequestField(q, k).0 == Field(name)
  {
    k := match name
      case TRADEABILITY_GATE_ID => 0
      case ACTIVE_DEPLOYMENT_INSTANCE_ID => 1
      case ACTIVE_PROMOTION_PACKET_ID => 2
      case CURRENT_SESSION_ID => 3
      case EVALUATED_AT_UTC => 4
      case CORRELATION_ID => 5
      case OPERATOR_REASON_BUNDLE => 6
      case _ => 7;
  }

  lemma MissingRequestNames(q: TradeabilityRequest, name: FieldName)
    ensures Field(name) in MissingRequestFields(q) <==> RequestLacks(q, name)
  {
    NotedMembers(REQUEST_FIELDS, RequestEmptiness(q), Field(name));
    if k: nat :| k < REQUEST_FIELDS && RequestEmptiness(q)(k) == (Field(name), true) { RequestFieldLacks(q, k); }
    if RequestLacks(q, name) {
      var k := RequestLacksPlaced(q, name);
      RequestFieldLacks(q, k);
      assert RequestEmptiness(q)(k) == (Field(name), true);
    }
  }

  lemma NoRequestFieldMissing(q: TradeabilityRequest)
    ensures MissingRequestFields(q) == [] <==> RequestFilled(q)
  {
    NothingNoted(REQUEST_FIELDS, RequestEmptiness(q));
    forall k: nat | k < REQUEST_FIELDS ensures RequestEmptiness(q)(k).1 <==> RequestField(q, k).1 { }
    if MissingRequestFields(q) == [] {
      assert !RequestEmptiness(q)(0).1;
      assert !RequestEmptiness(q)(1).1;
      assert !RequestEmptiness(q)(2).1;
      assert !RequestEmptiness(q)(3).1;
      assert !RequestEmptiness(q)(4).1;
      assert !RequestEmptiness(q)(5).1;
      assert !RequestEmptiness(q)(6).1;
      assert !RequestEmptiness(q)(7).1;
    } else {
      var k: nat :| k < REQUEST_FIELDS && RequestEmptiness(q)(k).1;
      RequestFieldLacks(q, k);
    }
  }

  /**
   * New entries are allowed exactly when the packet is valid and green, the request is supported and complete, names
   * the packet's own deployment, promotion and session, falls into its window, and nothing is stale or failed.
   */
  lemma EntriesAllowedWrittenOut(q: TradeabilityRequest)
    ensures Verdict(q).Returns? && Verdict(q).value.status == PASS <==>
            && ValidPacket(q.packet) && q.packet.sessionStatus == GREEN && q.schemaVersion == 1 && RequestFilled(q)
            && q.activeDeploymentInstanceId == q.packet.deploymentInstanceId
            && q.activePromotionPacketId == q.packet.sourcePromotionPacketId
            && q.currentSessionId == q.packet.sessionId
            && MomentOf(q.evaluatedAtUtc).Some?
            && MomentOf(q.packet.validFromUtc).Some? && MomentOf(q.packet.validToUtc).Some?
            && MomentOf(q.packet.validFromUtc).value <= MomentOf(q.evaluatedAtUtc).value
            && MomentOf(q.evaluatedAtUtc).value < MomentOf(q.packet.validToUtc).value
            && q.staleCheckIds == [] && q.failedCheckIds == []
  {
    PassesIffTradeable(q);
    NoRequestFieldMissing(q);
  }

  /** A supported but incomplete request on a valid packet is told exactly which entries are empty. */
  lemma IncompleteRequestNamesFields(q: TradeabilityRequest, name: FieldName)
    requires ValidPacket(q.packet) && q.schemaVersion == 1 && !RequestFilled(q)
    ensures Verdict(q) == Returns(Report(INVALID, TRADEABILITY_MISSING_REQUIRED_FIELDS, MissingRequestFields(q)))
    ensures Field(name) in MissingRequestFields(q) <==> RequestLacks(q, name)
  {
    NoRequestFieldMissing(q);
    MissingRequestNames(q, name);
    IncompleteAnswers(q, MissingRequestFields(q), ReadingOf(q.evaluatedAtUtc), Covers(q.packet, q.evaluatedAtUtc));
  }

  lemma IncompleteAnswers(q: TradeabilityRequest, missing: seq<Entry>, at: Reading, covered: bool)
    requires q.schemaVersion == SUPPORTED_SCHEMA_VERSION && missing != []
    ensures GateAnswer(q, missing, at, covered) ==
            Returns(Report(INVALID, TRADEABILITY_MISSING_REQUIRED_FIELDS, missing))
  {
    FirstUnmetAnswers(GateRequirements(q, missing, at, covered), Says(PASS, TRADEABILITY_GREEN_FOR_NEW_ENTRIES), 1);
  }

  /** What a complete request on a valid packet is told, by reason. */
  lemma CompleteRequestReasons(q: TradeabilityRequest)
    requires ValidPacket(q.packet) && q.schemaVersion == 1 && RequestFilled(q) && Verdict(q).Returns?
    ensures var r := Verdict(q).value;
            var read, covered := MomentOf(q.evaluatedAtUtc).Some?, Covers(q.packet, q.evaluatedAtUtc);
            var green := q.packet.sessionStatus == GREEN;
            && (r.reason == TRADEABILITY_INVALID_EVALUATION_TIME <==> !read)
            && (r.reason == TRADEABILITY_BINDING_MISMATCH <==> read && !Bound(q))
            && (r.reason == TRADEABILITY_OUTSIDE_VALIDITY_WINDOW <==> read && Bound(q) && !covered)
            && (r.reason == TRADEABILITY_REQUIRES_GREEN_PACKET <==> Bound(q) && covered && !green)
            && (r.reason == TRADEABILITY_FRESHNESS_CHECK_FAILED <==>
                 Bound(q) && covered && green && q.staleCheckIds != [])
            && (r.reason == TRADEABILITY_INFRASTRUCTURE_CHECK_FAILED <==>
                 Bound(q) && covered && green && q.staleCheckIds == [] && q.failedCheckIds != [])
  {
    NoRequestFieldMissing(q);
    NormalizePrintsMoment(q.evaluatedAtUtc);
    CompleteGateAnswers(q, ReadingOf(q.evaluatedAtUtc), Covers(q.packet, q.evaluatedAtUtc));
  }

  lemma CompleteGateAnswers(q: TradeabilityRequest, at: Reading, covered: bool)
    requires q.schemaVersion == SUPPORTED_SCHEMA_VERSION && GateAnswer(q, [], at, covered).Returns?
    requires covered ==> at.aware && at.inRange
    ensures var r, green := GateAnswer(q, [], at, covered).value, q.packet.sessionStatus == GREEN;
            var read := at.aware && at.inRange;
            && (r.reason == TRADEABILITY_INVALID_EVALUATION_TIME <==> !read)
            && (r.reason == TRADEABILITY_BINDING_MISMATCH <==> read && !Bound(q))
            && (r.reason == TRADEABILITY_OUTSIDE_VALIDITY_WINDOW <==> read && Bound(q) && !covered)
            && (r.reason == TRADEABILITY_REQUIRES_GREEN_PACKET <==> Bound(q) && covered && !green)
            && (r.reason == TRADEABILITY_FRESHNESS_CHECK_FAILED <==>
                 Bound(q) && covered && green && q.staleCheckIds != [])
            && (r.reason == TRADEABILITY_INFRASTRUCTURE_CHECK_FAILED <==>
                 Bound(q) && covered && green && q.staleCheckIds == [] && q.failedCheckIds != [])
  {
    var rs := GateRequirements(q, [], at, covered);
    var pass := Says(PASS, TRADEABILITY_GREEN_FOR_NEW_ENTRIES);
    var k := MetOrFirstUnmet(rs);
    if FirstUnmet(rs, k) {
      FirstUnmetAnswers(rs, pass, k);
      assert k > 2 ==> rs[2].holds;
      assert k > 3 ==> rs[3].holds;
      assert k > 4 ==> rs[4].holds;
      assert k > 5 ==> rs[5].holds;
      assert k > 6 ==> rs[6].holds;
      assert k > 7 ==> rs[7].holds;
    } else {
      AllMetPasses(rs, pass);
      assert rs[2].holds && rs[3].holds && rs[4].holds && rs[5].holds && rs[6].holds && rs[7].holds && rs[8].holds;
    }
  }

  /** A binding mismatch names exactly the bindings that differ. */
  lemma MismatchedBindings(q: TradeabilityRequest)
    ensures var m := BindingMismatches(q);
            && (Field(ACTIVE_DEPLOYMENT_INSTANCE_ID) in m <==>
                 q.activeDeploymentInstanceId != q.packet.deploymentInstanceId)
            && (Field(ACTIVE_PROMOTION_PACKET_ID) in m <==>
                 q.activePromotionPacketId != q.packet.sourcePromotionPacketId)
            && (Field(CURRENT_SESSION_ID) in m <==> q.currentSessionId != q.packet.sessionId)
  {
  }

  /** A packet that does not pass decides: its status and missing fields are passed on. */
  lemma InvalidPacketDecides(q: TradeabilityRequest)
    requires PacketVerdict(q.packet).Returns? && !ValidPacket(q.packet)
    ensures var r := PacketVerdict(q.packet).value;
            Verdict(q) == Returns(Report(r.status, TRADEABILITY_SESSION_PACKET_INVALID, r.missingFields))
  {
  }

  /** Stale and failed checks are reported by their ids, in order. */
  lemma ReportedChecks(q: TradeabilityRequest)
    requires ValidPacket(q.packet) && q.schemaVersion == 1 && RequestFilled(q) && Verdict(q).Returns?
    ensures var r := Verdict(q).value;
            && (r.reason == TRADEABILITY_BINDING_MISMATCH ==> r.missingFields == BindingMismatches(q))
            && (r.reason == TRADEABILITY_FRESHNESS_CHECK_FAILED ==> r.missingFields == CheckIds(q.staleCheckIds))
            && (r.reason == TRADEABILITY_INFRASTRUCTURE_CHECK_FAILED ==> r.missingFields == CheckIds(q.failedCheckIds))
            && (r.reason == TRADEABILITY_REQUIRES_GREEN_PACKET ==>
                 r.missingFields == [PacketStatus(q.packet.sessionStatus)])
  {
    NoRequestFieldMissing(q);
    GateLists(q, ReadingOf(q.evaluatedAtUtc), Covers(q.packet, q.evaluatedAtUtc));
  }

  lemma GateLists(q: TradeabilityRequest, at: Reading, covered: bool)
    requires q.schemaVersion == SUPPORTED_SCHEMA_VERSION && GateAnswer(q, [], at, covered).Returns?
    ensures var r := GateAnswer(q, [], at, covered).value;
            && (r.reason == TRADEABILITY_BINDING_MISMATCH ==> r.missingFields == BindingMismatches(q))
            && (r.reason == TRADEABILITY_FRESHNESS_CHECK_FAILED ==> r.missingFields == CheckIds(q.staleCheckIds))
            && (r.reason == TRADEABILITY_INFRASTRUCTURE_CHECK_FAILED ==> r.missingFields == CheckIds(q.failedCheckIds))
            && (r.reason == TRADEABILITY_REQUIRES_GREEN_PACKET ==>
                 r.missingFields == [PacketStatus(q.packet.sessionStatus)])
  {
    var rs := GateRequirements(q, [], at, covered);
    var k := MetOrFirstUnmet(rs);
    if FirstUnmet(rs, k) {
      FirstUnmetAnswers(rs, Says(PASS, TRADEABILITY_GREEN_FOR_NEW_ENTRIES), k);
    } else {
      AllMetPasses(rs, Says(PASS, TRADEABILITY_GREEN_FOR_NEW_ENTRIES));
    }
  }

  lemma ValidPacketWindow(p: SessionPacket)
    requires ValidPacket(p)
    ensures OrderedWindow(p)
  {
    PacketValidIff(p);
  }

  method ValidateSessionTradeability(q: TradeabilityRequest) returns (r: Answered)
    ensures r == Verdict(q)
  {
    var session := ValidateSessionReadinessPacket(q.packet);
    if session.Raises? {
      return Raises(session.error);
    }
    if session.value.status != PASS {
      var status := if session.value.status == INVALID then INVALID else VIOLATION;
      return Returns(Report(status, TRADEABILITY_SESSION_PACKET_INVALID, session.value.missingFields));
    }
    NormalizesAsRead(q.evaluatedAtUtc);
    WindowCheckIsChronological(q.packet, q.evaluatedAtUtc);
    r := EvaluateGate(q, MissingRequestFields(q), Normalize(q.evaluatedAtUtc), InWindow(q.packet, q.evaluatedAtUtc),
      ReadingOf(q.evaluatedAtUtc));
  }

  method EvaluateGate(q: TradeabilityRequest, missing: seq<Entry>, evaluatedAt: Outcome<string>, inWindow: bool,
      ghost at: Reading) returns (r: Answered)
    requires Normalizes(evaluatedAt, at)
    ensures r == GateAnswer(q, missing, at, inWindow)
  {
    ghost var rs := GateRequirements(q, missing, at, inWindow);
    ghost var pass := Says(PASS, TRADEABILITY_GREEN_FOR_NEW_ENTRIES);
    if q.schemaVersion != SUPPORTED_SCHEMA_VERSION {
      FirstUnmetAnswers(rs, pass, 0);
      return Says(INVALID, TRADEABILITY_SCHEMA_VERSION_UNSUPPORTED);
    }
    assert HoldUpTo(rs, 1);
    if missing != [] {
      FirstUnmetAnswers(rs, pass, 1);
      return Returns(Report(INVALID, TRADEABILITY_MISSING_REQUIRED_FIELDS, missing));
    }
    assert HoldUpTo(rs, 2);
    if evaluatedAt.Raises? {
      FirstUnmetAnswers(rs, pass, if evaluatedAt.error == ValueError then 2 else 3);
      if evaluatedAt.error != ValueError { return Raises(evaluatedAt.error); }
      return Says(INVALID, TRADEABILITY_INVALID_EVALUATION_TIME);
    }
    assert HoldUpTo(rs, 4);
    var bindingMismatches := CollectBindingMismatches(q);
    if bindingMismatches != [] {
      FirstUnmetAnswers(rs, pass, 4);
      return Returns(Report(VIOLATION, TRADEABILITY_BINDING_MISMATCH, bindingMismatches));
    }
    assert HoldUpTo(rs, 5);
    if !inWindow {
      FirstUnmetAnswers(rs, pass, 5);
      return Says(VIOLATION, TRADEABILITY_OUTSIDE_VALIDITY_WINDOW);
    }
    assert HoldUpTo(rs, 6);
    if q.packet.sessionStatus != GREEN {
      FirstUnmetAnswers(rs, pass, 6);
      return Returns(Report(VIOLATION, TRADEABILITY_REQUIRES_GREEN_PACKET, [PacketStatus(q.packet.sessionStatus)]));
    }
    assert HoldUpTo(rs, 7);
    if q.staleCheckIds != [] {
      FirstUnmetAnswers(rs, pass, 7);
      return Returns(Report(VIOLATION, TRADEABILITY_FRESHNESS_CHECK_FAILED, CheckIds(q.staleCheckIds)));
    }
    assert HoldUpTo(rs, 8);
    if q.failedCheckIds != [] {
      FirstUnmetAnswers(rs, pass, 8);
      return Returns(Report(VIOLATION, TRADEABILITY_INFRASTRUCTURE_CHECK_FAILED, CheckIds(q.failedCheckIds)));
    }
    AllMetPasses(rs, pass);
    return Says(PASS, TRADEABILITY_GREEN_FOR_NEW_ENTRIES);
  }

  method CollectBindingMismatches(q: TradeabilityRequest) returns (bindingMismatches: seq<Entry>)
    ensures bindingMismatches == BindingMismatches(q)
  {
    bindingMismatches := [];
    if q.activeDeploymentInstanceId != q.packet.deploymentInstanceId {
      bindingMismatches := bindingMismatches + [Field(ACTIVE_DEPLOYMENT_INSTANCE_ID)];
    }
    if q.activePromotionPacketId != q.packet.sourcePromotionPacketId {
      bindingMismatches := bindingMismatches + [Field(ACTIVE_PROMOTION_PACKET_ID)];
    }
    if q.currentSessionId != q.packet.sessionId {
      bindingMismatches := bindingMismatches + [Field(CURRENT_SESSION_ID)];
    }
  }

  // ---------- Chains of sessions ----------

  function Window(p: SessionPacket): (w: (int, int))
    requires ValidPacket(p)
    ensures w.0 < w.1
  {
    ValidPacketWindow(p);
    (MomentOf(p.validFromUtc).value, MomentOf(p.validToUtc).value)
  }

  /** Valid packets, each starting at the moment the one before ends, however the two texts spell it. */
  predicate Chain(ps: seq<SessionPacket>) {
    (forall i :: 0 <= i < |ps| ==> ValidPacket(ps[i])) &&
    forall i :: 0 <= i < |ps| - 1 ==> Window(ps[i]).1 == Window(ps[i + 1]).0
  }

  /** Non-empty half-open intervals laid end to end. */
  predicate EndToEnd(ws: seq<(int, int)>) {
    (forall i :: 0 <= i < |ws| ==> ws[i].0 < ws[i].1) &&
    forall i :: 0 <= i < |ws| - 1 ==> ws[i].1 == ws[i + 1].0
  }

  predicate Holds(w: (int, int), t: int) {
    w.0 <= t < w.1
  }

  lemma {:induction false} EarlierEndsFirst(ws: seq<(int, int)>, i: nat, j: nat)
    requires EndToEnd(ws) && i < j < |ws|
    ensures ws[i].1 <= ws[j].0
    decreases j - i
  {
    if i + 1 < j { EarlierEndsFirst(ws, i + 1, j); }
  }

  lemma {:induction false} NoGap(ws: seq<(int, int)>, t: int)
    requires EndToEnd(ws) && ws != [] && ws[0].0 <= t < ws[|ws| - 1].1
    ensures exists i :: 0 <= i < |ws| && Holds(ws[i], t)
  {
    var last := |ws| - 1;
    if ws[last].0 <= t {
      assert Holds(ws[last], t);
    } else {
      NoGap(ws[..last], t);
      var i :| 0 <= i < last && Holds(ws[..last][i], t);
      assert Holds(ws[i], t);
    }
  }

  lemma HeldExactlyOnce(ws: seq<(int, int)>, t: int)
    requires EndToEnd(ws) && ws != []
    ensures (exists i :: 0 <= i < |ws| && Holds(ws[i], t)) <==> ws[0].0 <= t < ws[|ws| - 1].1
    ensures forall i, j :: 0 <= i < |ws| && 0 <= j < |ws| && Holds(ws[i], t) && Holds(ws[j], t) ==> i == j
  {
    if ws[0].0 <= t < ws[|ws| - 1].1 { NoGap(ws, t); }
    forall i | 0 <= i < |ws| && Holds(ws[i], t) ensures ws[0].0 <= t < ws[|ws| - 1].1 {
      if 0 < i { EarlierEndsFirst(ws, 0, i); }
      if i < |ws| - 1 { EarlierEndsFirst(ws, i, |ws| - 1); }
    }
    forall i, j | 0 <= i < j < |ws| && Holds(ws[i], t) && Holds(ws[j], t) ensures false {
      EarlierEndsFirst(ws, i, j);
    }
  }

  function Windows(ps: seq<SessionPacket>): (ws: seq<(int, int)>)
    requires Chain(ps)
    ensures |ws| == |ps| && (forall i :: 0 <= i < |ps| ==> ws[i] == Window(ps[i])) && EndToEnd(ws)
  {
    seq(|ps|, i requires 0 <= i < |ps| => Window(ps[i]))
  }

  lemma InWindowHolds(ps: seq<SessionPacket>, i: nat, at: string, t: int)
    requires Chain(ps) && i < |ps| && MomentOf(at) == Some(t)
    ensures InWindow(ps[i], at) <==> Holds(Windows(ps)[i], t)
  {
    ValidPacketWindow(ps[i]);
    WindowCheckIsChronological(ps[i], at);
  }

  ghost predicate SomeInWindow(ps: seq<SessionPacket>, at: string) {
    exists i :: 0 <= i < |ps| && InWindow(ps[i], at)
  }

  ghost predicate AtMostOneInWindow(ps: seq<SessionPacket>, at: string) {
    forall i, j :: 0 <= i < |ps| && 0 <= j < |ps| && InWindow(ps[i], at) && InWindow(ps[j], at) ==> i == j
  }

  /**
   * At every moment from the first start up to the last end exactly one packet's window check succeeds,
   * and at no other moment does any.
   */
  lemma ChainCoversExactlyOnce(ps: seq<SessionPacket>, at: string, t: int)
    requires Chain(ps) && ps != [] && MomentOf(at) == Some(t)
    ensures var ws := Windows(ps);
            (SomeInWindow(ps, at) <==> ws[0].0 <= t < ws[|ws| - 1].1) && AtMostOneInWindow(ps, at)
  {
    EveryWindowHolds(ps, at, t);
    TransferHolds(ps, Windows(ps), at, t);
  }

  lemma EveryWindowHolds(ps: seq<SessionPacket>, at: string, t: int)
    requires Chain(ps) && MomentOf(at) == Some(t)
    ensures EachHolds(ps, Windows(ps), at, t)
  {
    forall i | 0 <= i < |ps| ensures InWindow(ps[i], at) <==> Holds(Windows(ps)[i], t) {
      InWindowHolds(ps, i, at, t);
    }
  }

  /** Each packet's window check says whether its interval holds the moment. */
  ghost predicate EachHolds(ps: seq<SessionPacket>, ws: seq<(int, int)>, at: string, t: int) {
    |ws| == |ps| && forall i :: 0 <= i < |ps| ==> (InWindow(ps[i], at) <==> Holds(ws[i], t))
  }

  lemma TransferHolds(ps: seq<SessionPacket>, ws: seq<(int, int)>, at: string, t: int)
    requires EndToEnd(ws) && ws != [] && EachHolds(ps, ws, at, t)
    ensures SomeInWindow(ps, at) <==> ws[0].0 <= t < ws[|ws| - 1].1
    ensures AtMostOneInWindow(ps, at)
  {
    HeldExactlyOnce(ws, t);
    if i :| 0 <= i < |ws| && Holds(ws[i], t) { assert InWindow(ps[i], at); }
  }
}
