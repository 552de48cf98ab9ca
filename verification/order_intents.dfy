/** Deterministic order-intent identifiers and the idempotency gate built on them. */
module OrderIntents {
  import opened Text

  datatype Identity = Identity(
    deploymentInstanceId: string, decisionSequenceNumber: int, legId: string, side: string, intentPurpose: string)

  function DeterministicId(x: Identity): string {
    x.deploymentInstanceId + ":" + IntText(x.decisionSequenceNumber) + ":" + x.legId + ":" + x.side + ":"
      + x.intentPurpose
  }

  predicate ColonFree(s: string) {
    ':' !in s
  }

  /** The fields after the sequence number contain no separator. */
  predicate Plain(x: Identity) {
    ColonFree(x.legId) && ColonFree(x.side) && ColonFree(x.intentPurpose)
  }

  /** The last separator of a text splits it in only one way. */
  lemma LastSeparator(a: string, x: string, b: string, y: string)
    requires ColonFree(x) && ColonFree(y) && a + ":" + x == b + ":" + y
    ensures a == b && x == y
  {
    var s := a + ":" + x;
    assert s[|a|] == ':' && s[|b|] == ':';
    assert forall i :: |a| < i < |s| ==> s[i] == x[i - |a| - 1];
    assert forall i :: |b| < i < |s| ==> s[i] == y[i - |b| - 1];
    assert a == s[..|a|] && b == s[..|b|];
    assert x == s[|a| + 1..] && y == s[|b| + 1..];
  }

  lemma IntTextColonFree(n: int)
    ensures ColonFree(IntText(n))
  {
  }

  /** Equal ids mean equal identities, whatever the deployment id contains and whatever the sequence number is. */
  lemma IdInjective(x: Identity, y: Identity)
    requires Plain(x) && Plain(y) && DeterministicId(x) == DeterministicId(y)
    ensures x == y
  {
    var m, n := IntText(x.decisionSequenceNumber), IntText(y.decisionSequenceNumber);
    var x1, y1 := x.deploymentInstanceId + ":" + m, y.deploymentInstanceId + ":" + n;
    var x2, y2 := x1 + ":" + x.legId, y1 + ":" + y.legId;
    LastSeparator(x2 + ":" + x.side, x.intentPurpose, y2 + ":" + y.side, y.intentPurpose);
    LastSeparator(x2, x.side, y2, y.side);
    LastSeparator(x1, x.legId, y1, y.legId);
    IntTextColonFree(x.decisionSequenceNumber);
    IntTextColonFree(y.decisionSequenceNumber);
    LastSeparator(x.deploymentInstanceId, m, y.deploymentInstanceId, n);
    IntTextInjective(x.decisionSequenceNumber, y.decisionSequenceNumber);
  }

  lemma SplitAtColon(s: string) returns (before: string, after: string)
    requires !ColonFree(s)
    ensures s == before + ":" + after
  {
    var i :| 0 <= i < |s| && s[i] == ':';
    before, after := s[..i], s[i + 1..];
  }

  /** A separator inside leg, side or purpose always lets another identity claim the same id. */
  lemma ColonAllowsCollision(x: Identity) returns (y: Identity)
    requires !Plain(x)
    ensures y != x && DeterministicId(y) == DeterministicId(x)
  {
    var head := x.deploymentInstanceId + ":" + IntText(x.decisionSequenceNumber) + ":";
    if !ColonFree(x.intentPurpose) {
      var a, b := SplitAtColon(x.intentPurpose);
      y := x.(side := x.side + ":" + a, intentPurpose := b);
      calc {
        DeterministicId(y);
        head + x.legId + ":" + (x.side + ":" + a) + ":" + b;
        head + x.legId + ":" + x.side + ":" + (a + ":" + b);
        DeterministicId(x);
      }
    } else if !ColonFree(x.side) {
      var a, b := SplitAtColon(x.side);
      y := x.(legId := x.legId + ":" + a, side := b);
      calc {
        DeterministicId(y);
        head + (x.legId + ":" + a) + ":" + b + ":" + x.intentPurpose;
        head + x.legId + ":" + (a + ":" + b) + ":" + x.intentPurpose;
        DeterministicId(x);
      }
    } else {
      var a, b := SplitAtColon(x.legId);
      y := x.(legId := a, side := b + ":" + x.side);
      calc {
        DeterministicId(y);
        head + a + ":" + (b + ":" + x.side) + ":" + x.intentPurpose;
        head + (a + ":" + b) + ":" + x.side + ":" + x.intentPurpose;
        DeterministicId(x);
      }
    }
  }

  // ---------- Exactly which identities own their id ----------

  function Colons(s: string): nat {
    multiset(s)[':']
  }

  lemma ColonsAdd(a: string, b: string)
    ensures Colons(a + b) == Colons(a) + Colons(b)
  {
  }

  /** Everything up to the sequence number, and everything after it. */
  function Head(x: Identity): string {
    x.deploymentInstanceId + ":" + IntText(x.decisionSequenceNumber)
  }

  function Tail(x: Identity): string {
    x.legId + ":" + x.side + ":" + x.intentPurpose
  }

  lemma IdSplits(x: Identity)
    ensures DeterministicId(x) == Head(x) + ":" + Tail(x)
  {
  }

  /** The part after the sequence number has two separators when the identity is plain, else more. */
  lemma TailColons(x: Identity)
    ensures Plain(x) ==> Colons(Tail(x)) == 2
    ensures !Plain(x) ==> Colons(Tail(x)) > 2
  {
    ColonsAdd(x.legId + ":" + x.side + ":", x.intentPurpose);
    ColonsAdd(x.legId + ":" + x.side, ":");
    ColonsAdd(x.legId + ":", x.side);
    ColonsAdd(x.legId, ":");
  }

  /** A deployment id that starts like another deployment id with a sequence number behind it. */
  ghost predicate HidesSequence(deploymentInstanceId: string) {
    exists a: string, n: int, rest: string :: Hidden(deploymentInstanceId, a, n, rest)
  }

  predicate Hidden(d: string, a: string, n: int, rest: string) {
    d == a + ":" + IntText(n) + rest && (rest == "" || rest[0] == ':')
  }

  /** Of two ways to cut a text at a separator, the one with fewer separators behind it cuts later. */
  lemma LaterCut(a: string, x: string, b: string, y: string)
    requires a + ":" + x == b + ":" + y && Colons(x) < Colons(y)
    ensures |b| < |a| && a[..|b|] == b && a[|b|] == ':'
  {
    var s := a + ":" + x;
    assert x == s[|a| + 1..] && y == s[|b| + 1..];
    if |a| <= |b| {
      assert x == x[..|b| - |a|] + y;
      ColonsAdd(x[..|b| - |a|], y);
    }
    assert a == s[..|a|] && b == s[..|b|] && s[|b|] == ':';
  }

  /** If another identity has a plain identity's id, the plain one's deployment id hides the other's sequence number. */
  lemma SharedIdIsHidden(x: Identity, y: Identity)
    requires Plain(x) && DeterministicId(x) == DeterministicId(y) && x != y
    ensures HidesSequence(x.deploymentInstanceId)
  {
    if Plain(y) {
      IdInjective(x, y);
    } else {
      IdSplits(x);
      IdSplits(y);
      TailColons(x);
      TailColons(y);
      LaterCut(Head(x), Tail(x), Head(y), Tail(y));
      HeadIsHidden(x.deploymentInstanceId, x.decisionSequenceNumber, y.deploymentInstanceId, y.decisionSequenceNumber);
    }
  }

  /** A cut inside a deployment id and sequence number falls within the deployment id. */
  lemma HeadIsHidden(d: string, m: int, a: string, n: int)
    requires var head, cut := d + ":" + IntText(m), a + ":" + IntText(n);
             |cut| < |head| && head[..|cut|] == cut && head[|cut|] == ':'
    ensures HidesSequence(d)
  {
    var head, k := d + ":" + IntText(m), |a + ":" + IntText(n)|;
    IntTextColonFree(m);
    assert forall i :: |d| < i < |head| ==> head[i] == IntText(m)[i - |d| - 1];
    assert k <= |d|;
    assert d == head[..|d|];
    assert Hidden(d, a, n, d[k..]);
  }

  /** The leg that absorbs the hidden rest of the deployment id and the real sequence number. */
  function AbsorbingLeg(x: Identity, rest: string): string {
    (if rest == "" then "" else rest[1..] + ":") + IntText(x.decisionSequenceNumber) + ":" + x.legId
  }

  lemma LegAbsorbs(x: Identity, a: string, n: int, rest: string)
    requires Hidden(x.deploymentInstanceId, a, n, rest)
    ensures Head(x) + ":" + x.legId == a + ":" + IntText(n) + ":" + AbsorbingLeg(x, rest)
  {
    LegsAbsorb(x.deploymentInstanceId, a + ":" + IntText(n), rest, IntText(x.decisionSequenceNumber), x.legId);
  }

  lemma LegsAbsorb(d: string, front: string, rest: string, number: string, leg: string)
    requires d == front + rest && (rest == "" || rest[0] == ':')
    ensures d + ":" + number + ":" + leg ==
            front + ":" + ((if rest == "" then "" else rest[1..] + ":") + number + ":" + leg)
  {
    if rest == "" {
      assert d == front;
      Regroup(front + ":", "", number, leg);
      assert front + ":" + "" == front + ":";
    } else {
      assert d == front + ":" + rest[1..] by { assert rest == ":" + rest[1..]; }
      Regroup(front + ":", rest[1..] + ":", number, leg);
      assert front + ":" + rest[1..] + ":" == front + ":" + (rest[1..] + ":");
    }
  }

  lemma Regroup(a: string, b: string, c: string, d: string)
    ensures a + b + c + ":" + d == a + (b + c + ":" + d)
  {
  }

  lemma HiddenIsShared(x: Identity, a: string, n: int, rest: string) returns (y: Identity)
    requires Hidden(x.deploymentInstanceId, a, n, rest)
    ensures y != x && DeterministicId(y) == DeterministicId(x)
  {
    y := Identity(a, n, AbsorbingLeg(x, rest), x.side, x.intentPurpose);
    LegAbsorbs(x, a, n, rest);
    assert |a| < |x.deploymentInstanceId|;
  }

  /** No other identity has this one's id. */
  ghost predicate OwnsId(x: Identity) {
    forall y :: DeterministicId(y) == DeterministicId(x) ==> y == x
  }

  /**
   * An identity is the only one with its id exactly when leg, side and purpose are colon-free and the deployment id
   * does not contain a sequence number between separators, or at its end, that could be taken for the real one.
   */
  lemma OwnsIdIff(x: Identity)
    ensures OwnsId(x) <==> Plain(x) && !HidesSequence(x.deploymentInstanceId)
  {
    if !Plain(x) {
      var y := ColonAllowsCollision(x);
    } else if HidesSequence(x.deploymentInstanceId) {
      var a, n, rest :| Hidden(x.deploymentInstanceId, a, n, rest);
      var y := HiddenIsShared(x, a, n, rest);
    } else {
      forall y | DeterministicId(y) == DeterministicId(x) ensures y == x {
        if y != x { SharedIdIsHidden(x, y); }
      }
    }
  }

  /** A plain identity that does not own its id. */
  lemma PlainCanCollide() returns (x: Identity, y: Identity)
    ensures Plain(x) && x != y && DeterministicId(x) == DeterministicId(y)
  {
    x := Identity("d:1", 2, "l", "s", "p");
    assert Hidden("d:1", "d", 1, "");
    y := HiddenIsShared(x, "d", 1, "");
  }

  // ---------- The idempotency gate ----------

  /** `evidencePresent`: all six evidence texts hold more than white space. */
  datatype Scenario = Scenario(
    identity: Identity, observedOrderIntentId: string, persistedBeforeSubmit: bool,
    persistenceAtomicWithSubmit: bool, mappingPersisted: bool, evidencePresent: bool,
    duplicateFillCallbackSeen: bool, duplicateCallbackHandled: bool, operatorRetryReusesId: bool,
    ambiguousRecovery: bool, recoveryResendsMutation: bool)

  datatype Verdict =
    | ID_NONDETERMINISTIC | NOT_DURABLE_BEFORE_SUBMIT | MAPPING_NOT_DURABLE | EVIDENCE_INCOMPLETE
    | DUPLICATE_CALLBACK_NOT_IDEMPOTENT | OPERATOR_RETRY_BREAKS_IDEMPOTENCY
    | AMBIGUOUS_RECOVERY_REQUIRES_RECONCILIATION | IDEMPOTENCY_GUARDED

  function EvaluateIdempotency(s: Scenario): Verdict {
    if s.observedOrderIntentId != DeterministicId(s.identity) then ID_NONDETERMINISTIC
    else if !(s.persistedBeforeSubmit || s.persistenceAtomicWithSubmit) then NOT_DURABLE_BEFORE_SUBMIT
    else if !s.mappingPersisted then MAPPING_NOT_DURABLE
    else if !s.evidencePresent then EVIDENCE_INCOMPLETE
    else if s.duplicateFillCallbackSeen && !s.duplicateCallbackHandled then DUPLICATE_CALLBACK_NOT_IDEMPOTENT
    else if !s.operatorRetryReusesId then OPERATOR_RETRY_BREAKS_IDEMPOTENCY
    else if s.ambiguousRecovery && s.recoveryResendsMutation then AMBIGUOUS_RECOVERY_REQUIRES_RECONCILIATION
    else IDEMPOTENCY_GUARDED
  }

  /** Two guarded mutations observed under one id are retries of one and the same intent. */
  lemma GuardedMutationsShareIdentity(a: Scenario, b: Scenario)
    requires Plain(a.identity) && Plain(b.identity)
    requires EvaluateIdempotency(a) == IDEMPOTENCY_GUARDED && EvaluateIdempotency(b) == IDEMPOTENCY_GUARDED
    ensures a.observedOrderIntentId == b.observedOrderIntentId <==> a.identity == b.identity
  {
    if a.observedOrderIntentId == b.observedOrderIntentId { IdInjective(a.identity, b.identity); }
  }

  lemma TwelveWritten()
    ensures IntText(-12) == "-12" && IntText(0) == "0"
  {
    assert NatText(12) == NatText(1) + "2" && NatText(1) == "1" && NatText(0) == "0";
  }

  /** The order of the parts and what stands between them. */
  lemma IdExample()
    ensures DeterministicId(Identity("live:7", -12, "leg", "buy", "entry")) == "live:7:-12:leg:buy:entry"
  {
    TwelveWritten();
    assert "live:7" + ":" + "-12" + ":" + "leg" + ":" + "buy" + ":" + "entry" == "live:7:-12:leg:buy:entry";
  }

  /** The observed id is the identity's own, part by part. */
  predicate IdMatches(s: Scenario) {
    var x := s.identity;
    s.observedOrderIntentId ==
      x.deploymentInstanceId + ":" + IntText(x.decisionSequenceNumber) + ":" + x.legId + ":" + x.side + ":"
      + x.intentPurpose
  }

  predicate Durable(s: Scenario) {
    s.persistedBeforeSubmit || s.persistenceAtomicWithSubmit
  }

  /** A mutation is guarded exactly when all seven tests are met; otherwise the first that is not met is named. */
  lemma VerdictNamesFirstUnmet(s: Scenario)
    ensures var v := EvaluateIdempotency(s);
            && (v == IDEMPOTENCY_GUARDED <==>
                 && IdMatches(s) && Durable(s) && s.mappingPersisted && s.evidencePresent
                 && (s.duplicateFillCallbackSeen ==> s.duplicateCallbackHandled) && s.operatorRetryReusesId
                 && !(s.ambiguousRecovery && s.recoveryResendsMutation))
            && (v == ID_NONDETERMINISTIC <==> !IdMatches(s))
            && (v == NOT_DURABLE_BEFORE_SUBMIT <==> IdMatches(s) && !Durable(s))
            && (v == MAPPING_NOT_DURABLE <==> IdMatches(s) && Durable(s) && !s.mappingPersisted)
            && (v == EVIDENCE_INCOMPLETE <==>
                 IdMatches(s) && Durable(s) && s.mappingPersisted && !s.evidencePresent)
            && (v == DUPLICATE_CALLBACK_NOT_IDEMPOTENT <==>
                 IdMatches(s) && Durable(s) && s.mappingPersisted && s.evidencePresent
                 && s.duplicateFillCallbackSeen && !s.duplicateCallbackHandled)
            && (v == OPERATOR_RETRY_BREAKS_IDEMPOTENCY <==>
                 IdMatches(s) && Durable(s) && s.mappingPersisted && s.evidencePresent
                 && (s.duplicateFillCallbackSeen ==> s.duplicateCallbackHandled) && !s.operatorRetryReusesId)
  {
  }
}
