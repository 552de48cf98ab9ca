/** Baseline risk controls: nine checks, waivers, and the arbitration between the actions they call for. */
module Risk {
  import opened Outcomes
  import opened Timestamps
  import opened Waivers
  import Text

  datatype Action = ALLOW | ALLOW_WITH_WAIVER | RESTRICT | EXIT_ONLY | FLATTEN | HALT

  function Severity(a: Action): nat {
    match a
    case ALLOW => 0
    case ALLOW_WITH_WAIVER => 0
    case RESTRICT => 1
    case EXIT_ONLY => 2
    case FLATTEN => 3
    case HALT => 4
  }

  datatype Control =
    | MaxPositionLimit | MaxConcurrentOrderIntents | DegradedDataEntrySuppression | DailyLossLockout
    | MaxDrawdownFlatten | DeliveryFenceForcedFlat | WarmupHold | MarginPretradeCheck | OvernightApproval

  /** The order in which the controls are evaluated, which breaks ties. */
  const CONTROLS: seq<Control> := [
    MaxPositionLimit, MaxConcurrentOrderIntents, DegradedDataEntrySuppression, DailyLossLockout,
    MaxDrawdownFlatten, DeliveryFenceForcedFlat, WarmupHold, MarginPretradeCheck, OvernightApproval]

  function ControlId(c: Control): string {
    match c
    case MaxPositionLimit => "max_position_limit"
    case MaxConcurrentOrderIntents => "max_concurrent_order_intents"
    case DegradedDataEntrySuppression => "degraded_data_entry_suppression"
    case DailyLossLockout => "daily_loss_lockout"
    case MaxDrawdownFlatten => "max_drawdown_flatten"
    case DeliveryFenceForcedFlat => "delivery_fence_forced_flat"
    case WarmupHold => "warmup_hold"
    case MarginPretradeCheck => "margin_pretrade_check"
    case OvernightApproval => "overnight_approval"
  }

  const OVERNIGHT_STRICT := "overnight_strict"

  /** What the strategy contract asks for before a first trade. */
  datatype Warmup = Warmup(minHistoryBars: int, minHistoryMinutes: int, requiresStateSeed: bool)

  datatype Request = Request(
    productProfileId: string, accountProfileId: string, warmup: Warmup, schemaVersion: int,
    currentPositionSize: int, projectedPositionSize: int, pendingOrderIntentCount: int,
    dataQualityDegraded: bool, proposedOrderIncreasesRisk: bool, dailyLossFraction: real, drawdownFraction: real,
    deliveryWindowActive: bool, warmupBarsObserved: int, warmupMinutesObserved: int, stateSeedLoaded: bool,
    requestedInitialMarginFraction: real, requestedMaintenanceMarginFraction: real,
    requestedOperatingPosture: string, overnightRequested: bool, overnightApprovalGranted: bool,
    waivers: seq<Waiver>, evaluatedAtUtc: Option<string>)

  datatype Account = Account(
    maxPositionSizeBySymbol: map<string, int>, dailyLossLockoutFraction: real, maxDrawdownFraction: real,
    maxInitialMarginFraction: real, maxMaintenanceMarginFraction: real, overnightOnlyWithStrictClass: bool)

  /** What surrounds an evaluation: the catalogued profiles (of a product, its symbol), the clock and the local zone. */
  datatype Context = Context(
    products: map<string, string>, accounts: map<string, Account>, postures: set<string>, now: Moment, zone: Zone)

  /** The time waivers are judged at: the request's, or the clock's when the request has none. */
  function TimeOf(q: Request, k: Context): string {
    if q.evaluatedAtUtc.Some? && q.evaluatedAtUtc.value != "" then q.evaluatedAtUtc.value else CanonicalText(k.now)
  }

  /** The limits a request inherits from its product, account and strategy contract. */
  datatype Defaults = Defaults(
    maxPositionSize: int, maxConcurrentOrderIntents: int, dailyLossLockoutFraction: real, maxDrawdownFraction: real,
    maxInitialMarginFraction: real, maxMaintenanceMarginFraction: real, overnightOnlyWithStrictClass: bool,
    warmup: Warmup)

  /** Looking up a limit the account does not have for the product's symbol raises a KeyError. */
  function InheritedDefaults(q: Request, k: Context): Outcome<Defaults> {
    if q.productProfileId !in k.products || q.accountProfileId !in k.accounts then Raises(LookupFailed)
    else
      var symbol, a := k.products[q.productProfileId], k.accounts[q.accountProfileId];
      if symbol !in a.maxPositionSizeBySymbol then Raises(LookupFailed)
      else
        var size := a.maxPositionSizeBySymbol[symbol];
        Returns(Defaults(size, if size > 1 then size else 1, a.dailyLossLockoutFraction, a.maxDrawdownFraction,
          a.maxInitialMarginFraction, a.maxMaintenanceMarginFraction, a.overnightOnlyWithStrictClass, q.warmup))
  }

  /** What a request is judged by: its inherited limits and the waivers' activity. */
  datatype Policy = Policy(defaults: Defaults, check: Check)

  function Abs(n: int): nat {
    if n < 0 then -n else n
  }

  // ---------- The nine controls ----------

  predicate StrictPostureMissing(q: Request, d: Defaults) {
    d.overnightOnlyWithStrictClass && q.requestedOperatingPosture != OVERNIGHT_STRICT
  }

  predicate Triggered(c: Control, q: Request, d: Defaults) {
    var current, projected := Abs(q.currentPositionSize), Abs(q.projectedPositionSize);
    match c
    case MaxPositionLimit => projected > d.maxPositionSize || current > d.maxPositionSize
    case MaxConcurrentOrderIntents => q.pendingOrderIntentCount > d.maxConcurrentOrderIntents
    case DegradedDataEntrySuppression => q.dataQualityDegraded && q.proposedOrderIncreasesRisk
    case DailyLossLockout => q.dailyLossFraction >= d.dailyLossLockoutFraction
    case MaxDrawdownFlatten => q.drawdownFraction >= d.maxDrawdownFraction
    case DeliveryFenceForcedFlat => q.deliveryWindowActive && projected > 0
    case WarmupHold =>
      current == 0 && projected > 0 &&
      (q.warmupBarsObserved < d.warmup.minHistoryBars || q.warmupMinutesObserved < d.warmup.minHistoryMinutes
       || (d.warmup.requiresStateSeed && !q.stateSeedLoaded))
    case MarginPretradeCheck =>
      q.requestedInitialMarginFraction > d.maxInitialMarginFraction
      || q.requestedMaintenanceMarginFraction > d.maxMaintenanceMarginFraction
    case OvernightApproval => q.overnightRequested && (!q.overnightApprovalGranted || StrictPostureMissing(q, d))
  }

  function ActionOf(c: Control, q: Request, d: Defaults): Action {
    var current := Abs(q.currentPositionSize);
    match c
    case MaxPositionLimit => if current > d.maxPositionSize then EXIT_ONLY else RESTRICT
    case MaxConcurrentOrderIntents => RESTRICT
    case DegradedDataEntrySuppression => RESTRICT
    case DailyLossLockout => EXIT_ONLY
    case MaxDrawdownFlatten => FLATTEN
    case DeliveryFenceForcedFlat => if current > 0 then FLATTEN else RESTRICT
    case WarmupHold => RESTRICT
    case MarginPretradeCheck => HALT
    case OvernightApproval => if current > 0 then EXIT_ONLY else RESTRICT
  }

  function ReasonOf(c: Control, q: Request, d: Defaults): string {
    match c
    case MaxPositionLimit => "BASELINE_RISK_POSITION_LIMIT_EXCEEDED"
    case MaxConcurrentOrderIntents => "BASELINE_RISK_CONCURRENT_ORDER_INTENT_LIMIT_EXCEEDED"
    case DegradedDataEntrySuppression => "BASELINE_RISK_DATA_DEGRADED_ENTRY_SUPPRESSION"
    case DailyLossLockout => "BASELINE_RISK_DAILY_LOSS_LOCKOUT"
    case MaxDrawdownFlatten => "BASELINE_RISK_MAX_DRAWDOWN"
    case DeliveryFenceForcedFlat => "BASELINE_RISK_DELIVERY_FENCE_FLATTEN"
    case WarmupHold => "BASELINE_RISK_WARMUP_HOLD"
    case MarginPretradeCheck => "BASELINE_RISK_MARGIN_LIMIT"
    case OvernightApproval =>
      if q.overnightRequested && StrictPostureMissing(q, d)
      then "BASELINE_RISK_OVERNIGHT_STRICT_POSTURE_REQUIRED"
      else "BASELINE_RISK_OVERNIGHT_APPROVAL_REQUIRED"
  }

  // ---------- Waiving ----------

  predicate Waived(c: Control, q: Request, k: Policy) {
    exists w :: w in q.waivers && Matches(w, ControlId(c), ReasonOf(c, q, k.defaults), k.check)
  }

  predicate Fires(c: Control, q: Request, k: Policy) {
    Triggered(c, q, k.defaults) && !Waived(c, q, k)
  }

  // ---------- Evaluation ----------

  datatype Status = PASS | INVALID | VIOLATION

  datatype Result = Result(control: Control, passed: bool, waived: bool, action: Action, reason: Option<string>,
    waiverReferences: seq<string>)

  datatype FieldName =
    | SCHEMA_VERSION | PRODUCT_PROFILE_ID | ACCOUNT_PROFILE_ID | PENDING_ORDER_INTENT_COUNT | WARMUP_BARS_OBSERVED
    | WARMUP_MINUTES_OBSERVED | DAILY_LOSS_FRACTION | DRAWDOWN_FRACTION | REQUESTED_INITIAL_MARGIN_FRACTION
    | REQUESTED_MAINTENANCE_MARGIN_FRACTION | REQUESTED_OPERATING_POSTURE

  datatype Report = Report(status: Status, reason: string, action: Action, missingFields: seq<FieldName>,
    triggered: seq<Control>, waiverReferences: seq<string>)

  function ControlResult(c: Control, q: Request, k: Policy): Result {
    var d := k.defaults;
    if !Triggered(c, q, d) then Result(c, true, false, ALLOW, None, [])
    else
      var ids := Text.SortedSet(MatchingIds(q.waivers, ControlId(c), ReasonOf(c, q, d), k.check));
      Result(c, false, ids != [], ActionOf(c, q, d), Some(ReasonOf(c, q, d)), ids)
  }

  /** A triggered control asks the waivers, which may raise. */
  function ControlOutcome(c: Control, q: Request, k: Policy): Outcome<Result> {
    var error := FirstError(q.waivers, k.check);
    if Triggered(c, q, k.defaults) && error.Some? then Raises(error.value) else Returns(ControlResult(c, q, k))
  }

  method EvaluateControl(c: Control, q: Request, d: Defaults, at: string, zone: Zone) returns (r: Outcome<Result>)
    ensures r == ControlOutcome(c, q, Policy(d, CheckAt(at, zone)))
  {
    if !Triggered(c, q, d) {
      return Returns(Result(c, true, false, ALLOW, None, []));
    }
    var ids :- MatchingWaiverIds(q.waivers, ControlId(c), ReasonOf(c, q, d), at, zone);
    r := Returns(Result(c, false, ids != [], ActionOf(c, q, d), Some(ReasonOf(c, q, d)), ids));
  }

  /** The controls one after the other; the first exception ends the evaluation. */
  function ControlOutcomes(cs: seq<Control>, q: Request, k: Policy): Outcome<seq<Result>> {
    if cs == [] then Returns([])
    else
      var front :- ControlOutcomes(cs[..|cs| - 1], q, k);
      var last :- ControlOutcome(cs[|cs| - 1], q, k);
      Returns(front + [last])
  }

  /** The nine controls, in order. */
  method EvaluateControls(q: Request, d: Defaults, at: string, zone: Zone) returns (r: Outcome<seq<Result>>)
    ensures r == ControlOutcomes(CONTROLS, q, Policy(d, CheckAt(at, zone)))
  {
    ghost var k := Policy(d, CheckAt(at, zone));
    var results := [];
    for i := 0 to |CONTROLS|
      invariant ControlOutcomes(CONTROLS[..i], q, k) == Returns(results)
    {
      assert CONTROLS[..i + 1][..i] == CONTROLS[..i];
      var result := EvaluateControl(CONTROLS[i], q, d, at, zone);
      if result.Raises? {
        ExceptionSticks(CONTROLS, i + 1, q, k);
        return Raises(result.error);
      }
      results := results + [result.value];
    }
    assert CONTROLS[..|CONTROLS|] == CONTROLS;
    r := Returns(results);
  }

  lemma {:induction false} ExceptionSticks(cs: seq<Control>, n: nat, q: Request, k: Policy)
    requires n <= |cs| && ControlOutcomes(cs[..n], q, k).Raises?
    ensures ControlOutcomes(cs, q, k) == ControlOutcomes(cs[..n], q, k)
  {
    if n == |cs| {
      assert cs[..n] == cs;
    } else {
      assert cs[..|cs| - 1][..n] == cs[..n];
      ExceptionSticks(cs[..|cs| - 1], n, q, k);
    }
  }

  function InvalidBindings(q: Request, k: Context): seq<FieldName> {
    var m := Note([], q.schemaVersion != 1, SCHEMA_VERSION);
    var m := Note(m, q.productProfileId !in k.products, PRODUCT_PROFILE_ID);
    Note(m, q.accountProfileId !in k.accounts, ACCOUNT_PROFILE_ID)
  }

  function InvalidCounts(m: seq<FieldName>, q: Request): seq<FieldName> {
    var m := Note(m, q.pendingOrderIntentCount < 0, PENDING_ORDER_INTENT_COUNT);
    var m := Note(m, q.warmupBarsObserved < 0, WARMUP_BARS_OBSERVED);
    Note(m, q.warmupMinutesObserved < 0, WARMUP_MINUTES_OBSERVED)
  }

  function InvalidFractions(m: seq<FieldName>, q: Request): seq<FieldName> {
    var m := Note(m, q.dailyLossFraction < 0.0, DAILY_LOSS_FRACTION);
    var m := Note(m, q.drawdownFraction < 0.0, DRAWDOWN_FRACTION);
    var m := Note(m, q.requestedInitialMarginFraction < 0.0, REQUESTED_INITIAL_MARGIN_FRACTION);
    Note(m, q.requestedMaintenanceMarginFraction < 0.0, REQUESTED_MAINTENANCE_MARGIN_FRACTION)
  }

  /** The names, in order, of the request fields that make it invalid. */
  function InvalidFields(q: Request, k: Context): seq<FieldName> {
    Note(InvalidFractions(InvalidCounts(InvalidBindings(q, k), q), q),
      q.requestedOperatingPosture !in k.postures, REQUESTED_OPERATING_POSTURE)
  }

  method CollectInvalidFields(q: Request, k: Context) returns (missing: seq<FieldName>)
    ensures missing == InvalidFields(q, k)
  {
    missing := [];
    if q.schemaVersion != 1 { missing := missing + [SCHEMA_VERSION]; }
    if q.productProfileId !in k.products { missing := missing + [PRODUCT_PROFILE_ID]; }
    if q.accountProfileId !in k.accounts { missing := missing + [ACCOUNT_PROFILE_ID]; }
    assert missing == InvalidBindings(q, k);
    missing := CollectInvalidCounts(missing, q);
    missing := CollectInvalidFractions(missing, q);
    if q.requestedOperatingPosture !in k.postures { missing := missing + [REQUESTED_OPERATING_POSTURE]; }
  }

  method CollectInvalidCounts(before: seq<FieldName>, q: Request) returns (missing: seq<FieldName>)
    ensures missing == InvalidCounts(before, q)
  {
    missing := before;
    if q.pendingOrderIntentCount < 0 { missing := missing + [PENDING_ORDER_INTENT_COUNT]; }
    if q.warmupBarsObserved < 0 { missing := missing + [WARMUP_BARS_OBSERVED]; }
    if q.warmupMinutesObserved < 0 { missing := missing + [WARMUP_MINUTES_OBSERVED]; }
  }

  method CollectInvalidFractions(before: seq<FieldName>, q: Request) returns (missing: seq<FieldName>)
    ensures missing == InvalidFractions(before, q)
  {
    missing := before;
    if q.dailyLossFraction < 0.0 { missing := missing + [DAILY_LOSS_FRACTION]; }
    if q.drawdownFraction < 0.0 { missing := missing + [DRAWDOWN_FRACTION]; }
    if q.requestedInitialMarginFraction < 0.0 { missing := missing + [REQUESTED_INITIAL_MARGIN_FRACTION]; }
    if q.requestedMaintenanceMarginFraction < 0.0 {
      missing := missing + [REQUESTED_MAINTENANCE_MARGIN_FRACTION];
    }
  }

  function ResultsOf(cs: seq<Control>, q: Request, k: Policy): seq<Result> {
    seq(|cs|, i requires 0 <= i < |cs| => ControlResult(cs[i], q, k))
  }

  function Results(q: Request, k: Policy): seq<Result> {
    ResultsOf(CONTROLS, q, k)
  }

  predicate Unwaived(r: Result) {
    !r.passed && !r.waived
  }

  /** The first most severe unwaived result, as Python's `max` with a key. */
  function Dominant(rs: seq<Result>): Option<Result> {
    if rs == [] then None
    else
      var best, r := Dominant(rs[..|rs| - 1]), rs[|rs| - 1];
      if !Unwaived(r) then best
      else if best.None? || Severity(r.action) > Severity(best.value.action) then Some(r)
      else best
  }

  function TriggeredControls(rs: seq<Result>): seq<Control> {
    if rs == [] then []
    else TriggeredControls(rs[..|rs| - 1]) + if rs[|rs| - 1].passed then [] else [rs[|rs| - 1].control]
  }

  function WaiverReferences(rs: seq<Result>): seq<string> {
    if rs == [] then [] else WaiverReferences(rs[..|rs| - 1]) + rs[|rs| - 1].waiverReferences
  }

  /** The report on a request whose fields are all valid. */
  function Arbitrate(rs: seq<Result>): Report {
    var triggered, references := TriggeredControls(rs), Text.SortedSet(WaiverReferences(rs));
    var dominant := Dominant(rs);
    if dominant.Some? then
      var reason :=
        if dominant.value.reason.Some? then dominant.value.reason.value else "BASELINE_RISK_VIOLATION";
      Report(VIOLATION, reason, dominant.value.action, [], triggered, references)
    else if triggered != [] then
      Report(PASS, "BASELINE_RISK_ALLOW_WITH_WAIVER", ALLOW_WITH_WAIVER, [], triggered, references)
    else
      Report(PASS, "BASELINE_RISK_ALLOW", ALLOW, [], [], [])
  }

  predicate ValidRequest(q: Request, k: Context) {
    q.schemaVersion == 1 && q.productProfileId in k.products && q.accountProfileId in k.accounts
    && q.pendingOrderIntentCount >= 0 && q.warmupBarsObserved >= 0 && q.warmupMinutesObserved >= 0
    && q.dailyLossFraction >= 0.0 && q.drawdownFraction >= 0.0 && q.requestedInitialMarginFraction >= 0.0
    && q.requestedMaintenanceMarginFraction >= 0.0 && q.requestedOperatingPosture in k.postures
  }

  lemma NothingInvalid(q: Request, k: Context)
    ensures InvalidFields(q, k) == [] <==> ValidRequest(q, k)
  {
  }

  /** The request is valid and its account has a limit for its product's symbol. */
  predicate Evaluable(q: Request, k: Context) {
    ValidRequest(q, k)
    && k.products[q.productProfileId] in k.accounts[q.accountProfileId].maxPositionSizeBySymbol
  }

  function PolicyOf(q: Request, k: Context): Policy
    requires Evaluable(q, k)
  {
    Policy(InheritedDefaults(q, k).value, CheckAt(TimeOf(q, k), k.zone))
  }

  ghost predicate AnyTriggered(q: Request, d: Defaults) {
    exists c :: Triggered(c, q, d)
  }

  /** Some listed waiver expires, and its expiry or the evaluation time is not a timestamp in range. */
  ghost predicate AnyUnreadable(q: Request, k: Context) {
    exists w :: w in q.waivers && Unreadable(w, TimeOf(q, k), k.zone)
  }

  /** Nothing stands in the way of a judgement: there are limits, and no control asks a waiver that cannot be read. */
  ghost predicate Judgeable(q: Request, k: Context) {
    Evaluable(q, k) && (AnyTriggered(q, PolicyOf(q, k).defaults) ==> !AnyUnreadable(q, k))
  }

  function Evaluate(q: Request, k: Context): Outcome<Report> {
    var missing := InvalidFields(q, k);
    if missing != [] then Returns(Report(INVALID, "BASELINE_RISK_INVALID", HALT, missing, [], []))
    else
      var defaults :- InheritedDefaults(q, k);
      var results :- ControlOutcomes(CONTROLS, q, Policy(defaults, CheckAt(TimeOf(q, k), k.zone)));
      Returns(Arbitrate(results))
  }

  ghost predicate SomeTriggers(cs: seq<Control>, q: Request, d: Defaults) {
    exists c :: c in cs && Triggered(c, q, d)
  }

  lemma {:induction false} OutcomesOf(cs: seq<Control>, q: Request, k: Policy)
    ensures var error := FirstError(q.waivers, k.check);
            ControlOutcomes(cs, q, k) ==
              if error.Some? && SomeTriggers(cs, q, k.defaults) then Raises(error.value)
              else Returns(ResultsOf(cs, q, k))
  {
    if cs == [] {
      assert ResultsOf(cs, q, k) == [];
    } else {
      OutcomesOf(cs[..|cs| - 1], q, k);
      SomeTriggersLast(cs, q, k.defaults);
      ResultsOfLast(cs, q, k);
    }
  }

  lemma SomeTriggersLast(cs: seq<Control>, q: Request, d: Defaults)
    requires cs != []
    ensures SomeTriggers(cs, q, d) <==> SomeTriggers(cs[..|cs| - 1], q, d) || Triggered(cs[|cs| - 1], q, d)
  {
    assert cs == cs[..|cs| - 1] + [cs[|cs| - 1]];
  }

  lemma ResultsOfLast(cs: seq<Control>, q: Request, k: Policy)
    requires cs != []
    ensures ResultsOf(cs, q, k) == ResultsOf(cs[..|cs| - 1], q, k) + [ControlResult(cs[|cs| - 1], q, k)]
  {
  }

  /** The controls raise exactly when one triggers and a waiver raises; then they raise what the first waiver does. */
  lemma OutcomesOfControls(q: Request, k: Policy)
    ensures var error := FirstError(q.waivers, k.check);
            ControlOutcomes(CONTROLS, q, k) ==
              if error.Some? && AnyTriggered(q, k.defaults) then Raises(error.value) else Returns(Results(q, k))
  {
    OutcomesOf(CONTROLS, q, k);
    if c :| Triggered(c, q, k.defaults) { EveryControlListed(c); }
  }

  /** How an evaluation ends: refused, raised, or judged by the controls under the inherited limits. */
  lemma EvaluationCases(q: Request, k: Context)
    ensures !ValidRequest(q, k) ==>
              Evaluate(q, k) == Returns(Report(INVALID, "BASELINE_RISK_INVALID", HALT, InvalidFields(q, k), [], []))
    ensures ValidRequest(q, k) && !Evaluable(q, k) ==> Evaluate(q, k) == Raises(LookupFailed)
    ensures Evaluable(q, k) && !Judgeable(q, k) ==>
              FirstError(q.waivers, PolicyOf(q, k).check).Some? &&
              Evaluate(q, k) == Raises(FirstError(q.waivers, PolicyOf(q, k).check).value)
    ensures Judgeable(q, k) ==> Evaluate(q, k) == Returns(Arbitrate(Results(q, PolicyOf(q, k))))
  {
    NothingInvalid(q, k);
    CheckRaisesIff(q.waivers, TimeOf(q, k), k.zone);
    if Evaluable(q, k) { OutcomesOfControls(q, PolicyOf(q, k)); }
  }

  /**
   * An exception escapes exactly from valid requests whose account has no limit for the product's symbol, or on which
   * a control triggers while some listed waiver cannot be read.
   */
  lemma RaisesIff(q: Request, k: Context)
    ensures Evaluate(q, k).Raises? <==>
            ValidRequest(q, k)
            && (!Evaluable(q, k) || (AnyTriggered(q, PolicyOf(q, k).defaults) && AnyUnreadable(q, k)))
  {
    EvaluationCases(q, k);
  }

  /** Waiver `i` is the first listed waiver that cannot be read. */
  ghost predicate FirstUnreadable(q: Request, k: Context, i: int) {
    0 <= i < |q.waivers| && Unreadable(q.waivers[i], TimeOf(q, k), k.zone)
    && forall j :: 0 <= j < i ==> !Unreadable(q.waivers[j], TimeOf(q, k), k.zone)
  }

  /** A missing limit is a KeyError; an unreadable waiver gives what the first such waiver raises. */
  lemma WhatIsRaised(q: Request, k: Context, i: int)
    requires Evaluate(q, k).Raises?
    ensures !Evaluable(q, k) <==> Evaluate(q, k).error == LookupFailed
    ensures Evaluable(q, k) && FirstUnreadable(q, k, i) ==>
              IsActive(q.waivers[i], TimeOf(q, k), k.zone) == Raises(Evaluate(q, k).error)
  {
    var at := TimeOf(q, k);
    var check := CheckAt(at, k.zone);
    EvaluationCases(q, k);
    FirstErrorIff(q.waivers, check);
    forall w ensures check(w).Raises? <==> Unreadable(w, at, k.zone)
      ensures check(w).Raises? ==> check(w).error != LookupFailed
    {
      CheckRaises(w, at, k.zone);
    }
    if Evaluable(q, k) { FirstErrorFromWaiver(q.waivers, check); }
    if FirstUnreadable(q, k, i) { assert FirstToRaise(q.waivers, i, check); }
  }

  method EvaluateBaselineRiskControls(q: Request, k: Context) returns (r: Outcome<Report>)
    ensures r == Evaluate(q, k)
    ensures r.Raises? <==>
            ValidRequest(q, k)
            && (!Evaluable(q, k) || (AnyTriggered(q, PolicyOf(q, k).defaults) && AnyUnreadable(q, k)))
    ensures r.Returns? && r.value.status == INVALID <==> !ValidRequest(q, k)
    ensures r.Returns? && r.value.status == VIOLATION <==> Judgeable(q, k) && exists c :: Fires(c, q, PolicyOf(q, k))
  {
    var missing := CollectInvalidFields(q, k);
    EvaluationCases(q, k);
    NothingInvalid(q, k);
    if missing != [] {
      return Returns(Report(INVALID, "BASELINE_RISK_INVALID", HALT, missing, [], []));
    }
    var defaults :- InheritedDefaults(q, k);
    var results :- EvaluateControls(q, defaults, TimeOf(q, k), k.zone);
    r := Returns(Arbitrate(results));
    ViolationIffFires(q, PolicyOf(q, k));
  }

  lemma ViolationIffFires(q: Request, k: Policy)
    ensures var report := Arbitrate(Results(q, k));
            && report.status != INVALID
            && (report.status == VIOLATION <==> exists c :: Fires(c, q, k))
  {
    var top := JudgementIsMostSevereEarliest(q, k);
  }

  // ---------- The dominant control ----------

  /** `i` is the first unwaived result of maximal severity. */
  ghost predicate FirstMostSevere(rs: seq<Result>, i: int) {
    0 <= i < |rs| && Unwaived(rs[i])
    && (forall j :: 0 <= j < |rs| && Unwaived(rs[j]) ==> Severity(rs[j].action) <= Severity(rs[i].action))
    && (forall j :: 0 <= j < i && Unwaived(rs[j]) ==> Severity(rs[j].action) < Severity(rs[i].action))
  }

  lemma {:induction false} DominantIsFirstMostSevere(rs: seq<Result>) returns (i: int)
    ensures Dominant(rs).Some? ==> FirstMostSevere(rs, i) && Dominant(rs).value == rs[i]
    ensures Dominant(rs).None? ==> forall j :: 0 <= j < |rs| ==> !Unwaived(rs[j])
  {
    i := -1;
    if rs != [] {
      var n := |rs| - 1;
      i := DominantIsFirstMostSevere(rs[..n]);
      assert forall j :: 0 <= j < n ==> rs[..n][j] == rs[j];
      if Dominant(rs) != Dominant(rs[..n]) { i := n; }
      else if Unwaived(rs[n]) && Dominant(rs[..n]) == Some(rs[n]) {
        assert Severity(rs[n].action) <= Severity(rs[i].action);
      }
    }
  }

  lemma UnwaivedIffFires(c: Control, q: Request, k: Policy)
    ensures Unwaived(ControlResult(c, q, k)) <==> Fires(c, q, k)
  {
    IdsIffMatch(q.waivers, ControlId(c), ReasonOf(c, q, k.defaults), k.check);
  }

  function Rank(c: Control): nat {
    match c
    case MaxPositionLimit => 0
    case MaxConcurrentOrderIntents => 1
    case DegradedDataEntrySuppression => 2
    case DailyLossLockout => 3
    case MaxDrawdownFlatten => 4
    case DeliveryFenceForcedFlat => 5
    case WarmupHold => 6
    case MarginPretradeCheck => 7
    case OvernightApproval => 8
  }

  lemma RankLocates(c: Control)
    ensures Rank(c) < |CONTROLS| && CONTROLS[Rank(c)] == c
  {
  }

  lemma EveryControlListed(c: Control)
    ensures c in CONTROLS
  {
    RankLocates(c);
  }

  lemma RankOfControl(i: nat)
    requires i < |CONTROLS|
    ensures Rank(CONTROLS[i]) == i
  {
  }

  /** The result of control `c` in the tuple of results. */
  lemma ResultOf(c: Control, q: Request, k: Policy)
    ensures Rank(c) < |Results(q, k)| && Results(q, k)[Rank(c)] == ControlResult(c, q, k)
    ensures Unwaived(Results(q, k)[Rank(c)]) <==> Fires(c, q, k)
  {
    RankLocates(c);
    UnwaivedIffFires(c, q, k);
  }

  lemma {:induction false} TriggeredMembers(rs: seq<Result>, c: Control)
    ensures c in TriggeredControls(rs) <==> exists i :: 0 <= i < |rs| && !rs[i].passed && rs[i].control == c
  {
    if rs != [] {
      var n := |rs| - 1;
      TriggeredMembers(rs[..n], c);
      assert forall i :: 0 <= i < n ==> rs[..n][i] == rs[i];
    }
  }

  lemma ResultControl(c: Control, q: Request, k: Policy)
    ensures ControlResult(c, q, k).control == c
    ensures ControlResult(c, q, k).passed <==> !Triggered(c, q, k.defaults)
  {
  }

  lemma TriggeredAreTriggers(q: Request, k: Policy, c: Control)
    ensures c in TriggeredControls(Results(q, k)) <==> Triggered(c, q, k.defaults)
  {
    var rs := Results(q, k);
    TriggeredMembers(rs, c);
    if Triggered(c, q, k.defaults) {
      RankLocates(c);
      ResultControl(c, q, k);
      assert !rs[Rank(c)].passed && rs[Rank(c)].control == c;
    }
    forall i | 0 <= i < |rs| && !rs[i].passed && rs[i].control == c ensures Triggered(c, q, k.defaults) {
      ResultControl(CONTROLS[i], q, k);
    }
  }

  lemma SomeTriggered(q: Request, k: Policy)
    ensures TriggeredControls(Results(q, k)) != [] <==> exists o :: Triggered(o, q, k.defaults)
  {
    var triggered := TriggeredControls(Results(q, k));
    forall o ensures o in triggered <==> Triggered(o, q, k.defaults) { TriggeredAreTriggers(q, k, o); }
    if triggered != [] { assert triggered[0] in triggered; }
  }

  /**
   * `c`, if any, is the earliest control among the most severe that fire unwaived, and the report carries its action
   * and reason; the report passes exactly when none fires, noting a waiver exactly when some control triggered.
   */
  ghost predicate Decided(r: Report, top: Option<Control>, q: Request, k: Policy) {
    match top
    case Some(c) =>
      && Fires(c, q, k) && r.status == VIOLATION
      && r.action == ActionOf(c, q, k.defaults) && r.reason == ReasonOf(c, q, k.defaults)
      && (forall o :: Fires(o, q, k) ==> Severity(ActionOf(o, q, k.defaults)) <= Severity(r.action))
      && (forall o :: Fires(o, q, k) && Rank(o) < Rank(c) ==>
           Severity(ActionOf(o, q, k.defaults)) < Severity(r.action))
    case None =>
      && r.status == PASS && (forall o :: !Fires(o, q, k))
      && r.action == if exists o :: Triggered(o, q, k.defaults) then ALLOW_WITH_WAIVER else ALLOW
  }

  lemma JudgementIsMostSevereEarliest(q: Request, k: Policy) returns (top: Option<Control>)
    ensures Decided(Arbitrate(Results(q, k)), top, q, k)
  {
    var rs := Results(q, k);
    var i := DominantIsFirstMostSevere(rs);
    forall o ensures rs[Rank(o)] == ControlResult(o, q, k) && (Unwaived(rs[Rank(o)]) <==> Fires(o, q, k)) {
      ResultOf(o, q, k);
    }
    if Dominant(rs).Some? {
      var c := CONTROLS[i];
      RankOfControl(i);
      top := Some(c);
      forall o | Fires(o, q, k)
        ensures Severity(ActionOf(o, q, k.defaults)) <= Severity(ActionOf(c, q, k.defaults))
        ensures Rank(o) < Rank(c) ==> Severity(ActionOf(o, q, k.defaults)) < Severity(ActionOf(c, q, k.defaults))
      {
        assert Unwaived(rs[Rank(o)]);
      }
    } else {
      top := None;
      SomeTriggered(q, k);
      forall o ensures !Fires(o, q, k) { assert !Unwaived(rs[Rank(o)]); }
    }
  }

  /** The reason of a report that passes says whether a waiver was needed. */
  lemma ReasonOfPass(q: Request, k: Policy)
    requires Arbitrate(Results(q, k)).status == PASS
    ensures Arbitrate(Results(q, k)).reason ==
            if AnyTriggered(q, k.defaults) then "BASELINE_RISK_ALLOW_WITH_WAIVER" else "BASELINE_RISK_ALLOW"
  {
    SomeTriggered(q, k);
  }

  /** The report on any request that is judged, under the limits of its own product, account and contract. */
  lemma ReportIsMostSevereEarliest(q: Request, k: Context) returns (top: Option<Control>)
    requires Judgeable(q, k)
    ensures Evaluate(q, k).Returns? && Decided(Evaluate(q, k).value, top, q, PolicyOf(q, k))
  {
    EvaluationCases(q, k);
    top := JudgementIsMostSevereEarliest(q, PolicyOf(q, k));
  }

  // ---------- The lists in the report ----------

  ghost predicate RankedUpTo(cs: seq<Control>, n: nat) {
    (forall i :: 0 <= i < |cs| ==> Rank(cs[i]) < n) && forall i, j :: 0 <= i < j < |cs| ==> Rank(cs[i]) < Rank(cs[j])
  }

  lemma {:induction false} TriggeredRanked(cs: seq<Control>, q: Request, k: Policy)
    requires forall i :: 0 <= i < |cs| ==> Rank(cs[i]) == i
    ensures RankedUpTo(TriggeredControls(ResultsOf(cs, q, k)), |cs|)
  {
    if cs != [] {
      var front := cs[..|cs| - 1];
      TriggeredRanked(front, q, k);
      assert ResultsOf(cs, q, k)[..|cs| - 1] == ResultsOf(front, q, k);
    }
  }

  lemma {:induction false} ReferenceMembers(rs: seq<Result>, id: string)
    ensures id in WaiverReferences(rs) <==> exists i :: 0 <= i < |rs| && id in rs[i].waiverReferences
  {
    if rs != [] {
      var n := |rs| - 1;
      ReferenceMembers(rs[..n], id);
      assert forall i :: 0 <= i < n ==> rs[..n][i] == rs[i];
    }
  }

  /** Waiver `id` excuses a control that triggered. */
  ghost predicate Excuses(id: string, c: Control, q: Request, k: Policy) {
    Triggered(c, q, k.defaults) &&
    exists w :: w in q.waivers && Matches(w, ControlId(c), ReasonOf(c, q, k.defaults), k.check) && w.waiverId == id
  }

  lemma ResultReferences(c: Control, q: Request, k: Policy, id: string)
    ensures id in ControlResult(c, q, k).waiverReferences <==> Excuses(id, c, q, k)
  {
    var ids := MatchingIds(q.waivers, ControlId(c), ReasonOf(c, q, k.defaults), k.check);
    Text.SortedSetMembers(ids, id);
    MatchingIdMembers(q.waivers, ControlId(c), ReasonOf(c, q, k.defaults), k.check, id);
  }

  lemma ReferencesExcuse(q: Request, k: Policy, id: string)
    ensures id in WaiverReferences(Results(q, k)) <==> exists c :: Excuses(id, c, q, k)
  {
    var rs := Results(q, k);
    ReferenceMembers(rs, id);
    forall c ensures id in rs[Rank(c)].waiverReferences <==> Excuses(id, c, q, k) {
      ResultOf(c, q, k);
      ResultReferences(c, q, k, id);
    }
    forall i | 0 <= i < |rs| && id in rs[i].waiverReferences ensures Excuses(id, CONTROLS[i], q, k) {
      RankOfControl(i);
    }
  }

  /**
   * Whatever the verdict, the report lists exactly the controls that trigger, in evaluation order, and exactly the
   * ids of the waivers that excuse one of them, waived or not by others.
   */
  lemma ReportListsTriggersAndWaivers(q: Request, k: Context, c: Control, id: string)
    requires Judgeable(q, k)
    ensures Evaluate(q, k).Returns?
    ensures var r, p := Evaluate(q, k).value, PolicyOf(q, k);
            && (c in r.triggered <==> Triggered(c, q, p.defaults))
            && RankedUpTo(r.triggered, 9)
            && (id in r.waiverReferences <==> exists o :: Excuses(id, o, q, p))
  {
    EvaluationCases(q, k);
    JudgementLists(q, PolicyOf(q, k), c, id);
  }

  lemma JudgementLists(q: Request, k: Policy, c: Control, id: string)
    ensures var r := Arbitrate(Results(q, k));
            && (c in r.triggered <==> Triggered(c, q, k.defaults))
            && RankedUpTo(r.triggered, 9)
            && (id in r.waiverReferences <==> exists o :: Excuses(id, o, q, k))
  {
    var rs := Results(q, k);
    TriggeredAreTriggers(q, k, c);
    forall i | 0 <= i < |CONTROLS| ensures Rank(CONTROLS[i]) == i { RankOfControl(i); }
    TriggeredRanked(CONTROLS, q, k);
    ReferencesExcuse(q, k, id);
    Text.SortedSetMembers(WaiverReferences(rs), id);
    NothingTriggeredNothingReferenced(q, k, id);
  }

  lemma NothingTriggeredNothingReferenced(q: Request, k: Policy, id: string)
    ensures TriggeredControls(Results(q, k)) == [] ==> !exists o :: Excuses(id, o, q, k)
  {
    forall o | Triggered(o, q, k.defaults) ensures TriggeredControls(Results(q, k)) != [] {
      TriggeredAreTriggers(q, k, o);
    }
  }

  // ---------- The catalogue that ships ----------

  const MICRO := "mgc_comex_v1"
  const ONE_OUNCE := "oneoz_comex_v1"
  const SOLO := "solo_small_gold_ibkr_5000_v1"

  /** Two products and one account, which has a limit for only one of the two symbols. */
  function Shipped(now: Moment, zone: Zone): Context {
    Context(map[MICRO := "MGC", ONE_OUNCE := "1OZ"],
      map[SOLO := Account(map["1OZ" := 1], 0.025, 0.15, 0.25, 0.35, true)],
      {"intraday_flat_default", OVERNIGHT_STRICT}, now, zone)
  }

  /** A request that passes every field check: flat, about to buy one contract, with no history observed. */
  function FirstTrade(productProfileId: string, waivers: seq<Waiver>): Request {
    Request(productProfileId, SOLO, Warmup(10, 10, false), 1, 0, 1, 0, false, true, 0.0, 0.0, false, 0, 0, true, 0.0,
      0.0, "intraday_flat_default", false, false, waivers, None)
  }

  /** On the shipped catalogue, valid requests lack a limit exactly when they are for the micro contract. */
  lemma MicroContractRaises(q: Request, now: Moment, zone: Zone)
    requires ValidRequest(q, Shipped(now, zone))
    ensures Evaluate(q, Shipped(now, zone)) == Raises(LookupFailed) <==> q.productProfileId == MICRO
  {
    var k := Shipped(now, zone);
    EvaluationCases(q, k);
    assert "MGC"[0] != "1OZ"[0] && MICRO[0] != ONE_OUNCE[0];
    assert Evaluable(q, k) <==> q.productProfileId != MICRO;
    if Evaluate(q, k).Raises? { WhatIsRaised(q, k, 0); }
  }

  lemma MicroContractCanRaise(now: Moment, zone: Zone) returns (q: Request)
    ensures ValidRequest(q, Shipped(now, zone)) && Evaluate(q, Shipped(now, zone)) == Raises(LookupFailed)
  {
    q := FirstTrade(MICRO, []);
    MicroContractRaises(q, now, zone);
  }

  lemma SoonIsNoTime(zone: Zone)
    ensures !Denotes("soon", zone) && ReadIso(ExpandZulu("soon")).None?
  {
    ExpandNothing("soon");
  }

  /** A request with a limit that raises, at any time and in any zone: its waiver expires "soon". */
  lemma UnreadableWaiverRaises(now: Moment, zone: Zone) returns (q: Request)
    ensures Evaluable(q, Shipped(now, zone)) && Evaluate(q, Shipped(now, zone)) == Raises(ValueError)
  {
    var k, w := Shipped(now, zone), Waiver("w", [], [], [], Some("soon"));
    q := FirstTrade(ONE_OUNCE, [w]);
    SoonIsNoTime(zone);
    ClockTextDenotes(now, zone);
    assert Unreadable(q.waivers[0], TimeOf(q, k), zone);
    assert Triggered(WarmupHold, q, PolicyOf(q, k).defaults);
    RaisesIff(q, k);
    WhatIsRaised(q, k, 0);
  }
}
