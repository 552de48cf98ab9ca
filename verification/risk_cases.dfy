/** The risk verdict read off the request, the account's limits and the waivers, without naming the controls. */
module RiskCases {
  import opened Outcomes
  import opened Timestamps
  import opened Waivers
  import opened Risk

  function AccountOf(q: Request, k: Context): Account
    requires Evaluable(q, k)
  {
    k.accounts[q.accountProfileId]
  }

  /** The account's position limit for the product's symbol. */
  function LimitOf(q: Request, k: Context): int
    requires Evaluable(q, k)
  {
    AccountOf(q, k).maxPositionSizeBySymbol[k.products[q.productProfileId]]
  }

  /** A request is refused exactly for an unknown version, profile or posture, or a negative count or fraction. */
  lemma RefusedIff(q: Request, k: Context)
    ensures Evaluate(q, k).Returns? && Evaluate(q, k).value.status == INVALID <==>
            || q.schemaVersion != 1 || q.productProfileId !in k.products || q.accountProfileId !in k.accounts
            || q.pendingOrderIntentCount < 0 || q.warmupBarsObserved < 0 || q.warmupMinutesObserved < 0
            || q.dailyLossFraction < 0.0 || q.drawdownFraction < 0.0 || q.requestedInitialMarginFraction < 0.0
            || q.requestedMaintenanceMarginFraction < 0.0 || q.requestedOperatingPosture !in k.postures
  {
    EvaluationCases(q, k);
    if Evaluable(q, k) { ViolationIffFires(q, PolicyOf(q, k)); }
  }

  /** The refused request is told the names of its invalid fields. */
  predicate Names(q: Request, k: Context, name: FieldName) {
    match name
    case SCHEMA_VERSION => q.schemaVersion != 1
    case PRODUCT_PROFILE_ID => q.productProfileId !in k.products
    case ACCOUNT_PROFILE_ID => q.accountProfileId !in k.accounts
    case PENDING_ORDER_INTENT_COUNT => q.pendingOrderIntentCount < 0
    case WARMUP_BARS_OBSERVED => q.warmupBarsObserved < 0
    case WARMUP_MINUTES_OBSERVED => q.warmupMinutesObserved < 0
    case DAILY_LOSS_FRACTION => q.dailyLossFraction < 0.0
    case DRAWDOWN_FRACTION => q.drawdownFraction < 0.0
    case REQUESTED_INITIAL_MARGIN_FRACTION => q.requestedInitialMarginFraction < 0.0
    case REQUESTED_MAINTENANCE_MARGIN_FRACTION => q.requestedMaintenanceMarginFraction < 0.0
    case REQUESTED_OPERATING_POSTURE => q.requestedOperatingPosture !in k.postures
  }

  lemma RefusalNamesFields(q: Request, k: Context, name: FieldName)
    requires !ValidRequest(q, k)
    ensures Evaluate(q, k).Returns? && Evaluate(q, k).value.action == HALT
    ensures name in Evaluate(q, k).value.missingFields <==> Names(q, k, name)
  {
    EvaluationCases(q, k);
    CountNames(q, k, name);
  }

  lemma CountNames(q: Request, k: Context, name: FieldName)
    ensures name in InvalidFields(q, k) <==> Names(q, k, name)
  {
    var bindings := InvalidBindings(q, k);
    BindingsNamed(q, k, name);
    CountsNamed(q, bindings, name);
    FractionsNamed(q, InvalidCounts(bindings, q), name);
  }

  lemma BindingsNamed(q: Request, k: Context, name: FieldName)
    ensures name in InvalidBindings(q, k) <==>
            (name == SCHEMA_VERSION && q.schemaVersion != 1)
            || (name == PRODUCT_PROFILE_ID && q.productProfileId !in k.products)
            || (name == ACCOUNT_PROFILE_ID && q.accountProfileId !in k.accounts)
  {
  }

  lemma CountsNamed(q: Request, m: seq<FieldName>, name: FieldName)
    ensures name in InvalidCounts(m, q) <==>
            name in m || (name == PENDING_ORDER_INTENT_COUNT && q.pendingOrderIntentCount < 0)
            || (name == WARMUP_BARS_OBSERVED && q.warmupBarsObserved < 0)
            || (name == WARMUP_MINUTES_OBSERVED && q.warmupMinutesObserved < 0)
  {
  }

  lemma FractionsNamed(q: Request, m: seq<FieldName>, name: FieldName)
    ensures name in InvalidFractions(m, q) <==>
            name in m || (name == DAILY_LOSS_FRACTION && q.dailyLossFraction < 0.0)
            || (name == DRAWDOWN_FRACTION && q.drawdownFraction < 0.0)
            || (name == REQUESTED_INITIAL_MARGIN_FRACTION && q.requestedInitialMarginFraction < 0.0)
            || (name == REQUESTED_MAINTENANCE_MARGIN_FRACTION && q.requestedMaintenanceMarginFraction < 0.0)
  {
  }

  // ---------- Waivers ----------

  /** Not yet expired, and open to this category, control and reason wherever it lists any. */
  predicate Excuses(w: Waiver, controlId: string, reason: string, at: string, zone: Zone) {
    && (w.expiresAtUtc.Some? ==>
         Denotes(at, zone) && Denotes(w.expiresAtUtc.value, zone)
         && Denoted(at, zone) <= Denoted(w.expiresAtUtc.value, zone))
    && (w.categories == [] || "baseline_risk_controls" in w.categories)
    && (w.ruleIds == [] || controlId in w.ruleIds)
    && (w.reasonCodes == [] || reason in w.reasonCodes)
  }

  /** No waiver of the request excuses the control for that reason. */
  ghost predicate Unexcused(q: Request, k: Context, controlId: string, reason: string) {
    forall w :: w in q.waivers ==> !Excuses(w, controlId, reason, TimeOf(q, k), k.zone)
  }

  lemma ExcusesIffMatches(w: Waiver, controlId: string, reason: string, at: string, zone: Zone)
    ensures Excuses(w, controlId, reason, at, zone) <==> Matches(w, controlId, reason, CheckAt(at, zone))
  {
    if !Unreadable(w, at, zone) { ActiveUntilExpiry(w, at, zone); }
  }

  lemma UnexcusedIffNotWaived(c: Control, q: Request, k: Context)
    requires Evaluable(q, k)
    ensures var d := PolicyOf(q, k).defaults;
            Unexcused(q, k, ControlId(c), ReasonOf(c, q, d)) <==> !Waived(c, q, PolicyOf(q, k))
  {
    var id, reason := ControlId(c), ReasonOf(c, q, PolicyOf(q, k).defaults);
    forall w ensures Excuses(w, id, reason, TimeOf(q, k), k.zone)
                     <==> Matches(w, id, reason, CheckAt(TimeOf(q, k), k.zone))
    {
      ExcusesIffMatches(w, id, reason, TimeOf(q, k), k.zone);
    }
  }

  /** Without waivers nothing is excused. */
  lemma NothingExcusedWithoutWaivers(q: Request, k: Context, controlId: string, reason: string)
    requires q.waivers == []
    ensures Unexcused(q, k, controlId, reason)
  {
  }

  // ---------- What can be wrong with a request ----------

  predicate SizeOver(q: Request, k: Context)
    requires Evaluable(q, k)
  {
    HeldOver(q, k) || q.projectedPositionSize > LimitOf(q, k) || -q.projectedPositionSize > LimitOf(q, k)
  }

  predicate HeldOver(q: Request, k: Context)
    requires Evaluable(q, k)
  {
    q.currentPositionSize > LimitOf(q, k) || -q.currentPositionSize > LimitOf(q, k)
  }

  /** At least one intent may be pending, whatever the position limit. */
  predicate TooManyIntents(q: Request, k: Context)
    requires Evaluable(q, k)
  {
    q.pendingOrderIntentCount > 1 && q.pendingOrderIntentCount > LimitOf(q, k)
  }

  predicate TradingOnBadData(q: Request) {
    q.dataQualityDegraded && q.proposedOrderIncreasesRisk
  }

  predicate LostToday(q: Request, k: Context)
    requires Evaluable(q, k)
  {
    q.dailyLossFraction >= AccountOf(q, k).dailyLossLockoutFraction
  }

  predicate DrawnDown(q: Request, k: Context)
    requires Evaluable(q, k)
  {
    q.drawdownFraction >= AccountOf(q, k).maxDrawdownFraction
  }

  predicate IntoDelivery(q: Request) {
    q.deliveryWindowActive && q.projectedPositionSize != 0
  }

  predicate NotWarmedUp(q: Request) {
    q.currentPositionSize == 0 && q.projectedPositionSize != 0 &&
    (q.warmupBarsObserved < q.warmup.minHistoryBars || q.warmupMinutesObserved < q.warmup.minHistoryMinutes
     || (q.warmup.requiresStateSeed && !q.stateSeedLoaded))
  }

  predicate OverMargin(q: Request, k: Context)
    requires Evaluable(q, k)
  {
    q.requestedInitialMarginFraction > AccountOf(q, k).maxInitialMarginFraction
    || q.requestedMaintenanceMarginFraction > AccountOf(q, k).maxMaintenanceMarginFraction
  }

  /** The account keeps overnight positions in the strict posture only, and another was requested. */
  predicate NotStrict(q: Request, k: Context)
    requires Evaluable(q, k)
  {
    AccountOf(q, k).overnightOnlyWithStrictClass && q.requestedOperatingPosture != "overnight_strict"
  }

  predicate OvernightRefused(q: Request, k: Context)
    requires Evaluable(q, k)
  {
    q.overnightRequested && (!q.overnightApprovalGranted || NotStrict(q, k))
  }

  function OvernightReason(q: Request, k: Context): string
    requires Evaluable(q, k)
  {
    if NotStrict(q, k) then "BASELINE_RISK_OVERNIGHT_STRICT_POSTURE_REQUIRED"
    else "BASELINE_RISK_OVERNIGHT_APPROVAL_REQUIRED"
  }

  /** What each control looks at. */
  predicate Wrong(c: Control, q: Request, k: Context)
    requires Evaluable(q, k)
  {
    match c
    case MaxPositionLimit => SizeOver(q, k)
    case MaxConcurrentOrderIntents => TooManyIntents(q, k)
    case DegradedDataEntrySuppression => TradingOnBadData(q)
    case DailyLossLockout => LostToday(q, k)
    case MaxDrawdownFlatten => DrawnDown(q, k)
    case DeliveryFenceForcedFlat => IntoDelivery(q)
    case WarmupHold => NotWarmedUp(q)
    case MarginPretradeCheck => OverMargin(q, k)
    case OvernightApproval => OvernightRefused(q, k)
  }

  /** Something is wrong with the request, excused or not. */
  ghost predicate AnythingWrong(q: Request, k: Context)
    requires Evaluable(q, k)
  {
    exists c :: Wrong(c, q, k)
  }

  /** The request is wrong in what the control looks at, and no waiver excuses that control for that reason. */
  ghost predicate Stands(c: Control, q: Request, k: Context)
    requires Evaluable(q, k)
  {
    Wrong(c, q, k) &&
    match c
    case MaxPositionLimit => Unexcused(q, k, "max_position_limit", "BASELINE_RISK_POSITION_LIMIT_EXCEEDED")
    case MaxConcurrentOrderIntents =>
      Unexcused(q, k, "max_concurrent_order_intents", "BASELINE_RISK_CONCURRENT_ORDER_INTENT_LIMIT_EXCEEDED")
    case DegradedDataEntrySuppression =>
      Unexcused(q, k, "degraded_data_entry_suppression", "BASELINE_RISK_DATA_DEGRADED_ENTRY_SUPPRESSION")
    case DailyLossLockout => Unexcused(q, k, "daily_loss_lockout", "BASELINE_RISK_DAILY_LOSS_LOCKOUT")
    case MaxDrawdownFlatten => Unexcused(q, k, "max_drawdown_flatten", "BASELINE_RISK_MAX_DRAWDOWN")
    case DeliveryFenceForcedFlat =>
      Unexcused(q, k, "delivery_fence_forced_flat", "BASELINE_RISK_DELIVERY_FENCE_FLATTEN")
    case WarmupHold => Unexcused(q, k, "warmup_hold", "BASELINE_RISK_WARMUP_HOLD")
    case MarginPretradeCheck => Unexcused(q, k, "margin_pretrade_check", "BASELINE_RISK_MARGIN_LIMIT")
    case OvernightApproval => Unexcused(q, k, "overnight_approval", OvernightReason(q, k))
  }

  lemma TriggersIffWrong(c: Control, q: Request, k: Context)
    requires Evaluable(q, k)
    ensures Triggered(c, q, PolicyOf(q, k).defaults) <==> Wrong(c, q, k)
  {
  }

  lemma StandsIffWrongAndUnexcused(c: Control, q: Request, k: Context)
    requires Evaluable(q, k)
    ensures Stands(c, q, k) <==>
            Wrong(c, q, k) && Unexcused(q, k, ControlId(c), ReasonOf(c, q, PolicyOf(q, k).defaults))
  {
  }

  lemma FiresIffStands(c: Control, q: Request, k: Context)
    requires Evaluable(q, k)
    ensures Fires(c, q, PolicyOf(q, k)) <==> Stands(c, q, k)
  {
    TriggersIffWrong(c, q, k);
    StandsIffWrongAndUnexcused(c, q, k);
    UnexcusedIffNotWaived(c, q, k);
  }

  // ---------- The action and its reason ----------

  /**
   * The action and reason called for, given which controls stand, whether a position is held, whether that is over
   * the limit, the reason for refusing overnight, and whether anything is wrong at all, excused or not.
   */
  function CalledFor(stands: Control -> bool, held: bool, heldOver: bool, overnight: string, wrong: bool)
    : (Action, string)
  {
    if stands(MarginPretradeCheck) then (HALT, "BASELINE_RISK_MARGIN_LIMIT")
    else if stands(MaxDrawdownFlatten) then (FLATTEN, "BASELINE_RISK_MAX_DRAWDOWN")
    else if stands(DeliveryFenceForcedFlat) && held then (FLATTEN, "BASELINE_RISK_DELIVERY_FENCE_FLATTEN")
    else if stands(MaxPositionLimit) && heldOver then (EXIT_ONLY, "BASELINE_RISK_POSITION_LIMIT_EXCEEDED")
    else if stands(DailyLossLockout) then (EXIT_ONLY, "BASELINE_RISK_DAILY_LOSS_LOCKOUT")
    else if stands(OvernightApproval) && held then (EXIT_ONLY, overnight)
    else if stands(MaxPositionLimit) then (RESTRICT, "BASELINE_RISK_POSITION_LIMIT_EXCEEDED")
    else if stands(MaxConcurrentOrderIntents) then
      (RESTRICT, "BASELINE_RISK_CONCURRENT_ORDER_INTENT_LIMIT_EXCEEDED")
    else if stands(DegradedDataEntrySuppression) then (RESTRICT, "BASELINE_RISK_DATA_DEGRADED_ENTRY_SUPPRESSION")
    else if stands(DeliveryFenceForcedFlat) then (RESTRICT, "BASELINE_RISK_DELIVERY_FENCE_FLATTEN")
    else if stands(WarmupHold) then (RESTRICT, "BASELINE_RISK_WARMUP_HOLD")
    else if stands(OvernightApproval) then (RESTRICT, overnight)
    else if wrong then (ALLOW_WITH_WAIVER, "BASELINE_RISK_ALLOW_WITH_WAIVER")
    else (ALLOW, "BASELINE_RISK_ALLOW")
  }

  /** How severe a standing control is. */
  function Weight(c: Control, held: bool, heldOver: bool): nat {
    match c
    case MaxPositionLimit => if heldOver then 2 else 1
    case DailyLossLockout => 2
    case MaxDrawdownFlatten => 3
    case DeliveryFenceForcedFlat => if held then 3 else 1
    case MarginPretradeCheck => 4
    case OvernightApproval => if held then 2 else 1
    case _ => 1
  }

  /** `top` is the earliest among the most severe controls that stand, if any does. */
  ghost predicate Leads(top: Option<Control>, stands: Control -> bool, held: bool, heldOver: bool) {
    match top
    case Some(c) =>
      && stands(c) && (forall o :: stands(o) ==> Weight(o, held, heldOver) <= Weight(c, held, heldOver))
      && (forall o :: stands(o) && Rank(o) < Rank(c) ==> Weight(o, held, heldOver) < Weight(c, held, heldOver))
    case None => forall o :: !stands(o)
  }

  function ActionIn(c: Control, held: bool, heldOver: bool): Action {
    match Weight(c, held, heldOver)
    case 1 => RESTRICT
    case 2 => EXIT_ONLY
    case 3 => FLATTEN
    case _ => HALT
  }

  function ReasonIn(c: Control, overnight: string): string {
    match c
    case MaxPositionLimit => "BASELINE_RISK_POSITION_LIMIT_EXCEEDED"
    case MaxConcurrentOrderIntents => "BASELINE_RISK_CONCURRENT_ORDER_INTENT_LIMIT_EXCEEDED"
    case DegradedDataEntrySuppression => "BASELINE_RISK_DATA_DEGRADED_ENTRY_SUPPRESSION"
    case DailyLossLockout => "BASELINE_RISK_DAILY_LOSS_LOCKOUT"
    case MaxDrawdownFlatten => "BASELINE_RISK_MAX_DRAWDOWN"
    case DeliveryFenceForcedFlat => "BASELINE_RISK_DELIVERY_FENCE_FLATTEN"
    case WarmupHold => "BASELINE_RISK_WARMUP_HOLD"
    case MarginPretradeCheck => "BASELINE_RISK_MARGIN_LIMIT"
    case OvernightApproval => overnight
  }

  /** The control whose case comes first. */
  function FirstCase(stands: Control -> bool, held: bool, heldOver: bool): Option<Control> {
    if stands(MarginPretradeCheck) then Some(MarginPretradeCheck)
    else if stands(MaxDrawdownFlatten) then Some(MaxDrawdownFlatten)
    else if stands(DeliveryFenceForcedFlat) && held then Some(DeliveryFenceForcedFlat)
    else if stands(MaxPositionLimit) && heldOver then Some(MaxPositionLimit)
    else if stands(DailyLossLockout) then Some(DailyLossLockout)
    else if stands(OvernightApproval) && held then Some(OvernightApproval)
    else if stands(MaxPositionLimit) then Some(MaxPositionLimit)
    else if stands(MaxConcurrentOrderIntents) then Some(MaxConcurrentOrderIntents)
    else if stands(DegradedDataEntrySuppression) then Some(DegradedDataEntrySuppression)
    else if stands(DeliveryFenceForcedFlat) then Some(DeliveryFenceForcedFlat)
    else if stands(WarmupHold) then Some(WarmupHold)
    else if stands(OvernightApproval) then Some(OvernightApproval)
    else None
  }

  lemma FirstCaseLeads(stands: Control -> bool, held: bool, heldOver: bool)
    ensures Leads(FirstCase(stands, held, heldOver), stands, held, heldOver)
  {
    forall o | FirstCase(stands, held, heldOver).None? ensures !stands(o) { OneOfNine(o); }
  }

  lemma OneOfNine(c: Control)
    ensures c in {MaxPositionLimit, MaxConcurrentOrderIntents, DegradedDataEntrySuppression, DailyLossLockout,
              MaxDrawdownFlatten, DeliveryFenceForcedFlat, WarmupHold, MarginPretradeCheck, OvernightApproval}
  {
  }

  /** Only one control leads. */
  lemma LeaderUnique(a: Option<Control>, b: Option<Control>, stands: Control -> bool, held: bool, heldOver: bool)
    requires Leads(a, stands, held, heldOver) && Leads(b, stands, held, heldOver)
    ensures a == b
  {
    if a.Some? && b.Some? {
      assert Rank(a.value) == Rank(b.value);
      RankLocates(a.value);
      RankLocates(b.value);
    }
  }

  lemma FirstCaseCalls(stands: Control -> bool, held: bool, heldOver: bool, overnight: string, wrong: bool)
    ensures FirstCase(stands, held, heldOver).Some? ==>
              var c := FirstCase(stands, held, heldOver).value;
              CalledFor(stands, held, heldOver, overnight, wrong)
              == (ActionIn(c, held, heldOver), ReasonIn(c, overnight))
  {
  }

  /** The leading control is the first of the cases that applies. */
  lemma LeaderCalls(
      c: Control, stands: Control -> bool, held: bool, heldOver: bool, overnight: string, wrong: bool)
    requires Leads(Some(c), stands, held, heldOver)
    ensures CalledFor(stands, held, heldOver, overnight, wrong) == (ActionIn(c, held, heldOver), ReasonIn(c, overnight))
  {
    FirstCaseLeads(stands, held, heldOver);
    LeaderUnique(Some(c), FirstCase(stands, held, heldOver), stands, held, heldOver);
    FirstCaseCalls(stands, held, heldOver, overnight, wrong);
  }

  lemma NobodyCalls(stands: Control -> bool, held: bool, heldOver: bool, overnight: string, wrong: bool)
    requires Leads(None, stands, held, heldOver)
    ensures CalledFor(stands, held, heldOver, overnight, wrong) ==
            if wrong then (ALLOW_WITH_WAIVER, "BASELINE_RISK_ALLOW_WITH_WAIVER") else (ALLOW, "BASELINE_RISK_ALLOW")
  {
  }

  ghost function StandsIn(q: Request, k: Context): Control -> bool
    requires Evaluable(q, k)
  {
    (c: Control) => Evaluable(q, k) && Stands(c, q, k)
  }

  lemma ControlActs(c: Control, q: Request, k: Context)
    requires Evaluable(q, k)
    ensures var d := PolicyOf(q, k).defaults;
            && ActionOf(c, q, d) == ActionIn(c, q.currentPositionSize != 0, HeldOver(q, k))
            && Severity(ActionOf(c, q, d)) == Weight(c, q.currentPositionSize != 0, HeldOver(q, k))
  {
  }

  lemma ControlReasons(c: Control, q: Request, k: Context)
    requires Evaluable(q, k) && Wrong(c, q, k)
    ensures ReasonOf(c, q, PolicyOf(q, k).defaults) == ReasonIn(c, OvernightReason(q, k))
  {
  }

  lemma DecidedLeads(r: Report, top: Option<Control>, q: Request, k: Context)
    requires Evaluable(q, k) && Decided(r, top, q, PolicyOf(q, k))
    ensures Leads(top, StandsIn(q, k), q.currentPositionSize != 0, HeldOver(q, k))
  {
    var d := PolicyOf(q, k).defaults;
    forall c
      ensures StandsIn(q, k)(c) <==> Fires(c, q, PolicyOf(q, k))
      ensures Severity(ActionOf(c, q, d)) == Weight(c, q.currentPositionSize != 0, HeldOver(q, k))
    {
      FiresIffStands(c, q, k);
      ControlActs(c, q, k);
    }
  }

  lemma WrongIffTriggered(q: Request, k: Context)
    requires Evaluable(q, k)
    ensures AnythingWrong(q, k) <==> AnyTriggered(q, PolicyOf(q, k).defaults)
  {
    forall c ensures Triggered(c, q, PolicyOf(q, k).defaults) <==> Wrong(c, q, k) { TriggersIffWrong(c, q, k); }
  }

  lemma ViolationIsCalledFor(c: Control, r: Report, q: Request, k: Context)
    requires Evaluable(q, k) && Decided(r, Some(c), q, PolicyOf(q, k))
    ensures (r.action, r.reason) ==
            CalledFor(StandsIn(q, k), q.currentPositionSize != 0, HeldOver(q, k), OvernightReason(q, k),
              AnythingWrong(q, k))
  {
    DecidedLeads(r, Some(c), q, k);
    LeaderCalls(c, StandsIn(q, k), q.currentPositionSize != 0, HeldOver(q, k), OvernightReason(q, k),
      AnythingWrong(q, k));
    TriggersIffWrong(c, q, k);
    ControlActs(c, q, k);
    ControlReasons(c, q, k);
  }

  lemma PassIsCalledFor(q: Request, k: Context)
    requires Judgeable(q, k) && Evaluate(q, k).Returns?
    requires Decided(Evaluate(q, k).value, None, q, PolicyOf(q, k))
    ensures (Evaluate(q, k).value.action, Evaluate(q, k).value.reason) ==
            CalledFor(StandsIn(q, k), q.currentPositionSize != 0, HeldOver(q, k), OvernightReason(q, k),
              AnythingWrong(q, k))
  {
    DecidedLeads(Evaluate(q, k).value, None, q, k);
    WrongIffTriggered(q, k);
    NobodyCalls(StandsIn(q, k), q.currentPositionSize != 0, HeldOver(q, k), OvernightReason(q, k),
      AnythingWrong(q, k));
    EvaluationCases(q, k);
    ReasonOfPass(q, PolicyOf(q, k));
  }

  /**
   * Every judged request gets the action and reason it calls for: halt over margin, else flatten, else exit only, else
   * restrict, each only for what no waiver excuses; and it passes, saying whether waivers were needed, on nothing else.
   */
  lemma ReportIsCalledFor(q: Request, k: Context)
    requires Judgeable(q, k)
    ensures Evaluate(q, k).Returns?
    ensures var r := Evaluate(q, k).value;
            && (r.action, r.reason) ==
               CalledFor(StandsIn(q, k), q.currentPositionSize != 0, HeldOver(q, k), OvernightReason(q, k),
                 AnythingWrong(q, k))
            && (r.status == VIOLATION <==> exists c :: Stands(c, q, k))
  {
    var top := ReportIsMostSevereEarliest(q, k);
    forall c ensures Fires(c, q, PolicyOf(q, k)) <==> Stands(c, q, k) { FiresIffStands(c, q, k); }
    if top.Some? {
      ViolationIsCalledFor(top.value, Evaluate(q, k).value, q, k);
    } else {
      PassIsCalledFor(q, k);
    }
  }
}
