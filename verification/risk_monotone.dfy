/** How the risk verdict responds to worse inputs, to waivers and to mirrored positions. */
module RiskMonotonicity {
  import opened Outcomes
  import opened Timestamps
  import opened Waivers
  import opened Risk

  function SeverityOf(q: Request, k: Context): nat
    requires Evaluate(q, k).Returns?
  {
    Severity(Evaluate(q, k).value.action)
  }

  /** The severity under given limits and waivers. */
  function Judged(q: Request, p: Policy): nat {
    Severity(Arbitrate(Results(q, p)).action)
  }

  lemma SeverityIsJudged(q: Request, k: Context)
    requires Judgeable(q, k)
    ensures Evaluate(q, k).Returns? && SeverityOf(q, k) == Judged(q, PolicyOf(q, k))
  {
    EvaluationCases(q, k);
  }

  lemma FiringActionIsSevere(c: Control, q: Request, d: Defaults)
    ensures Severity(ActionOf(c, q, d)) >= 1
  {
  }

  /** The severity bounds every firing control's, and is zero exactly when none fires. */
  lemma SeverityIsMaximum(q: Request, p: Policy)
    ensures forall c :: Fires(c, q, p) ==> Severity(ActionOf(c, q, p.defaults)) <= Judged(q, p)
    ensures Judged(q, p) > 0 ==> exists c :: Fires(c, q, p) && Severity(ActionOf(c, q, p.defaults)) == Judged(q, p)
    ensures Judged(q, p) == 0 <==> forall c :: !Fires(c, q, p)
  {
    var top := JudgementIsMostSevereEarliest(q, p);
    if top.Some? { FiringActionIsSevere(top.value, q, p.defaults); }
  }

  /** Whatever fires for the first request fires at least as severely for the second. */
  ghost predicate FiresAtLeast(q: Request, p: Policy, q': Request, p': Policy, c: Control) {
    Fires(c, q, p) ==>
      Fires(c, q', p') && Severity(ActionOf(c, q, p.defaults)) <= Severity(ActionOf(c, q', p'.defaults))
  }

  lemma SeverityFollowsControls(q: Request, p: Policy, q': Request, p': Policy)
    requires forall c :: FiresAtLeast(q, p, q', p', c)
    ensures Judged(q, p) <= Judged(q', p')
  {
    SeverityIsMaximum(q, p);
    SeverityIsMaximum(q', p');
    if Judged(q, p) > 0 {
      var c :| Fires(c, q, p) && Severity(ActionOf(c, q, p.defaults)) == Judged(q, p);
      assert FiresAtLeast(q, p, q', p', c);
    }
  }

  lemma SeverityAtMostHalt(q: Request, p: Policy)
    ensures Judged(q, p) <= Severity(HALT)
  {
  }

  // ---------- Worse inputs ----------

  /** Same product, account and strategy contract, hence the same limits; same position, posture, waivers and time. */
  predicate SameSetting(q: Request, q': Request) {
    && q'.productProfileId == q.productProfileId && q'.accountProfileId == q.accountProfileId
    && q'.warmup == q.warmup && q'.currentPositionSize == q.currentPositionSize
    && q'.requestedOperatingPosture == q.requestedOperatingPosture && q'.waivers == q.waivers
    && q'.evaluatedAtUtc == q.evaluatedAtUtc
  }

  /** Everything else no better. */
  predicate NoBetter(q: Request, q': Request) {
    && SameSetting(q, q')
    && Abs(q.projectedPositionSize) <= Abs(q'.projectedPositionSize)
    && q.pendingOrderIntentCount <= q'.pendingOrderIntentCount
    && (q.dataQualityDegraded ==> q'.dataQualityDegraded)
    && (q.proposedOrderIncreasesRisk ==> q'.proposedOrderIncreasesRisk)
    && q.dailyLossFraction <= q'.dailyLossFraction && q.drawdownFraction <= q'.drawdownFraction
    && (q.deliveryWindowActive ==> q'.deliveryWindowActive)
    && q'.warmupBarsObserved <= q.warmupBarsObserved && q'.warmupMinutesObserved <= q.warmupMinutesObserved
    && (q'.stateSeedLoaded ==> q.stateSeedLoaded)
    && q.requestedInitialMarginFraction <= q'.requestedInitialMarginFraction
    && q.requestedMaintenanceMarginFraction <= q'.requestedMaintenanceMarginFraction
    && (q.overnightRequested ==> q'.overnightRequested)
    && (q'.overnightApprovalGranted ==> q.overnightApprovalGranted)
  }

  lemma WorseInputsKeepTriggers(c: Control, q: Request, q': Request, d: Defaults)
    requires NoBetter(q, q') && Triggered(c, q, d)
    ensures Triggered(c, q', d)
    ensures ActionOf(c, q', d) == ActionOf(c, q, d) && ReasonOf(c, q', d) == ReasonOf(c, q, d)
  {
  }

  lemma WorseInputsFire(c: Control, q: Request, q': Request, p: Policy)
    requires NoBetter(q, q')
    ensures FiresAtLeast(q, p, q', p, c)
  {
    if Fires(c, q, p) { WorseInputsKeepTriggers(c, q, q', p.defaults); }
  }

  lemma SameSettingSamePolicy(q: Request, q': Request, k: Context)
    requires SameSetting(q, q') && Evaluable(q, k)
    ensures ValidRequest(q', k) ==> Evaluable(q', k) && PolicyOf(q', k) == PolicyOf(q, k)
    ensures AnyUnreadable(q', k) <==> AnyUnreadable(q, k)
  {
  }

  lemma WorseInputsKeepTriggering(q: Request, q': Request, d: Defaults)
    requires NoBetter(q, q')
    ensures AnyTriggered(q, d) ==> AnyTriggered(q', d)
  {
    if c :| Triggered(c, q, d) { WorseInputsKeepTriggers(c, q, q', d); }
  }

  /**
   * Where both requests get a report, worse inputs never lower the severity; becoming invalid halts. An exception
   * that escaped still escapes while the request is valid, and a new one appears exactly when the first control to
   * trigger meets a waiver that cannot be read.
   */
  lemma WorseInputsNeverRelax(q: Request, q': Request, k: Context)
    requires Evaluable(q, k) && NoBetter(q, q')
    ensures Evaluate(q, k).Returns? && Evaluate(q', k).Returns? ==> SeverityOf(q, k) <= SeverityOf(q', k)
    ensures Evaluate(q, k).Raises? && ValidRequest(q', k) ==> Evaluate(q', k) == Evaluate(q, k)
    ensures Evaluate(q, k).Returns? && Evaluate(q', k).Raises? <==>
            ValidRequest(q', k) && AnyUnreadable(q, k)
            && !AnyTriggered(q, PolicyOf(q, k).defaults) && AnyTriggered(q', PolicyOf(q, k).defaults)
  {
    var p := PolicyOf(q, k);
    EvaluationCases(q, k);
    EvaluationCases(q', k);
    SameSettingSamePolicy(q, q', k);
    WorseInputsKeepTriggering(q, q', p.defaults);
    if Judgeable(q, k) && Judgeable(q', k) {
      forall c ensures FiresAtLeast(q, p, q', p, c) { WorseInputsFire(c, q, q', p); }
      SeverityFollowsControls(q, p, q', p);
    } else if Judgeable(q, k) {
      SeverityAtMostHalt(q, p);
    }
  }

  // ---------- Time ----------

  function At(q: Request, time: string): Request {
    q.(evaluatedAtUtc := Some(time))
  }

  lemma TimeKeepsSetting(q: Request, time: string, k: Context)
    ensures ValidRequest(At(q, time), k) == ValidRequest(q, k)
    ensures InheritedDefaults(At(q, time), k) == InheritedDefaults(q, k)
  {
  }

  lemma TimeKeepsControl(c: Control, q: Request, time: string, d: Defaults)
    ensures Triggered(c, At(q, time), d) == Triggered(c, q, d)
    ensures ActionOf(c, At(q, time), d) == ActionOf(c, q, d) && ReasonOf(c, At(q, time), d) == ReasonOf(c, q, d)
  {
  }

  /** A waiver list that excuses no more under the second check than under the first. */
  ghost predicate NoMoreActive(check: Check, check': Check) {
    forall w :: check'(w) == Returns(true) ==> check(w) == Returns(true)
  }

  lemma LessActiveFires(c: Control, q: Request, time: string, p: Policy, check: Check)
    requires NoMoreActive(p.check, check)
    ensures FiresAtLeast(q, p, At(q, time), p.(check := check), c)
  {
    TimeKeepsControl(c, q, time, p.defaults);
  }

  lemma LaterChecks(time: string, later: string, zone: Zone)
    requires Denotes(time, zone) && Denotes(later, zone) && Denoted(time, zone) <= Denoted(later, zone)
    ensures NoMoreActive(CheckAt(time, zone), CheckAt(later, zone))
    ensures forall w :: Unreadable(w, later, zone) <==> Unreadable(w, time, zone)
  {
    forall w
      ensures CheckAt(later, zone)(w) == Returns(true) ==> CheckAt(time, zone)(w) == Returns(true)
      ensures Unreadable(w, later, zone) <==> Unreadable(w, time, zone)
    {
      LaterIsNotMoreActive(w, time, later, zone);
    }
  }

  lemma TimeKeepsTriggering(q: Request, time: string, d: Defaults)
    ensures AnyTriggered(At(q, time), d) <==> AnyTriggered(q, d)
  {
    forall c ensures Triggered(c, At(q, time), d) == Triggered(c, q, d) { TimeKeepsControl(c, q, time, d); }
  }

  lemma LaterJudged(q: Request, k: Context, later: string)
    requires Evaluable(q, k) && Evaluable(At(q, later), k)
    requires NoMoreActive(PolicyOf(q, k).check, PolicyOf(At(q, later), k).check)
    ensures Judged(q, PolicyOf(q, k)) <= Judged(At(q, later), PolicyOf(At(q, later), k))
  {
    var p, p' := PolicyOf(q, k), PolicyOf(At(q, later), k);
    TimeKeepsSetting(q, later, k);
    forall c ensures FiresAtLeast(q, p, At(q, later), p', c) { LessActiveFires(c, q, later, p, p'.check); }
    SeverityFollowsControls(q, p, At(q, later), p');
  }

  lemma TimeUnreadable(q: Request, k: Context, time: string)
    requires time != ""
    requires forall w :: Unreadable(w, time, k.zone) <==> Unreadable(w, TimeOf(q, k), k.zone)
    ensures AnyUnreadable(At(q, time), k) <==> AnyUnreadable(q, k)
  {
    assert TimeOf(At(q, time), k) == time;
    if w :| w in q.waivers && Unreadable(w, time, k.zone) { assert Unreadable(w, TimeOf(q, k), k.zone); }
    if w :| w in q.waivers && Unreadable(w, TimeOf(q, k), k.zone) { assert w in At(q, time).waivers; }
  }

  /**
   * Judging the same request at a later time never lowers the severity, for waivers only expire; and whether an
   * exception escapes does not depend on the time, as long as it is one.
   */
  lemma LaterNeverRelaxes(q: Request, k: Context, later: string)
    requires later != "" && Denotes(TimeOf(q, k), k.zone) && Denotes(later, k.zone)
    requires Denoted(TimeOf(q, k), k.zone) <= Denoted(later, k.zone)
    ensures Evaluate(At(q, later), k).Raises? <==> Evaluate(q, k).Raises?
    ensures Evaluate(q, k).Returns? ==> SeverityOf(q, k) <= SeverityOf(At(q, later), k)
  {
    var q' := At(q, later);
    LaterChecks(TimeOf(q, k), later, k.zone);
    TimeKeepsSetting(q, later, k);
    TimeUnreadable(q, k, later);
    RaisesIff(q, k);
    RaisesIff(q', k);
    if Evaluable(q, k) {
      TimeKeepsTriggering(q, later, PolicyOf(q, k).defaults);
      LaterJudged(q, k, later);
      if Judgeable(q, k) {
        SeverityIsJudged(q, k);
        SeverityIsJudged(q', k);
      }
    } else {
      EvaluationCases(q, k);
      EvaluationCases(q', k);
    }
  }

  // ---------- Waivers ----------

  lemma WaiversKeepSetting(q: Request, k: Context, more: seq<Waiver>)
    ensures ValidRequest(q.(waivers := more), k) == ValidRequest(q, k)
    ensures InheritedDefaults(q.(waivers := more), k) == InheritedDefaults(q, k)
  {
  }

  lemma MoreWaiversWaive(c: Control, q: Request, more: seq<Waiver>, p: Policy)
    requires forall w :: w in q.waivers ==> w in more
    ensures Waived(c, q, p) ==> Waived(c, q.(waivers := more), p)
  {
    var q' := q.(waivers := more);
    ReasonIgnoresWaivers(c, q, more, p.defaults);
    if w :| w in q.waivers && Matches(w, ControlId(c), ReasonOf(c, q, p.defaults), p.check) {
      assert w in q'.waivers;
    }
  }

  lemma ReasonIgnoresWaivers(c: Control, q: Request, more: seq<Waiver>, d: Defaults)
    ensures ReasonOf(c, q.(waivers := more), d) == ReasonOf(c, q, d)
  {
  }

  lemma WaiversOnlyRelax(q: Request, p: Policy, more: seq<Waiver>, c: Control)
    requires forall w :: w in q.waivers ==> w in more
    ensures FiresAtLeast(q.(waivers := more), p, q, p, c)
  {
    MoreWaiversWaive(c, q, more, p);
    assert Triggered(c, q.(waivers := more), p.defaults) == Triggered(c, q, p.defaults);
  }

  lemma WaiversKeepTriggering(q: Request, more: seq<Waiver>, d: Defaults)
    ensures AnyTriggered(q.(waivers := more), d) <==> AnyTriggered(q, d)
  {
    assert forall c :: Triggered(c, q.(waivers := more), d) == Triggered(c, q, d);
  }

  lemma MoreWaiversJudged(q: Request, p: Policy, more: seq<Waiver>)
    requires forall w :: w in q.waivers ==> w in more
    ensures Judged(q.(waivers := more), p) <= Judged(q, p)
  {
    var q' := q.(waivers := more);
    forall c ensures FiresAtLeast(q', p, q, p, c) { WaiversOnlyRelax(q, p, more, c); }
    SeverityFollowsControls(q', p, q, p);
  }

  lemma MoreWaiversUnreadable(q: Request, k: Context, more: seq<Waiver>)
    requires forall w :: w in q.waivers ==> w in more
    ensures AnyUnreadable(q, k) ==> AnyUnreadable(q.(waivers := more), k)
    ensures TimeOf(q.(waivers := more), k) == TimeOf(q, k)
  {
    if w :| w in q.waivers && Unreadable(w, TimeOf(q, k), k.zone) { assert w in q.(waivers := more).waivers; }
  }

  /**
   * Where both requests get a report, adding waivers, anywhere in the list, never raises the severity. An exception
   * that escaped still does, and a new one appears exactly when a control triggers and, of the waivers, only added
   * ones cannot be read.
   */
  lemma MoreWaiversNeverTighten(q: Request, k: Context, more: seq<Waiver>)
    requires forall w :: w in q.waivers ==> w in more
    ensures var q' := q.(waivers := more);
            && (Evaluate(q, k).Returns? && Evaluate(q', k).Returns? ==> SeverityOf(q', k) <= SeverityOf(q, k))
            && (Evaluate(q, k).Raises? ==> Evaluate(q', k).Raises?)
            && (Evaluate(q, k).Returns? && Evaluate(q', k).Raises? <==>
                 Evaluable(q, k) && AnyTriggered(q, PolicyOf(q, k).defaults)
                 && !AnyUnreadable(q, k) && AnyUnreadable(q', k))
  {
    var q' := q.(waivers := more);
    WaiversKeepSetting(q, k, more);
    MoreWaiversUnreadable(q, k, more);
    RaisesIff(q, k);
    RaisesIff(q', k);
    if Evaluable(q, k) {
      WaiversKeepTriggering(q, more, PolicyOf(q, k).defaults);
      MoreWaiversJudged(q, PolicyOf(q, k), more);
      if Judgeable(q', k) {
        SeverityIsJudged(q, k);
        SeverityIsJudged(q', k);
      }
    } else {
      EvaluationCases(q, k);
      EvaluationCases(q', k);
    }
  }

  // ---------- Long and short positions ----------

  function Mirror(q: Request): Request {
    q.(currentPositionSize := -q.currentPositionSize, projectedPositionSize := -q.projectedPositionSize)
  }

  lemma MirrorKeepsControl(c: Control, q: Request, d: Defaults)
    ensures Triggered(c, Mirror(q), d) == Triggered(c, q, d)
    ensures ActionOf(c, Mirror(q), d) == ActionOf(c, q, d) && ReasonOf(c, Mirror(q), d) == ReasonOf(c, q, d)
  {
  }

  lemma MirrorKeepsResults(q: Request, p: Policy)
    ensures Results(Mirror(q), p) == Results(q, p)
  {
    forall i | 0 <= i < |CONTROLS|
      ensures ControlResult(CONTROLS[i], Mirror(q), p) == ControlResult(CONTROLS[i], q, p)
    {
      MirrorKeepsControl(CONTROLS[i], q, p.defaults);
    }
  }

  lemma MirrorKeepsBindings(q: Request, k: Context)
    ensures InvalidBindings(Mirror(q), k) == InvalidBindings(q, k)
    ensures InheritedDefaults(Mirror(q), k) == InheritedDefaults(q, k)
  {
  }

  lemma MirrorKeepsAmounts(q: Request, m: seq<FieldName>)
    ensures InvalidCounts(m, Mirror(q)) == InvalidCounts(m, q)
    ensures InvalidFractions(m, Mirror(q)) == InvalidFractions(m, q)
  {
  }

  lemma MirrorKeepsFields(q: Request, k: Context)
    ensures InvalidFields(Mirror(q), k) == InvalidFields(q, k)
  {
    MirrorKeepsBindings(q, k);
    MirrorKeepsAmounts(q, InvalidBindings(q, k));
    MirrorKeepsAmounts(q, InvalidCounts(InvalidBindings(q, k), q));
  }

  lemma MirrorKeepsOutcomes(q: Request, p: Policy)
    ensures ControlOutcomes(CONTROLS, Mirror(q), p) == ControlOutcomes(CONTROLS, q, p)
  {
    OutcomesOfControls(q, p);
    OutcomesOfControls(Mirror(q), p);
    MirrorKeepsResults(q, p);
    forall c ensures Triggered(c, Mirror(q), p.defaults) == Triggered(c, q, p.defaults) {
      MirrorKeepsControl(c, q, p.defaults);
    }
  }

  /** A short book is judged exactly as the long book of the same size. */
  lemma MirroredPositionsJudgedAlike(q: Request, k: Context)
    ensures Evaluate(Mirror(q), k) == Evaluate(q, k)
  {
    MirrorKeepsFields(q, k);
    MirrorKeepsBindings(q, k);
    if InheritedDefaults(q, k).Returns? {
      MirrorKeepsOutcomes(q, Policy(InheritedDefaults(q, k).value, CheckAt(TimeOf(q, k), k.zone)));
    }
  }

  // ---------- The held position is not a monotone input ----------

  function Holding(q: Request, held: int): Request {
    q.(currentPositionSize := held)
  }

  lemma HoldingKeepsSetting(q: Request, held: int, k: Context)
    ensures ValidRequest(Holding(q, held), k) == ValidRequest(q, k)
    ensures InheritedDefaults(Holding(q, held), k) == InheritedDefaults(q, k)
  {
  }

  lemma HoldingKeepsWaiving(c: Control, q: Request, held: int, p: Policy)
    ensures Waived(c, Holding(q, held), p) == Waived(c, q, p)
  {
    assert ReasonOf(c, Holding(q, held), p.defaults) == ReasonOf(c, q, p.defaults);
  }

  lemma GrowthKeepsOtherTriggers(c: Control, q: Request, held: int, d: Defaults)
    requires Abs(q.currentPositionSize) <= Abs(held) && c != WarmupHold && Triggered(c, q, d)
    ensures Triggered(c, Holding(q, held), d)
    ensures Severity(ActionOf(c, q, d)) <= Severity(ActionOf(c, Holding(q, held), d))
  {
  }

  lemma GrowthKeepsOtherControls(c: Control, q: Request, held: int, p: Policy)
    requires Abs(q.currentPositionSize) <= Abs(held) && c != WarmupHold
    ensures FiresAtLeast(q, p, Holding(q, held), p, c)
  {
    HoldingKeepsWaiving(c, q, held, p);
    if Triggered(c, q, p.defaults) { GrowthKeepsOtherTriggers(c, q, held, p.defaults); }
  }

  /** Once something is held, the warm-up hold is over and the position limit looks at what is held. */
  predicate TriggersHeld(c: Control, q: Request, held: int, d: Defaults) {
    match c
    case WarmupHold => false
    case MaxPositionLimit => Abs(q.projectedPositionSize) > d.maxPositionSize || Abs(held) > d.maxPositionSize
    case _ => Triggered(c, q, d)
  }

  lemma TriggersOnceHeld(c: Control, q: Request, held: int, d: Defaults)
    requires held != 0
    ensures Triggered(c, Holding(q, held), d) <==> TriggersHeld(c, q, held, d)
  {
  }

  /** The only thing that stands against the request is the warm-up hold. */
  ghost predicate OnlyWarmupFires(q: Request, p: Policy) {
    Fires(WarmupHold, q, p) && forall c :: Fires(c, q, p) ==> c == WarmupHold
  }

  /** If only the warm-up hold can fall away, severity drops exactly when it was alone and nothing replaces it. */
  lemma DropsOnlyWithWarmup(q: Request, q': Request, p: Policy)
    requires forall c :: c != WarmupHold ==> FiresAtLeast(q, p, q', p, c)
    ensures Judged(q', p) < Judged(q, p) <==> OnlyWarmupFires(q, p) && forall c :: !Fires(c, q', p)
  {
    SeverityIsMaximum(q, p);
    SeverityIsMaximum(q', p);
    FiringActionIsSevere(WarmupHold, q, p.defaults);
    if Judged(q', p) < Judged(q, p) {
      var c :| Fires(c, q, p) && Severity(ActionOf(c, q, p.defaults)) == Judged(q, p);
      assert c != WarmupHold ==> FiresAtLeast(q, p, q', p, c);
      forall o | Fires(o, q, p) ensures o == WarmupHold {
        assert o != WarmupHold ==> FiresAtLeast(q, p, q', p, o);
      }
    }
  }

  /** The position now held is within the limit, or the limit is waived. */
  predicate LimitAllows(q: Request, held: int, p: Policy) {
    Abs(held) <= p.defaults.maxPositionSize || Waived(MaxPositionLimit, q, p)
  }

  lemma NothingOnceHeld(q: Request, held: int, p: Policy)
    requires OnlyWarmupFires(q, p)
    ensures (forall c :: !Fires(c, Holding(q, held), p)) <==> held != 0 && LimitAllows(q, held, p)
  {
    if held == 0 {
      assert q.currentPositionSize == 0 && Holding(q, held) == q;
    } else {
      forall c ensures Fires(c, Holding(q, held), p) <==> c == MaxPositionLimit && !LimitAllows(q, held, p) {
        HoldingKeepsWaiving(c, q, held, p);
        TriggersOnceHeld(c, q, held, p.defaults);
        assert Fires(c, q, p) ==> c == WarmupHold;
      }
      assert Fires(MaxPositionLimit, Holding(q, held), p) <==> !LimitAllows(q, held, p);
    }
  }

  /**
   * Where both requests get a report, holding more lowers the severity exactly when the warm-up hold of a first trade
   * was the only thing against the request and the position now held is not itself stopped by the position limit;
   * else the severity never drops. No report is given exactly when a waiver cannot be read and a control triggers.
   */
  lemma HoldingMoreRelaxesOnlyWarmup(q: Request, held: int, k: Context)
    requires Evaluable(q, k) && Abs(q.currentPositionSize) <= Abs(held)
    ensures var d := PolicyOf(q, k).defaults;
            && (Evaluate(q, k).Raises? <==> AnyUnreadable(q, k) && AnyTriggered(q, d))
            && (Evaluate(Holding(q, held), k).Raises? <==> AnyUnreadable(q, k) && AnyTriggered(Holding(q, held), d))
    ensures Evaluate(q, k).Returns? && Evaluate(Holding(q, held), k).Returns? ==>
              var p := PolicyOf(q, k);
              (SeverityOf(Holding(q, held), k) < SeverityOf(q, k) <==>
                OnlyWarmupFires(q, p) && held != 0 && LimitAllows(q, held, p))
  {
    HoldingKeepsSetting(q, held, k);
    HoldingUnreadable(q, held, k);
    RaisesIff(q, k);
    RaisesIff(Holding(q, held), k);
    HoldingMoreJudged(q, held, PolicyOf(q, k));
    if Judgeable(q, k) && Judgeable(Holding(q, held), k) {
      SeverityIsJudged(q, k);
      SeverityIsJudged(Holding(q, held), k);
    }
  }

  lemma HoldingUnreadable(q: Request, held: int, k: Context)
    ensures AnyUnreadable(Holding(q, held), k) <==> AnyUnreadable(q, k)
    ensures TimeOf(Holding(q, held), k) == TimeOf(q, k)
  {
  }

  lemma HoldingMoreJudged(q: Request, held: int, p: Policy)
    requires Abs(q.currentPositionSize) <= Abs(held)
    ensures Judged(Holding(q, held), p) < Judged(q, p) <==>
            OnlyWarmupFires(q, p) && held != 0 && LimitAllows(q, held, p)
  {
    forall c | c != WarmupHold ensures FiresAtLeast(q, p, Holding(q, held), p, c) {
      GrowthKeepsOtherControls(c, q, held, p);
    }
    DropsOnlyWithWarmup(q, Holding(q, held), p);
    if OnlyWarmupFires(q, p) { NothingOnceHeld(q, held, p); }
  }

  lemma FirstTradeIsHeldForWarmup(p: Policy)
    requires p.defaults == Defaults(1, 1, 0.025, 0.15, 0.25, 0.35, true, Warmup(10, 10, false))
    ensures OnlyWarmupFires(FirstTrade(ONE_OUNCE, []), p) && LimitAllows(FirstTrade(ONE_OUNCE, []), 1, p)
  {
  }

  lemma FirstTradeEvaluable(now: Moment, zone: Zone)
    ensures Evaluable(FirstTrade(ONE_OUNCE, []), Shipped(now, zone))
    ensures PolicyOf(FirstTrade(ONE_OUNCE, []), Shipped(now, zone)).defaults ==
            Defaults(1, 1, 0.025, 0.15, 0.25, 0.35, true, Warmup(10, 10, false))
  {
  }

  /** On the shipped catalogue, holding the one approved contract lifts the warm-up restriction. */
  lemma HoldingMoreCanRelax(now: Moment, zone: Zone) returns (q: Request, k: Context)
    ensures Evaluable(q, k) && Evaluate(q, k).Returns? && Evaluate(Holding(q, 1), k).Returns?
    ensures SeverityOf(Holding(q, 1), k) < SeverityOf(q, k)
  {
    q, k := FirstTrade(ONE_OUNCE, []), Shipped(now, zone);
    FirstTradeEvaluable(now, zone);
    FirstTradeIsHeldForWarmup(PolicyOf(q, k));
    HoldingMoreRelaxesOnlyWarmup(q, 1, k);
  }
}
