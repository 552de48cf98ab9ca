/** Account fit on the actual execution contract, and the choice of an execution symbol. */
module AccountFit {
  import opened Outcomes
  import opened Lists

  /** Times are moments, as the parsed UTC timestamps. */
  datatype MarginSnapshot = MarginSnapshot(
    broker: string, symbol: string, initialRequirement: real, maintenanceRequirement: real,
    capturedAt: int, validTo: int)

  datatype FeeSchedule = FeeSchedule(
    broker: string, symbol: string, commissionPerSide: real, exchangePerSide: real, validFrom: int, validTo: int)

  datatype Account = Account(
    broker: string, startingEquity: int, approvedSymbols: seq<string>, maxPositionSizeBySymbol: map<string, int>,
    maxInitialMarginFraction: real, maxMaintenanceMarginFraction: real, dailyLossLockoutFraction: real,
    maxDrawdownFraction: real, overnightGapStressFraction: real)

  /** Product profiles give the execution symbol; account profiles give the limits. */
  datatype Catalogue = Catalogue(
    products: map<string, string>, accounts: map<string, Account>, targets: set<string>, postures: set<string>)

  datatype Request = Request(
    schemaVersion: int, productProfileId: string, accountProfileId: string, promotionTarget: string,
    contractCount: int, operatingPosture: string, overnightRequested: bool, expectedDailyLoss: real,
    expectedMaxDrawdown: real, expectedOvernightGapStress: real, margin: MarginSnapshot, fees: FeeSchedule,
    evaluatedAt: int)

  datatype Status = PASS | FAIL | INVALID | STALE

  datatype Check =
    | APPROVED_EXECUTION_SYMBOL | INITIAL_MARGIN | MAINTENANCE_MARGIN | DAILY_LOSS_LOCKOUT | MAX_DRAWDOWN
    | OVERNIGHT_GAP_STRESS

  const CHECKS: seq<Check> := [
    APPROVED_EXECUTION_SYMBOL, INITIAL_MARGIN, MAINTENANCE_MARGIN, DAILY_LOSS_LOCKOUT, MAX_DRAWDOWN,
    OVERNIGHT_GAP_STRESS]

  datatype Reason =
    | FIT_INVALID | MARGIN_AND_FEE_STALE | MARGIN_STALE | FEE_STALE | FIT_PASSED | EXCEEDED(check: Check)
    | MULTIPLE_CONSTRAINTS_EXCEEDED

  datatype Report = Report(status: Status, reason: Reason, failed: seq<Check>, allowedSymbol: Option<string>)

  // ---------- What a number of contracts costs ----------

  function RoundTurnFees(f: FeeSchedule, count: int): real {
    count as real * 2.0 * (f.commissionPerSide + f.exchangePerSide)
  }

  function ActualUsd(c: Check, q: Request): real {
    var fees := RoundTurnFees(q.fees, q.contractCount);
    match c
    case APPROVED_EXECUTION_SYMBOL => 0.0
    case INITIAL_MARGIN => q.margin.initialRequirement * q.contractCount as real + fees
    case MAINTENANCE_MARGIN => q.margin.maintenanceRequirement * q.contractCount as real + fees
    case DAILY_LOSS_LOCKOUT => q.expectedDailyLoss + fees
    case MAX_DRAWDOWN => q.expectedMaxDrawdown + fees
    case OVERNIGHT_GAP_STRESS => q.expectedOvernightGapStress + fees
  }

  function LimitFraction(c: Check, a: Account): real {
    match c
    case APPROVED_EXECUTION_SYMBOL => 0.0
    case INITIAL_MARGIN => a.maxInitialMarginFraction
    case MAINTENANCE_MARGIN => a.maxMaintenanceMarginFraction
    case DAILY_LOSS_LOCKOUT => a.dailyLossLockoutFraction
    case MAX_DRAWDOWN => a.maxDrawdownFraction
    case OVERNIGHT_GAP_STRESS => a.overnightGapStressFraction
  }

  predicate Approved(symbol: string, count: int, a: Account) {
    symbol in a.approvedSymbols
    && symbol in a.maxPositionSizeBySymbol && count <= a.maxPositionSizeBySymbol[symbol]
  }

  predicate Fails(c: Check, q: Request, symbol: string, a: Account)
    requires a.startingEquity > 0
  {
    match c
    case APPROVED_EXECUTION_SYMBOL => !Approved(symbol, q.contractCount, a)
    case OVERNIGHT_GAP_STRESS =>
      q.overnightRequested && ActualUsd(c, q) / a.startingEquity as real > LimitFraction(c, a)
    case _ => ActualUsd(c, q) / a.startingEquity as real > LimitFraction(c, a)
  }

  function FailedChecks(q: Request, symbol: string, a: Account, cs: seq<Check>): (r: seq<Check>)
    requires a.startingEquity > 0
    ensures forall c :: c in r <==> c in cs && Fails(c, q, symbol, a)
  {
    if cs == [] then []
    else (if Fails(cs[0], q, symbol, a) then [cs[0]] else []) + FailedChecks(q, symbol, a, cs[1..])
  }

  // ---------- Evaluation ----------

  function InvalidProfiles(q: Request, k: Catalogue): seq<string> {
    var m := Note([], q.schemaVersion != 1, "schema_version");
    var m := Note(m, q.productProfileId !in k.products, "product_profile_id");
    Note(m, q.accountProfileId !in k.accounts, "account_profile_id")
  }

  function InvalidFields(q: Request, k: Catalogue): seq<string> {
    var m := InvalidProfiles(q, k);
    var m := Note(m, q.promotionTarget !in k.targets, "promotion_target");
    Note(m, q.operatingPosture !in k.postures, "requested_operating_posture")
  }

  function InvalidAmounts(m: seq<string>, q: Request): seq<string> {
    var m := Note(m, q.contractCount < 1, "requested_contract_count");
    var m := Note(m, q.expectedDailyLoss < 0.0, "expected_daily_loss_usd");
    var m := Note(m, q.expectedMaxDrawdown < 0.0, "expected_max_drawdown_usd");
    Note(m, q.expectedOvernightGapStress < 0.0, "expected_overnight_gap_stress_usd")
  }

  method CollectInvalidFields(q: Request, k: Catalogue) returns (missing: seq<string>)
    ensures missing == InvalidAmounts(InvalidFields(q, k), q)
  {
    missing := [];
    if q.schemaVersion != 1 { missing := missing + ["schema_version"]; }
    if q.productProfileId !in k.products { missing := missing + ["product_profile_id"]; }
    if q.accountProfileId !in k.accounts { missing := missing + ["account_profile_id"]; }
    assert missing == InvalidProfiles(q, k);
    if q.promotionTarget !in k.targets { missing := missing + ["promotion_target"]; }
    if q.operatingPosture !in k.postures { missing := missing + ["requested_operating_posture"]; }
    missing := CollectInvalidAmounts(missing, q);
  }

  method CollectInvalidAmounts(before: seq<string>, q: Request) returns (missing: seq<string>)
    ensures missing == InvalidAmounts(before, q)
  {
    missing := before;
    if q.contractCount < 1 { missing := missing + ["requested_contract_count"]; }
    if q.expectedDailyLoss < 0.0 { missing := missing + ["expected_daily_loss_usd"]; }
    if q.expectedMaxDrawdown < 0.0 { missing := missing + ["expected_max_drawdown_usd"]; }
    if q.expectedOvernightGapStress < 0.0 { missing := missing + ["expected_overnight_gap_stress_usd"]; }
  }

  predicate ValidRequest(q: Request, k: Catalogue) {
    q.schemaVersion == 1 && q.productProfileId in k.products && q.accountProfileId in k.accounts
    && q.promotionTarget in k.targets && q.operatingPosture in k.postures && q.contractCount >= 1
    && q.expectedDailyLoss >= 0.0 && q.expectedMaxDrawdown >= 0.0 && q.expectedOvernightGapStress >= 0.0
  }

  lemma NothingInvalid(q: Request, k: Catalogue)
    ensures InvalidAmounts(InvalidFields(q, k), q) == [] <==> ValidRequest(q, k)
  {
  }

  predicate Aligned(q: Request, symbol: string, a: Account) {
    q.margin.broker == a.broker && q.fees.broker == a.broker && q.margin.symbol == symbol && q.fees.symbol == symbol
  }

  predicate MarginFresh(q: Request) {
    q.margin.capturedAt <= q.evaluatedAt <= q.margin.validTo
  }

  predicate FeesCurrent(q: Request) {
    q.fees.validFrom <= q.evaluatedAt <= q.fees.validTo
  }

  /** The catalogue's accounts have positive starting equity. */
  predicate ValidCatalogue(k: Catalogue) {
    forall id :: id in k.accounts ==> k.accounts[id].startingEquity > 0
  }

  function Verdict(failed: seq<Check>, symbol: string): Report {
    if failed == [] then Report(PASS, FIT_PASSED, [], Some(symbol))
    else Report(FAIL, if |failed| == 1 then EXCEEDED(failed[0]) else MULTIPLE_CONSTRAINTS_EXCEEDED, failed, None)
  }

  function Evaluate(q: Request, k: Catalogue): Report
    requires ValidCatalogue(k)
  {
    if !ValidRequest(q, k) then Report(INVALID, FIT_INVALID, [], None)
    else
      var symbol, a := k.products[q.productProfileId], k.accounts[q.accountProfileId];
      if !Aligned(q, symbol, a) then Report(INVALID, FIT_INVALID, [], None)
      else if !MarginFresh(q) && !FeesCurrent(q) then Report(STALE, MARGIN_AND_FEE_STALE, [], None)
      else if !MarginFresh(q) then Report(STALE, MARGIN_STALE, [], None)
      else if !FeesCurrent(q) then Report(STALE, FEE_STALE, [], None)
      else Verdict(FailedChecks(q, symbol, a, CHECKS), symbol)
  }

  method EvaluateAccountFit(q: Request, k: Catalogue) returns (report: Report)
    requires ValidCatalogue(k)
    ensures report == Evaluate(q, k)
  {
    var missing := CollectInvalidFields(q, k);
    NothingInvalid(q, k);
    if missing != [] {
      return Report(INVALID, FIT_INVALID, [], None);
    }
    var symbol, a := k.products[q.productProfileId], k.accounts[q.accountProfileId];
    var alignmentErrors: seq<string> := [];
    if q.margin.broker != a.broker { alignmentErrors := alignmentErrors + ["margin_snapshot.broker"]; }
    if q.fees.broker != a.broker { alignmentErrors := alignmentErrors + ["fee_schedule.broker"]; }
    if q.margin.symbol != symbol { alignmentErrors := alignmentErrors + ["margin_snapshot.symbol"]; }
    if q.fees.symbol != symbol { alignmentErrors := alignmentErrors + ["fee_schedule.symbol"]; }
    if alignmentErrors != [] {
      return Report(INVALID, FIT_INVALID, [], None);
    }
    if !MarginFresh(q) || !FeesCurrent(q) {
      var reason :=
        if !MarginFresh(q) && !FeesCurrent(q) then MARGIN_AND_FEE_STALE
        else if !MarginFresh(q) then MARGIN_STALE
        else FEE_STALE;
      return Report(STALE, reason, [], None);
    }
    report := Verdict(FailedChecks(q, symbol, a, CHECKS), symbol);
  }

  // ---------- What the report says ----------

  lemma {:induction false} FailedDistinct(q: Request, symbol: string, a: Account, cs: seq<Check>)
    requires a.startingEquity > 0 && Distinct(cs)
    ensures Distinct(FailedChecks(q, symbol, a, cs))
  {
    if cs != [] {
      DistinctTail(cs);
      FailedDistinct(q, symbol, a, cs[1..]);
      if Fails(cs[0], q, symbol, a) { DistinctFront(cs[0], FailedChecks(q, symbol, a, cs[1..])); }
    }
  }

  lemma EveryCheckListed(c: Check)
    ensures c in CHECKS
  {
  }

  lemma EveryFailureListed(q: Request, symbol: string, a: Account)
    requires a.startingEquity > 0
    ensures var failed := FailedChecks(q, symbol, a, CHECKS);
            && (forall c :: c in failed <==> Fails(c, q, symbol, a))
            && (failed == [] <==> forall c :: !Fails(c, q, symbol, a))
            && forall c :: failed == [c] <==> forall d :: Fails(d, q, symbol, a) <==> d == c
  {
    var failed := FailedChecks(q, symbol, a, CHECKS);
    forall c ensures c in failed <==> Fails(c, q, symbol, a) { EveryCheckListed(c); }
    if failed != [] { assert failed[0] in failed; }
    FailedDistinct(q, symbol, a, CHECKS);
    forall c ensures failed == [c] <==> forall d :: Fails(d, q, symbol, a) <==> d == c { OnlyElement(failed, c); }
  }

  /** The request names known profiles, and its artifacts belong to that contract and broker. */
  predicate Assessable(q: Request, k: Catalogue) {
    ValidRequest(q, k)
    && Aligned(q, k.products[q.productProfileId], k.accounts[q.accountProfileId])
  }

  /** Failing check `c` of a request on known profiles. */
  predicate FailsHere(c: Check, q: Request, k: Catalogue)
    requires ValidCatalogue(k) && ValidRequest(q, k)
  {
    Fails(c, q, k.products[q.productProfileId], k.accounts[q.accountProfileId])
  }

  /**
   * Requests with invalid fields, unknown profiles or misaligned artifacts are invalid; others with an artifact
   * outside its window are stale; on the rest the failed checks are exactly those that fail, one alone is named as
   * the reason, and the product's symbol is allowed exactly when none fails.
   */
  lemma ReportClassifies(q: Request, k: Catalogue)
    requires ValidCatalogue(k)
    ensures var r := Evaluate(q, k);
            && (r.status == INVALID <==> !Assessable(q, k))
            && (r.status == STALE <==> Assessable(q, k) && !(MarginFresh(q) && FeesCurrent(q)))
            && (r.status == STALE ==>
                 (r.reason == MARGIN_STALE <==> FeesCurrent(q)) && (r.reason == FEE_STALE <==> MarginFresh(q)))
            && (r.status == PASS || r.status == FAIL ==> forall c :: c in r.failed <==> FailsHere(c, q, k))
            && (r.status == PASS <==> r.allowedSymbol.Some?)
            && (r.status == PASS ==> r.allowedSymbol == Some(k.products[q.productProfileId]))
            && (r.status == PASS <==> Assessable(q, k) && MarginFresh(q) && FeesCurrent(q) && r.failed == [])
            && forall c :: r.reason == EXCEEDED(c) <==>
                 Assessable(q, k) && MarginFresh(q) && FeesCurrent(q) && forall d :: FailsHere(d, q, k) <==> d == c
  {
    if Assessable(q, k) {
      var symbol, a := k.products[q.productProfileId], k.accounts[q.accountProfileId];
      EveryFailureListed(q, symbol, a);
      VerdictOnFailures(FailedChecks(q, symbol, a, CHECKS), symbol);
    }
  }

  lemma VerdictOnFailures(failed: seq<Check>, symbol: string)
    ensures var r := Verdict(failed, symbol);
            && r.failed == failed && (r.status == PASS || r.status == FAIL)
            && (r.status == PASS <==> failed == []) && (r.allowedSymbol == Some(symbol) <==> failed == [])
            && forall c :: r.reason == EXCEEDED(c) <==> failed == [c]
  {
    assert |failed| == 1 ==> failed == [failed[0]];
  }

  // ---------- The contract-count cut-off ----------

  /** What the artifact readers enforce on amounts. */
  predicate NonNegativeCosts(q: Request) {
    q.margin.initialRequirement >= 0.0 && q.margin.maintenanceRequirement >= 0.0
    && q.fees.commissionPerSide >= 0.0 && q.fees.exchangePerSide >= 0.0
  }

  function WithCount(q: Request, n: int): Request {
    q.(contractCount := n)
  }

  lemma ProductGrows(x: real, m: int, n: int)
    requires x >= 0.0 && m <= n
    ensures x * m as real <= x * n as real
  {
    assert x * n as real - x * m as real == x * (n - m) as real >= 0.0;
  }

  lemma FeesGrow(f: FeeSchedule, m: int, n: int)
    requires f.commissionPerSide >= 0.0 && f.exchangePerSide >= 0.0 && m <= n
    ensures RoundTurnFees(f, m) <= RoundTurnFees(f, n)
  {
    var perSide := f.commissionPerSide + f.exchangePerSide;
    ProductGrows(perSide, m, n);
    assert RoundTurnFees(f, m) == perSide * m as real * 2.0;
    assert RoundTurnFees(f, n) == perSide * n as real * 2.0;
  }

  lemma CostsGrow(c: Check, q: Request, m: int, n: int)
    requires NonNegativeCosts(q) && m <= n
    ensures ActualUsd(c, WithCount(q, m)) <= ActualUsd(c, WithCount(q, n))
  {
    FeesGrow(q.fees, m, n);
    ProductGrows(q.margin.initialRequirement, m, n);
    ProductGrows(q.margin.maintenanceRequirement, m, n);
  }

  lemma QuotientGrows(x: real, y: real, h: real)
    requires x <= y && h > 0.0
    ensures x / h <= y / h
  {
  }

  /** A check that fails at some size fails at every larger size. */
  lemma FailuresGrowWithSize(c: Check, q: Request, symbol: string, a: Account, m: int, n: int)
    requires a.startingEquity > 0 && NonNegativeCosts(q) && m <= n
    requires Fails(c, WithCount(q, m), symbol, a)
    ensures Fails(c, WithCount(q, n), symbol, a)
  {
    CostsGrow(c, q, m, n);
    QuotientGrows(ActualUsd(c, WithCount(q, m)), ActualUsd(c, WithCount(q, n)), a.startingEquity as real);
  }

  predicate Fits(q: Request, k: Catalogue, n: int)
    requires ValidCatalogue(k)
  {
    Evaluate(WithCount(q, n), k).status == PASS
  }

  lemma FitsIff(q: Request, k: Catalogue, n: int)
    requires ValidCatalogue(k) && q.productProfileId in k.products && q.accountProfileId in k.accounts
    ensures var symbol, a := k.products[q.productProfileId], k.accounts[q.accountProfileId];
            Fits(q, k, n) <==>
              ValidRequest(WithCount(q, n), k) && Aligned(q, symbol, a) && MarginFresh(q) && FeesCurrent(q)
              && forall c :: !Fails(c, WithCount(q, n), symbol, a)
  {
    var symbol, a := k.products[q.productProfileId], k.accounts[q.accountProfileId];
    ReportClassifies(WithCount(q, n), k);
    EveryFailureListed(WithCount(q, n), symbol, a);
  }

  lemma SmallerFits(q: Request, k: Catalogue, m: int, n: int)
    requires ValidCatalogue(k) && NonNegativeCosts(q) && 1 <= m <= n && Fits(q, k, n)
    ensures Fits(q, k, m)
  {
    assert ValidRequest(WithCount(q, n), k);
    FitsIff(q, k, m);
    FitsIff(q, k, n);
    var symbol, a := k.products[q.productProfileId], k.accounts[q.accountProfileId];
    forall c ensures !Fails(c, WithCount(q, m), symbol, a) {
      if Fails(c, WithCount(q, m), symbol, a) { FailuresGrowWithSize(c, q, symbol, a, m, n); }
    }
  }

  lemma {:induction false} CutOffUpTo(q: Request, k: Catalogue, bound: nat) returns (cut: nat)
    requires ValidCatalogue(k) && NonNegativeCosts(q)
    ensures cut <= bound && forall n :: 1 <= n <= bound ==> (Fits(q, k, n) <==> n <= cut)
  {
    if bound == 0 {
      cut := 0;
    } else if Fits(q, k, bound) {
      cut := bound;
      forall n | 1 <= n <= bound ensures Fits(q, k, n) { SmallerFits(q, k, n, bound); }
    } else {
      cut := CutOffUpTo(q, k, bound - 1);
    }
  }

  /** There is a size, at most the approved one, below which every positive size fits and above which none does. */
  lemma CutOff(q: Request, k: Catalogue, symbol: string, a: Account) returns (cut: nat)
    requires ValidCatalogue(k) && NonNegativeCosts(q)
    requires q.productProfileId in k.products && k.products[q.productProfileId] == symbol
    requires q.accountProfileId in k.accounts && k.accounts[q.accountProfileId] == a
    ensures forall n :: n >= 1 ==> (Fits(q, k, n) <==> n <= cut)
    ensures cut > 0 ==> Approved(symbol, cut, a)
  {
    var size := if symbol in a.maxPositionSizeBySymbol then a.maxPositionSizeBySymbol[symbol] else 0;
    var bound := if size > 0 then size else 0;
    cut := CutOffUpTo(q, k, bound);
    forall n | n >= 1 ensures Fits(q, k, n) ==> Approved(symbol, n, a) {
      FitsIff(q, k, n);
      if Fits(q, k, n) { assert !Fails(APPROVED_EXECUTION_SYMBOL, WithCount(q, n), symbol, a); }
    }
  }

  // ---------- A pass on the request's own numbers ----------

  /** What is needed besides margin or loss: fees for both sides of every contract. */
  function Fees(q: Request): real {
    q.contractCount as real * 2.0 * (q.fees.commissionPerSide + q.fees.exchangePerSide)
  }

  /** The amounts stay within the account's fractions of its starting equity. */
  predicate WithinLimits(q: Request, a: Account) {
    var equity, n := a.startingEquity as real, q.contractCount as real;
    && q.margin.initialRequirement * n + Fees(q) <= a.maxInitialMarginFraction * equity
    && q.margin.maintenanceRequirement * n + Fees(q) <= a.maxMaintenanceMarginFraction * equity
    && q.expectedDailyLoss + Fees(q) <= a.dailyLossLockoutFraction * equity
    && q.expectedMaxDrawdown + Fees(q) <= a.maxDrawdownFraction * equity
    && (q.overnightRequested ==> q.expectedOvernightGapStress + Fees(q) <= a.overnightGapStressFraction * equity)
  }

  lemma OverFractionIff(x: real, h: real, limit: real)
    requires h > 0.0
    ensures x / h > limit <==> x > limit * h
  {
    var y := x / h;
    assert y * h == x;
    assert y > limit <==> y * h > limit * h;
  }

  lemma NothingFailsIff(q: Request, symbol: string, a: Account)
    requires a.startingEquity > 0
    ensures (forall c :: !Fails(c, q, symbol, a)) <==> Approved(symbol, q.contractCount, a) && WithinLimits(q, a)
  {
    forall c ensures Fails(c, q, symbol, a) <==> FailsInUsd(c, q, symbol, a) { FailsInUsdIff(c, q, symbol, a); }
    if forall c :: !Fails(c, q, symbol, a) {
      assert !Fails(APPROVED_EXECUTION_SYMBOL, q, symbol, a) && !Fails(INITIAL_MARGIN, q, symbol, a);
      assert !Fails(MAINTENANCE_MARGIN, q, symbol, a) && !Fails(DAILY_LOSS_LOCKOUT, q, symbol, a);
      assert !Fails(MAX_DRAWDOWN, q, symbol, a) && !Fails(OVERNIGHT_GAP_STRESS, q, symbol, a);
    }
  }

  predicate FailsInUsd(c: Check, q: Request, symbol: string, a: Account) {
    var equity, n := a.startingEquity as real, q.contractCount as real;
    match c
    case APPROVED_EXECUTION_SYMBOL => !Approved(symbol, q.contractCount, a)
    case INITIAL_MARGIN => q.margin.initialRequirement * n + Fees(q) > a.maxInitialMarginFraction * equity
    case MAINTENANCE_MARGIN => q.margin.maintenanceRequirement * n + Fees(q) > a.maxMaintenanceMarginFraction * equity
    case DAILY_LOSS_LOCKOUT => q.expectedDailyLoss + Fees(q) > a.dailyLossLockoutFraction * equity
    case MAX_DRAWDOWN => q.expectedMaxDrawdown + Fees(q) > a.maxDrawdownFraction * equity
    case OVERNIGHT_GAP_STRESS =>
      q.overnightRequested && q.expectedOvernightGapStress + Fees(q) > a.overnightGapStressFraction * equity
  }

  /** A check compares an amount of dollars with the account's own fraction of its equity. */
  lemma FailsInUsdIff(c: Check, q: Request, symbol: string, a: Account)
    requires a.startingEquity > 0
    ensures Fails(c, q, symbol, a) <==> FailsInUsd(c, q, symbol, a)
  {
    OverFractionIff(ActualUsd(c, q), a.startingEquity as real, LimitFraction(c, a));
  }

  /** The request passes exactly when it is valid, its artifacts fit and are in force, and nothing is over its limit. */
  lemma PassWrittenOut(q: Request, k: Catalogue, symbol: string, a: Account)
    requires ValidCatalogue(k)
    requires q.productProfileId in k.products && k.products[q.productProfileId] == symbol
    requires q.accountProfileId in k.accounts && k.accounts[q.accountProfileId] == a
    ensures Evaluate(q, k).status == PASS <==>
            && q.schemaVersion == 1 && q.promotionTarget in k.targets && q.operatingPosture in k.postures
            && q.contractCount >= 1 && q.expectedDailyLoss >= 0.0 && q.expectedMaxDrawdown >= 0.0
            && q.expectedOvernightGapStress >= 0.0
            && q.margin.broker == a.broker && q.fees.broker == a.broker
            && q.margin.symbol == symbol && q.fees.symbol == symbol
            && q.margin.capturedAt <= q.evaluatedAt <= q.margin.validTo
            && q.fees.validFrom <= q.evaluatedAt <= q.fees.validTo
            && symbol in a.approvedSymbols && symbol in a.maxPositionSizeBySymbol
            && q.contractCount <= a.maxPositionSizeBySymbol[symbol]
            && WithinLimits(q, a)
  {
    ReportClassifies(q, k);
    EveryFailureListed(q, symbol, a);
    NothingFailsIff(q, symbol, a);
  }

  /** Stale artifacts are told apart by their own windows. */
  lemma StaleWrittenOut(q: Request, k: Catalogue)
    requires ValidCatalogue(k) && Assessable(q, k)
    ensures var r := Evaluate(q, k);
            var margin := q.margin.capturedAt <= q.evaluatedAt <= q.margin.validTo;
            var fees := q.fees.validFrom <= q.evaluatedAt <= q.fees.validTo;
            && (r.status == STALE <==> !margin || !fees)
            && (r.reason == MARGIN_AND_FEE_STALE <==> !margin && !fees)
            && (r.reason == MARGIN_STALE <==> !margin && fees) && (r.reason == FEE_STALE <==> margin && !fees)
  {
    ReportClassifies(q, k);
    if MarginFresh(q) && FeesCurrent(q) {
      var symbol, a := k.products[q.productProfileId], k.accounts[q.accountProfileId];
      VerdictOnFailures(FailedChecks(q, symbol, a, CHECKS), symbol);
    }
  }
}
