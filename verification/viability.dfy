/** Absolute-dollar viability: lower-touch dominance and the keep, pivot or reject decision. */
module Viability {
  import opened Outcomes
  import opened Lists

  // ---------- Dominance of a lower-touch alternative ----------

  function SafeRatio(numerator: real, denominator: real): Option<real> {
    if denominator <= 0.0 then None else Some(numerator / denominator)
  }

  function RatioOf(net: Option<real>, hours: Option<real>): Option<real> {
    if net.Some? && hours.Some? then SafeRatio(net.value, hours.value) else None
  }

  function LowerTouchDominates(net: real, hours: Option<real>, altNet: Option<real>, altHours: Option<real>): bool {
    var perHour, altPerHour := RatioOf(Some(net), hours), RatioOf(altNet, altHours);
    if altNet.None? then false
    else if hours.None? || altHours.None? then altNet.value >= net
    else if altHours.value > hours.value then false
    else altNet.value >= net || (altPerHour.Some? && perHour.Some? && altPerHour.value >= perHour.value)
  }

  lemma QuotientTimes(x: real, h: real)
    requires h > 0.0
    ensures x / h * h == x
  {
  }

  lemma ScaleKeepsOrder(x: real, y: real, h: real)
    requires h > 0.0
    ensures x >= y <==> x * h >= y * h
  {
  }

  /** Comparing hourly rates is comparing cross products. */
  lemma RatesCompareAsProducts(altNet: real, altHours: real, net: real, hours: real)
    requires altHours > 0.0 && hours > 0.0
    ensures altNet / altHours >= net / hours <==> altNet * hours >= net * altHours
  {
    var a, c := altNet / altHours, net / hours;
    QuotientTimes(altNet, altHours);
    QuotientTimes(net, hours);
    assert altNet * hours == a * (altHours * hours);
    assert net * altHours == c * (altHours * hours);
    ScaleKeepsOrder(a, c, altHours * hours);
  }

  /** Dominance without division, for positive hours on both sides. */
  lemma DominatesIff(net: real, hours: real, altNet: real, altHours: real)
    requires 0.0 < altHours <= hours
    ensures LowerTouchDominates(net, Some(hours), Some(altNet), Some(altHours))
            <==> altNet >= net || altNet * hours >= net * altHours
  {
    RatesCompareAsProducts(altNet, altHours, net, hours);
  }

  /** For an alternative that does not lose money, the cross product alone decides. */
  lemma DominatesIffProduct(net: real, hours: real, altNet: real, altHours: real)
    requires 0.0 < altHours <= hours && altNet >= 0.0
    ensures LowerTouchDominates(net, Some(hours), Some(altNet), Some(altHours))
            <==> altNet * hours >= net * altHours
  {
    DominatesIff(net, hours, altNet, altHours);
    if altNet >= net {
      ScaleKeepsOrder(altNet, net, altHours);
      assert altNet * hours - altNet * altHours == altNet * (hours - altHours) >= 0.0;
    }
  }

  /** The cross product decides for every candidate exactly when the alternative loses no money or saves no time. */
  lemma ProductDecidesIff(hours: real, altNet: real, altHours: real)
    requires 0.0 < altHours <= hours
    ensures (forall net: real ::
              LowerTouchDominates(net, Some(hours), Some(altNet), Some(altHours))
              <==> altNet * hours >= net * altHours)
            <==> altNet >= 0.0 || altHours == hours
  {
    if altNet >= 0.0 || altHours == hours {
      forall net: real ensures LowerTouchDominates(net, Some(hours), Some(altNet), Some(altHours))
                               <==> altNet * hours >= net * altHours
      {
        if altNet >= 0.0 {
          DominatesIffProduct(net, hours, altNet, altHours);
        } else {
          DominatesIff(net, hours, altNet, altHours);
          ScaleKeepsOrder(altNet, net, hours);
        }
      }
    } else {
      DominatesIff(altNet, hours, altNet, altHours);
      assert altNet * hours - altNet * altHours == altNet * (hours - altHours) < 0.0;
    }
  }

  /** A better candidate is never newly dominated, whatever hours are known. */
  lemma BetterCandidateIsNotNewlyDominated(
      net: real, better: real, hours: Option<real>, altNet: Option<real>, altHours: Option<real>)
    requires net <= better && LowerTouchDominates(better, hours, altNet, altHours)
    ensures LowerTouchDominates(net, hours, altNet, altHours)
  {
    if hours.Some? && altNet.Some? && altHours.Some? && hours.value > 0.0 && altHours.value > 0.0
       && altHours.value <= hours.value
    {
      DominatesIff(net, hours.value, altNet.value, altHours.value);
      DominatesIff(better, hours.value, altNet.value, altHours.value);
      ScaleKeepsOrder(better, net, altHours.value);
    }
  }

  // ---------- Checks and decision ----------

  datatype Thresholds = Thresholds(
    deMinimisMonthlyNet: real, minimumPassiveGoldExcess: real, minimumCashExcess: real,
    minimumLowTurnoverMonthlyNet: real)

  datatype Request = Request(
    schemaVersion: int, accountFitStatus: string, committedMargin: real, approvedStartingEquity: int,
    conservativeMonthlyNet: real, passiveGoldBenchmark: real, cashBenchmark: real, lowTurnoverMonthlyNet: real,
    operatorHours: Option<real>, alternativeNet: Option<real>, alternativeHours: Option<real>,
    thresholds: Thresholds)

  datatype Check = DE_MINIMIS | PASSIVE_GOLD_EXCESS | CASH_EXCESS | LOW_TURNOVER_DOWNSIDE | LOWER_TOUCH_DOMINANCE

  datatype Decision = KEEP | PIVOT | REJECT

  datatype Reason =
    | INVALID_SCHEMA | ACCOUNT_FIT_PREREQUISITE_MISSING | COMMITTED_MARGIN_INVALID | FREE_CASH_INVALID
    | PASSED | FAILED(check: Check) | REJECTED | PIVOT_REQUIRED

  predicate Passed(c: Check, q: Request) {
    var net, t := q.conservativeMonthlyNet, q.thresholds;
    match c
    case DE_MINIMIS => net >= t.deMinimisMonthlyNet
    case PASSIVE_GOLD_EXCESS => net - q.passiveGoldBenchmark >= t.minimumPassiveGoldExcess
    case CASH_EXCESS => net - q.cashBenchmark >= t.minimumCashExcess
    case LOW_TURNOVER_DOWNSIDE => q.lowTurnoverMonthlyNet >= t.minimumLowTurnoverMonthlyNet
    case LOWER_TOUCH_DOMINANCE => !LowerTouchDominates(net, q.operatorHours, q.alternativeNet, q.alternativeHours)
  }

  const REJECTING: seq<Check> := [DE_MINIMIS, PASSIVE_GOLD_EXCESS, CASH_EXCESS]
  const PIVOTING: seq<Check> := [LOW_TURNOVER_DOWNSIDE, LOWER_TOUCH_DOMINANCE]

  function Failures(cs: seq<Check>, q: Request): (r: seq<Check>)
    ensures forall c :: c in r <==> c in cs && !Passed(c, q)
  {
    if cs == [] then []
    else (if Passed(cs[0], q) then [] else [cs[0]]) + Failures(cs[1..], q)
  }

  /** The decision on the names of the failing checks. */
  function Decide(rejects: seq<Check>, pivots: seq<Check>): (Decision, Reason) {
    if rejects == [] && pivots == [] then (KEEP, PASSED)
    else if rejects != [] then (REJECT, if |rejects| == 1 && pivots == [] then FAILED(rejects[0]) else REJECTED)
    else (PIVOT, if |pivots| == 1 then FAILED(pivots[0]) else PIVOT_REQUIRED)
  }

  function Evaluate(q: Request): (Decision, Reason) {
    if q.schemaVersion != 1 then (REJECT, INVALID_SCHEMA)
    else if q.accountFitStatus != "pass" then (REJECT, ACCOUNT_FIT_PREREQUISITE_MISSING)
    else if q.committedMargin <= 0.0 then (REJECT, COMMITTED_MARGIN_INVALID)
    else if q.approvedStartingEquity as real - q.committedMargin <= 0.0 then (REJECT, FREE_CASH_INVALID)
    else Decide(Failures(REJECTING, q), Failures(PIVOTING, q))
  }

  predicate Assessable(q: Request) {
    q.schemaVersion == 1 && q.accountFitStatus == "pass" && q.committedMargin > 0.0
    && q.approvedStartingEquity as real > q.committedMargin
  }

  /** The decision read off the checks: keep when all pass, reject when a benchmark check fails, else pivot. */
  lemma DecisionFollowsChecks(q: Request)
    ensures Evaluate(q).0 == KEEP <==> Assessable(q) && forall c :: Passed(c, q)
    ensures Evaluate(q).0 == REJECT <==>
            !Assessable(q) || !Passed(DE_MINIMIS, q) || !Passed(PASSIVE_GOLD_EXCESS, q) || !Passed(CASH_EXCESS, q)
  {
    var rejects, pivots := Failures(REJECTING, q), Failures(PIVOTING, q);
    forall c ensures c in REJECTING || c in PIVOTING { EveryCheckListed(c); }
    assert rejects == [] <==> forall c :: c in REJECTING ==> Passed(c, q) by {
      if rejects != [] { assert rejects[0] in rejects; }
    }
    assert pivots == [] <==> forall c :: c in PIVOTING ==> Passed(c, q) by {
      if pivots != [] { assert pivots[0] in pivots; }
    }
  }

  /** A request's only failing check. */
  ghost predicate FailsAlone(c: Check, q: Request) {
    forall d :: Passed(d, q) <==> d != c
  }

  /** A check is given as the reason exactly when it is the only one that fails on an assessable request. */
  lemma ReasonNamesTheOnlyFailure(q: Request, c: Check)
    ensures Evaluate(q).1 == FAILED(c) <==> Assessable(q) && FailsAlone(c, q)
  {
    OneNameDecides(Failures(REJECTING, q), Failures(PIVOTING, q), c);
    OneNameListed(q, c);
  }

  /** One of the two lists holds just the check's name, and the other is empty, exactly when it fails alone. */
  lemma OneNameListed(q: Request, c: Check)
    ensures var rejects, pivots := Failures(REJECTING, q), Failures(PIVOTING, q);
            (rejects == [c] && pivots == []) || (rejects == [] && pivots == [c]) <==> FailsAlone(c, q)
  {
    EveryCheckListed(c);
    OnlyListed(REJECTING, q, c);
    OnlyListed(PIVOTING, q, c);
    NoneListed(REJECTING, q);
    NoneListed(PIVOTING, q);
    AloneInOneList(c, q);
  }

  lemma OneNameDecides(rejects: seq<Check>, pivots: seq<Check>, c: Check)
    ensures Decide(rejects, pivots).1 == FAILED(c)
            <==> (rejects == [c] && pivots == []) || (rejects == [] && pivots == [c])
  {
  }

  /** Failing alone, list by list. */
  lemma AloneInOneList(c: Check, q: Request)
    ensures FailsAlone(c, q) <==>
            !Passed(c, q)
            && (forall d :: d in REJECTING && d != c ==> Passed(d, q))
            && (forall d :: d in PIVOTING && d != c ==> Passed(d, q))
  {
    forall d ensures d in REJECTING || d in PIVOTING { EveryCheckListed(d); }
  }

  lemma NoneListed(cs: seq<Check>, q: Request)
    ensures Failures(cs, q) == [] <==> forall c :: c in cs ==> Passed(c, q)
  {
    if Failures(cs, q) != [] { assert Failures(cs, q)[0] in Failures(cs, q); }
  }

  lemma {:induction false} FailuresDistinct(cs: seq<Check>, q: Request)
    requires Distinct(cs)
    ensures Distinct(Failures(cs, q))
  {
    if cs != [] {
      DistinctTail(cs);
      FailuresDistinct(cs[1..], q);
      if !Passed(cs[0], q) { DistinctFront(cs[0], Failures(cs[1..], q)); }
    }
  }

  /** Among distinct checks, just one name is listed exactly when just that check fails. */
  lemma OnlyListed(cs: seq<Check>, q: Request, c: Check)
    requires Distinct(cs)
    ensures Failures(cs, q) == [c] <==> c in cs && !Passed(c, q) && forall d :: d in cs && d != c ==> Passed(d, q)
  {
    FailuresDistinct(cs, q);
    OnlyElement(Failures(cs, q), c);
  }

  lemma EveryCheckListed(c: Check)
    ensures c in REJECTING <==> c == DE_MINIMIS || c == PASSIVE_GOLD_EXCESS || c == CASH_EXCESS
    ensures c in PIVOTING <==> c == LOW_TURNOVER_DOWNSIDE || c == LOWER_TOUCH_DOMINANCE
  {
  }

  /** The alternative beats the candidate's hourly rate; both rates need positive hours. */
  predicate BetterPerHour(net: real, hours: real, altNet: real, altHours: real) {
    hours > 0.0 && altHours > 0.0 && altNet * hours >= net * altHours
  }

  /** Whether a lower-touch alternative dominates, for all that may be known of the two, without division. */
  lemma DominatesWrittenOut(net: real, hours: Option<real>, altNet: Option<real>, altHours: Option<real>)
    ensures LowerTouchDominates(net, hours, altNet, altHours) <==>
            && altNet.Some?
            && (hours.Some? && altHours.Some? ==>
                 altHours.value <= hours.value
                 && (altNet.value >= net || BetterPerHour(net, hours.value, altNet.value, altHours.value)))
            && (hours.None? || altHours.None? ==> altNet.value >= net)
  {
    if altNet.Some? && hours.Some? && altHours.Some? && hours.value > 0.0 && altHours.value > 0.0 {
      RatesCompareAsProducts(altNet.value, altHours.value, net, hours.value);
    }
  }

  /** The request clears the floor and both benchmarks. */
  predicate BeatsBenchmarks(q: Request) {
    && q.conservativeMonthlyNet >= q.thresholds.deMinimisMonthlyNet
    && q.conservativeMonthlyNet - q.passiveGoldBenchmark >= q.thresholds.minimumPassiveGoldExcess
    && q.conservativeMonthlyNet - q.cashBenchmark >= q.thresholds.minimumCashExcess
  }

  /** The decision on the request's own numbers. */
  lemma DecisionWrittenOut(q: Request)
    ensures var sound := q.schemaVersion == 1 && q.accountFitStatus == "pass" && q.committedMargin > 0.0
                         && q.approvedStartingEquity as real > q.committedMargin;
            var holdsUp := q.lowTurnoverMonthlyNet >= q.thresholds.minimumLowTurnoverMonthlyNet
                           && !LowerTouchDominates(
                                q.conservativeMonthlyNet, q.operatorHours, q.alternativeNet, q.alternativeHours);
            && (Evaluate(q).0 == KEEP <==> sound && BeatsBenchmarks(q) && holdsUp)
            && (Evaluate(q).0 == PIVOT <==> sound && BeatsBenchmarks(q) && !holdsUp)
            && (Evaluate(q).0 == REJECT <==> !sound || !BeatsBenchmarks(q))
  {
    DecisionFollowsChecks(q);
    assert (forall c :: Passed(c, q)) <==>
           Passed(DE_MINIMIS, q) && Passed(PASSIVE_GOLD_EXCESS, q) && Passed(CASH_EXCESS, q)
           && Passed(LOW_TURNOVER_DOWNSIDE, q) && Passed(LOWER_TOUCH_DOMINANCE, q);
  }

  /** What an unassessable request is told, and what failures share a reason. */
  lemma ReasonsWrittenOut(q: Request)
    ensures var r := Evaluate(q).1;
            var fitting, margin := q.accountFitStatus == "pass", q.committedMargin > 0.0;
            && (r == INVALID_SCHEMA <==> q.schemaVersion != 1)
            && (r == ACCOUNT_FIT_PREREQUISITE_MISSING <==> q.schemaVersion == 1 && !fitting)
            && (r == COMMITTED_MARGIN_INVALID <==> q.schemaVersion == 1 && fitting && !margin)
            && (r == FREE_CASH_INVALID <==>
                 q.schemaVersion == 1 && fitting && margin && q.approvedStartingEquity as real <= q.committedMargin)
            && (r == PASSED <==> Evaluate(q).0 == KEEP)
            && (r == PIVOT_REQUIRED ==> Evaluate(q).0 == PIVOT)
            && (r == REJECTED ==> Evaluate(q).0 == REJECT && Assessable(q))
  {
  }

  function Harshness(d: Decision): nat {
    match d
    case KEEP => 0
    case PIVOT => 1
    case REJECT => 2
  }

  /** Raising the conservative net, all else fixed, never makes the decision harsher: for every request. */
  lemma BetterNetNeverHarsher(q: Request, better: real)
    requires q.conservativeMonthlyNet <= better
    ensures Harshness(Evaluate(q.(conservativeMonthlyNet := better)).0) <= Harshness(Evaluate(q).0)
  {
    var q' := q.(conservativeMonthlyNet := better);
    forall c | Passed(c, q) ensures Passed(c, q') {
      if c == LOWER_TOUCH_DOMINANCE && !Passed(c, q') {
        BetterCandidateIsNotNewlyDominated(
          q.conservativeMonthlyNet, better, q.operatorHours, q.alternativeNet, q.alternativeHours);
      }
    }
    DecisionFollowsChecks(q);
    DecisionFollowsChecks(q');
  }
}
