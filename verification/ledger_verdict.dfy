/** The ledger close: its verdict, its incremental form, and what one more event does to it. */
module LedgerVerdict {
  import opened Outcomes
  import opened Ledger
  import opened LedgerClose
  import Text

  // ---------- Differences ----------

  datatype Difference = Difference(
    metric: string, asBooked: Option<real>, asReconciled: Option<real>, authoritative: Option<real>,
    bookedVsReconciled: Option<real>, reconciledVsAuthoritative: Option<real>)

  function Minus(a: Option<real>, b: Option<real>): Option<real> {
    if a.Some? && b.Some? then Some(a.value - b.value) else None
  }

  function DifferenceOf(
      metric: string, asBooked: Option<real>, asReconciled: Option<real>, authoritative: Option<real>): Difference {
    Difference(metric, asBooked, asReconciled, authoritative,
      Minus(asReconciled, asBooked), Minus(asReconciled, authoritative))
  }

  function BuildDifferences(booked: Totals, reconciled: Totals, broker: Snapshot): seq<Difference> {
    [DifferenceOf("position_contracts", Some(booked.position), Some(reconciled.position), broker.position),
     DifferenceOf("cash_balance_usd", Some(booked.cash), Some(reconciled.cash), None),
     DifferenceOf("realized_pnl_usd", Some(booked.pnl), Some(reconciled.pnl), None),
     DifferenceOf("fee_total_usd", Some(booked.fee), Some(reconciled.fee), None),
     DifferenceOf("commission_total_usd", Some(booked.commission), Some(reconciled.commission), None),
     DifferenceOf("broker_initial_margin_requirement_usd", None, None, broker.initialMargin),
     DifferenceOf("broker_maintenance_margin_requirement_usd", None, None, broker.maintenanceMargin)]
  }

  lemma DeltasListAddedTotals(booked: Totals, added: Totals, broker: Snapshot)
    ensures var d := BuildDifferences(booked, Plus(booked, added), broker);
            && d[0].bookedVsReconciled == Some(added.position)
            && d[1].bookedVsReconciled == Some(added.cash)
            && d[2].bookedVsReconciled == Some(added.pnl)
            && d[3].bookedVsReconciled == Some(added.fee)
            && d[4].bookedVsReconciled == Some(added.commission)
  {
  }

  /** Each booked-versus-reconciled delta is that metric's sum over adjustment and restatement events alone. */
  lemma DeltasComeFromReconcilingEvents(log: Log)
    ensures var d := BuildDifferences(Booked(log), Reconciled(log), Latest(log));
            var added := Aggregate(log, RECONCILING);
            && d[0].bookedVsReconciled == Some(added.position)
            && d[1].bookedVsReconciled == Some(added.cash)
            && d[2].bookedVsReconciled == Some(added.pnl)
            && d[3].bookedVsReconciled == Some(added.fee)
            && d[4].bookedVsReconciled == Some(added.commission)
  {
    ReconciledIsBookedPlusAdded(log);
    DeltasListAddedTotals(Booked(log), Aggregate(log, RECONCILING), Latest(log));
  }

  /**
   * The position row compares with the last position the broker reported, if the log holds any position event and
   * that event gives one; no other row has both sides.
   */
  lemma OnlyPositionFacesTheBroker(log: Log)
    ensures var d := BuildDifferences(Booked(log), Reconciled(log), Latest(log));
            && (forall k :: IsLast(log, k, BrokerEodPosition) ==> d[0].authoritative == log[k].authoritativePosition)
            && ((forall k :: !IsLast(log, k, BrokerEodPosition)) ==> d[0].authoritative.None?)
            && (d[0].reconciledVsAuthoritative.Some? <==> d[0].authoritative.Some?)
            && (d[0].authoritative.Some? ==>
                 Reconciled(log).position == d[0].authoritative.value + d[0].reconciledVsAuthoritative.value)
            && forall i :: 1 <= i < |d| ==> d[i].reconciledVsAuthoritative.None?
  {
    LatestIsFromLast(log);
    PositionOnlyWithEvent(log);
  }

  lemma {:induction false} PositionOnlyWithEvent(log: Log)
    ensures Latest(log).position.Some? ==> Latest(log).positionEventId.Some?
  {
    if log != [] { PositionOnlyWithEvent(Front(log)); }
  }

  lemma ReconciledIsBookedPlusAdded(log: Log)
    ensures Reconciled(log) == Plus(Booked(log), Aggregate(log, RECONCILING))
  {
    AggregateSplit(log, BOOKED, RECONCILING);
  }

  predicate Counted(c: EventClass) {
    c in BOOKED + RECONCILING
  }

  /** Broker snapshots and discrepancy events contribute to no total. */
  lemma SnapshotsAndDiscrepanciesDoNotCount(log: Log)
    ensures Booked(Keep(log, Counted)) == Booked(log)
    ensures Reconciled(Keep(log, Counted)) == Reconciled(log)
  {
    UncountedEventsDoNotMatter(log, Counted, BOOKED);
    UncountedEventsDoNotMatter(log, Counted, BOOKED + RECONCILING);
  }

  // ---------- Verdict ----------

  datatype CloseStatus = PASS | REVIEW_REQUIRED | VIOLATION

  datatype Reason =
    | APPEND_ONLY_FAULT(fault: Fault)
    | BROKER_EOD_EVIDENCE_MISSING
    | UNRESOLVED_DISCREPANCY
    | POSITION_NOT_RECONCILED
    | CLOSE_READY

  predicate Named(id: Option<string>) {
    id.Some? && id.value != ""
  }

  function Verdict(integrity: Integrity, broker: Snapshot, reconciled: Totals, unresolved: seq<string>)
    : (CloseStatus, Reason)
  {
    if integrity != Valid then (VIOLATION, APPEND_ONLY_FAULT(integrity.fault))
    else if !Named(broker.positionEventId) || !Named(broker.marginEventId) then
      (REVIEW_REQUIRED, BROKER_EOD_EVIDENCE_MISSING)
    else if unresolved != [] then (REVIEW_REQUIRED, UNRESOLVED_DISCREPANCY)
    else if broker.position.Some? && reconciled.position != broker.position.value then
      (REVIEW_REQUIRED, POSITION_NOT_RECONCILED)
    else (PASS, CLOSE_READY)
  }

  /** What the passes over a log leave behind. */
  datatype Evidence = Evidence(
    booked: Totals, reconciled: Totals, broker: Snapshot, openings: seq<string>, resolved: set<string>,
    classes: seq<string>, traceIds: seq<string>, restatementIds: seq<string>)

  datatype Artifact = Artifact(
    status: CloseStatus, reason: Reason, integrity: Integrity, classesPresent: seq<string>, traceIds: seq<string>,
    booked: Totals, reconciled: Totals, broker: Snapshot, differences: seq<Difference>,
    unresolved: seq<string>, restatementIds: seq<string>)

  function ArtifactOf(integrity: Integrity, e: Evidence): Artifact {
    var unresolved := Without(e.openings, e.resolved);
    var (status, reason) := Verdict(integrity, e.broker, e.reconciled, unresolved);
    Artifact(status, reason, integrity, e.classes, e.traceIds, e.booked, e.reconciled, e.broker,
      BuildDifferences(e.booked, e.reconciled, e.broker), unresolved, e.restatementIds)
  }

  function ClassTexts(log: Log): seq<string> {
    seq(|log|, i requires 0 <= i < |log| => ClassText(log[i].cls))
  }

  function IsRestatement(c: EventClass): bool {
    c == Restatement
  }

  function EvidenceOf(log: Log): Evidence {
    Evidence(Booked(log), Reconciled(log), Latest(log), Opened(log), Resolved(log), Text.SortedSet(ClassTexts(log)),
      TraceIds(log), TraceIds(Keep(log, IsRestatement)))
  }

  /** The close as four separate passes over the whole log. */
  function Close(log: Log, scope: Scope): Artifact {
    ArtifactOf(Scan(log, scope), EvidenceOf(log))
  }

  method EvaluateAccountingLedgerClose(accountId: string, symbol: string, events: Log) returns (artifact: Artifact)
    ensures artifact == Close(events, Scope(Some(accountId), Some(symbol)))
  {
    var integrity := ValidateAppendOnlyLedger(events, Scope(Some(accountId), Some(symbol)));
    var booked := AggregateTotals(events, BOOKED);
    var reconciled := AggregateTotals(events, BOOKED + RECONCILING);
    var broker := LatestBrokerSnapshot(events);
    var unresolved := UnresolvedDiscrepancyIds(events);
    var (status, reason) := Verdict(integrity, broker, reconciled, unresolved);
    artifact := Artifact(status, reason, integrity, Text.SortedSet(ClassTexts(events)), TraceIds(events),
      booked, reconciled, broker, BuildDifferences(booked, reconciled, broker), unresolved,
      TraceIds(Keep(events, IsRestatement)));
  }

  // ---------- What the close records ----------

  /** The ids at strictly increasing positions `at`, which are exactly those of the restatement events. */
  ghost predicate ListsRestatements(log: Log, ids: seq<string>, at: seq<int>) {
    && |at| == |ids|
    && (forall i :: 0 <= i < |at| ==> 0 <= at[i] < |log| && log[at[i]].eventId == ids[i])
    && (forall i, j :: 0 <= i < j < |at| ==> at[i] < at[j])
    && (forall k :: k in at <==> 0 <= k < |log| && log[k].cls == Restatement)
  }

  lemma {:induction false} RestatementPositions(log: Log) returns (at: seq<int>)
    ensures ListsRestatements(log, TraceIds(Keep(log, IsRestatement)), at)
  {
    at := [];
    if log != [] {
      var n, kept := |log| - 1, Keep(Front(log), IsRestatement);
      at := RestatementPositions(Front(log));
      assert forall k :: 0 <= k < n ==> Front(log)[k] == log[k];
      if log[n].cls == Restatement {
        assert TraceIds(kept + [log[n]]) == TraceIds(kept) + [log[n].eventId];
        at := at + [n];
      } else {
        assert kept + [] == kept;
      }
    }
  }

  /** The close lists the id of every restatement event, in log order, and of no other. */
  lemma CloseListsRestatements(log: Log, scope: Scope) returns (at: seq<int>)
    ensures ListsRestatements(log, Close(log, scope).restatementIds, at)
  {
    at := RestatementPositions(log);
  }

  /** The close traces every event by its id, in log order. */
  lemma CloseTracesEveryEvent(log: Log, scope: Scope)
    ensures |Close(log, scope).traceIds| == |log|
    ensures forall i :: 0 <= i < |log| ==> Close(log, scope).traceIds[i] == log[i].eventId
  {
  }

  /** The classes present are listed in the order of their texts. */
  lemma CloseListsClasses(log: Log, scope: Scope, c: EventClass)
    ensures ClassText(c) in Close(log, scope).classesPresent <==> exists i :: 0 <= i < |log| && log[i].cls == c
    ensures Text.Sorted(Close(log, scope).classesPresent)
  {
    Text.SortedSetMembers(ClassTexts(log), ClassText(c));
    Text.SortSorts(Text.Dedupe(ClassTexts(log)));
    if ClassText(c) in ClassTexts(log) {
      var i :| 0 <= i < |log| && ClassText(log[i].cls) == ClassText(c);
      ClassTextsDiffer(log[i].cls, c);
    }
    if i :| 0 <= i < |log| && log[i].cls == c { assert ClassTexts(log)[i] == ClassText(c); }
  }

  /** No two classes share a text. */
  lemma ClassTextsDiffer(c: EventClass, d: EventClass)
    requires ClassText(c) == ClassText(d)
    ensures c == d
  {
    assert |ClassText(c)| == |ClassText(d)|;
    if |ClassText(c)| > 9 { assert ClassText(c)[9] == ClassText(d)[9]; }
  }

  /** Totals, snapshot, differences and open ids of the close are those of the passes, each in its place. */
  lemma CloseRecordsPasses(log: Log, scope: Scope)
    ensures var c := Close(log, scope);
            && c.integrity == Scan(log, scope) && c.booked == Booked(log) && c.reconciled == Reconciled(log)
            && c.broker == Latest(log) && c.unresolved == Unresolved(log)
            && c.differences == BuildDifferences(Booked(log), Reconciled(log), Latest(log))
  {
  }

  /** The rows of the differences, by name, with the amounts they set side by side. */
  lemma DifferenceRows(booked: Totals, reconciled: Totals, broker: Snapshot, i: nat)
    requires i < 7
    ensures |BuildDifferences(booked, reconciled, broker)| == 7
    ensures var d := BuildDifferences(booked, reconciled, broker)[i];
            (d.metric, d.asBooked, d.asReconciled, d.authoritative) ==
              match i
              case 0 => ("position_contracts", Some(booked.position), Some(reconciled.position), broker.position)
              case 1 => ("cash_balance_usd", Some(booked.cash), Some(reconciled.cash), None)
              case 2 => ("realized_pnl_usd", Some(booked.pnl), Some(reconciled.pnl), None)
              case 3 => ("fee_total_usd", Some(booked.fee), Some(reconciled.fee), None)
              case 4 => ("commission_total_usd", Some(booked.commission), Some(reconciled.commission), None)
              case 5 => ("broker_initial_margin_requirement_usd", None, None, broker.initialMargin)
              case _ => ("broker_maintenance_margin_requirement_usd", None, None, broker.maintenanceMargin)
  {
  }

  // ---------- Summaries compose ----------

  /** Totals add, the later snapshot wins, ids concatenate, resolved ids unite. */
  function Merge(a: Evidence, b: Evidence): Evidence {
    Evidence(Plus(a.booked, b.booked), Plus(a.reconciled, b.reconciled), Override(a.broker, b.broker),
      a.openings + b.openings, a.resolved + b.resolved, Text.SortedSet(a.classes + b.classes),
      a.traceIds + b.traceIds, a.restatementIds + b.restatementIds)
  }

  lemma {:induction false} KeepAppend(a: Log, b: Log, wanted: EventClass -> bool)
    ensures Keep(a + b, wanted) == Keep(a, wanted) + Keep(b, wanted)
  {
    if b == [] {
      assert a + b == a;
    } else {
      AppendFront(a, b);
      KeepAppend(a, Front(b), wanted);
    }
  }

  lemma ClassesCompose(a: Log, b: Log)
    ensures Text.SortedSet(ClassTexts(a + b)) ==
            Text.SortedSet(Text.SortedSet(ClassTexts(a)) + Text.SortedSet(ClassTexts(b)))
  {
    assert ClassTexts(a + b) == ClassTexts(a) + ClassTexts(b);
    Text.SortedSetAppend(ClassTexts(a), ClassTexts(b));
  }

  lemma TracesCompose(a: Log, b: Log)
    ensures TraceIds(a + b) == TraceIds(a) + TraceIds(b)
  {
  }

  /** The evidence of two logs laid end to end is the merge of their evidences. */
  lemma EvidenceComposes(a: Log, b: Log)
    ensures EvidenceOf(a + b) == Merge(EvidenceOf(a), EvidenceOf(b))
  {
    AggregateAppend(a, b, BOOKED);
    AggregateAppend(a, b, BOOKED + RECONCILING);
    LatestAppend(a, b);
    DiscrepanciesAppend(a, b);
    KeepAppend(a, b, IsRestatement);
    ClassesCompose(a, b);
    TracesCompose(a, b);
    TracesCompose(Keep(a, IsRestatement), Keep(b, IsRestatement));
  }

  /** A ledger kept up to date event by event. */
  datatype Running = Running(integrity: Integrity, previous: Option<int>, seen: set<string>, evidence: Evidence)

  function Start(): Running {
    Running(Valid, None, {}, EvidenceOf([]))
  }

  function Advance(r: Running, e: Event, scope: Scope): Running {
    var fault := FaultOf(e, r.previous, r.seen, scope);
    Running(
      if r.integrity != Valid then r.integrity else if fault.Some? then Blame(e, fault.value) else Valid,
      Some(e.sequenceId), r.seen + {e.eventId}, Merge(r.evidence, EvidenceOf([e])))
  }

  /** The state after the events of `log`, starting from `r`. */
  function RunFrom(r: Running, log: Log, scope: Scope): Running {
    if log == [] then r else Advance(RunFrom(r, Front(log), scope), Last(log), scope)
  }

  function Run(log: Log, scope: Scope): Running {
    RunFrom(Start(), log, scope)
  }

  /** The state the running ledger should be in after a log. */
  function StateOf(log: Log, scope: Scope): Running {
    Running(Scan(log, scope), PreviousSequence(log), EventIds(log), EvidenceOf(log))
  }

  lemma AdvanceTracksState(log: Log, e: Event, scope: Scope)
    ensures Advance(StateOf(log, scope), e, scope) == StateOf(log + [e], scope)
  {
    LatestAfter(log, e);
    EvidenceComposes(log, [e]);
    IdsOfAppended(log, e);
    ScanAfter(log, e, scope);
  }

  lemma ScanAfter(log: Log, e: Event, scope: Scope)
    ensures Scan(log + [e], scope) ==
            if Scan(log, scope) != Valid then Scan(log, scope)
            else var fault := FaultOf(e, PreviousSequence(log), EventIds(log), scope);
                 if fault.Some? then Blame(e, fault.value) else Valid
  {
    LatestAfter(log, e);
    assert (log + [e])[..|log|] == log;
  }

  lemma NextState(before: Log, log: Log, i: nat, scope: Scope)
    requires i < |log|
    ensures Advance(StateOf(before + log[..i], scope), log[i], scope) == StateOf(before + log[..i + 1], scope)
  {
    assert before + log[..i + 1] == before + log[..i] + [log[i]];
    AdvanceTracksState(before + log[..i], log[i], scope);
  }

  lemma {:induction false} StateAlongRun(before: Log, log: Log, n: nat, scope: Scope)
    requires n <= |log|
    ensures RunFrom(StateOf(before, scope), log[..n], scope) == StateOf(before + log[..n], scope)
  {
    if n == 0 {
      assert before + log[..0] == before;
    } else {
      StateAlongRun(before, log, n - 1, scope);
      assert Front(log[..n]) == log[..n - 1];
      NextState(before, log, n - 1, scope);
    }
  }

  /** Whatever ran before, the state after one more part is the state of the whole log. */
  lemma RunContinues(before: Log, log: Log, scope: Scope)
    ensures RunFrom(StateOf(before, scope), log, scope) == StateOf(before + log, scope)
  {
    StateAlongRun(before, log, |log|, scope);
    assert log[..|log|] == log;
  }

  lemma StartTracksState(scope: Scope)
    ensures Start() == StateOf([], scope)
  {
  }

  lemma RunState(log: Log, scope: Scope)
    ensures Run(log, scope) == StateOf(log, scope)
  {
    StartTracksState(scope);
    RunContinues([], log, scope);
    assert [] + log == log;
  }

  /** After every append of every run, the running ledger closes exactly as the batch passes do. */
  lemma RunningCloseIsBatchClose(log: Log, scope: Scope, n: nat)
    requires n <= |log|
    ensures CloseOf(Run(log[..n], scope)) == Close(log[..n], scope)
  {
    RunState(log[..n], scope);
  }

  function CloseOf(r: Running): Artifact {
    ArtifactOf(r.integrity, r.evidence)
  }

  /**
   * The close of two logs laid end to end: its evidence merges, the first log's fault stays, and from two sound logs
   * it is sound exactly when the second continues the first. Its scan, fault and all, is that of running the second
   * log from the state the first leaves behind.
   */
  lemma CloseComposes(a: Log, b: Log, scope: Scope)
    ensures Close(a + b, scope) == ArtifactOf(Scan(a + b, scope), Merge(EvidenceOf(a), EvidenceOf(b)))
    ensures Close(a + b, scope) == CloseOf(RunFrom(StateOf(a, scope), b, scope))
    ensures Scan(a, scope) != Valid ==> Scan(a + b, scope) == Scan(a, scope)
    ensures Scan(a + b, scope) == Valid <==>
            Scan(a, scope) == Valid && Scan(b, scope) == Valid && Continues(a, b)
  {
    EvidenceComposes(a, b);
    RunContinues(a, b, scope);
    if Scan(a, scope) != Valid { FirstFaultSticks(a, b, scope); }
    ScanValidIffSound(a, scope);
    ScanValidIffSound(b, scope);
    ScanValidIffSound(a + b, scope);
    SoundAppend(a, b, scope);
  }

  // ---------- When a close passes ----------

  predicate Passes(log: Log, scope: Scope) {
    Close(log, scope).status == PASS
  }

  /** The last event of class `c` exists and has a non-empty id. */
  ghost predicate Evidenced(log: Log, c: EventClass) {
    exists k :: IsLast(log, k, c) && log[k].eventId != ""
  }

  ghost predicate EveryOpeningResolved(log: Log) {
    forall i :: 0 <= i < |log| && Opens(log[i]) ==>
      exists j :: 0 <= j < |log| && Resolves(log[j]) && log[j].discrepancyId == log[i].discrepancyId
  }

  /** The last position the broker reported, when it reported one, is the reconciled position. */
  ghost predicate PositionAgrees(log: Log) {
    forall k :: IsLast(log, k, BrokerEodPosition) && log[k].authoritativePosition.Some? ==>
      Reconciled(log).position == log[k].authoritativePosition.value
  }

  lemma {:induction false} OpeningsWitness(log: Log, d: string)
    ensures Openings(log, d) > 0 <==> exists i :: 0 <= i < |log| && Opens(log[i]) && log[i].discrepancyId.value == d
  {
    if log != [] {
      OpeningsWitness(Front(log), d);
      assert forall i :: 0 <= i < |log| - 1 ==> Front(log)[i] == log[i];
    }
  }

  lemma NothingUnresolved(log: Log)
    ensures Unresolved(log) == [] <==> EveryOpeningResolved(log)
  {
    if Unresolved(log) != [] {
      var d := Unresolved(log)[0];
      assert multiset(Unresolved(log))[d] > 0;
      UnresolvedListsEachOpening(log, d);
      OpeningsWitness(log, d);
    } else {
      forall i | 0 <= i < |log| && Opens(log[i])
        ensures exists j :: 0 <= j < |log| && Resolves(log[j]) && log[j].discrepancyId == log[i].discrepancyId
      {
        var d := log[i].discrepancyId.value;
        OpeningsWitness(log, d);
        UnresolvedListsEachOpening(log, d);
      }
    }
  }

  /**
   * A close passes exactly when the log is sound, the last position and margin snapshots have ids, every opened
   * discrepancy is resolved somewhere in the log, and the broker's last position, if given, is the reconciled one.
   * Otherwise the reason names the first of these, in this order, that does not hold.
   */
  lemma CloseReportsFirstUnmet(log: Log, scope: Scope)
    ensures var c := Close(log, scope);
            var evidenced := Evidenced(log, BrokerEodPosition) && Evidenced(log, BrokerEodMarginSnapshot);
            && (c.status == VIOLATION <==> !Sound(log, scope))
            && (!Sound(log, scope) ==>
                 Scan(log, scope).Invalid? && c.reason == APPEND_ONLY_FAULT(Scan(log, scope).fault))
            && (c.reason == BROKER_EOD_EVIDENCE_MISSING <==> Sound(log, scope) && !evidenced)
            && (c.reason == Reason.UNRESOLVED_DISCREPANCY <==>
                 Sound(log, scope) && evidenced && !EveryOpeningResolved(log))
            && (c.reason == POSITION_NOT_RECONCILED <==>
                 Sound(log, scope) && evidenced && EveryOpeningResolved(log) && !PositionAgrees(log))
            && (Passes(log, scope) <==>
                 Sound(log, scope) && evidenced && EveryOpeningResolved(log) && PositionAgrees(log))
            && (c.status == PASS <==> c.reason == CLOSE_READY)
  {
    ScanValidIffSound(log, scope);
    NothingUnresolved(log);
    SnapshotNamed(log);
    if Latest(log).positionEventId.Some? { SnapshotPosition(log); }
    CloseParts(log, scope);
  }

  lemma SnapshotNamed(log: Log)
    ensures Named(Latest(log).positionEventId) <==> Evidenced(log, BrokerEodPosition)
    ensures Named(Latest(log).marginEventId) <==> Evidenced(log, BrokerEodMarginSnapshot)
  {
    LatestIsFromLast(log);
  }

  lemma SnapshotPosition(log: Log)
    requires Latest(log).positionEventId.Some?
    ensures (Latest(log).position.Some? ==> Reconciled(log).position == Latest(log).position.value)
            <==> PositionAgrees(log)
  {
    LatestIsFromLast(log);
    var k :| IsLast(log, k, BrokerEodPosition);
    assert forall j :: IsLast(log, j, BrokerEodPosition) ==> j == k;
  }

  // ---------- One more event after a passing close ----------

  /** What a passing close becomes when the event `e` is appended and the log stays sound. */
  function AfterPass(log: Log, e: Event): (CloseStatus, Reason) {
    match e.cls
    case BrokerEodPosition =>
      if e.eventId == "" then (REVIEW_REQUIRED, BROKER_EOD_EVIDENCE_MISSING)
      else if e.authoritativePosition.Some? && e.authoritativePosition.value != Reconciled(log).position then
        (REVIEW_REQUIRED, POSITION_NOT_RECONCILED)
      else (PASS, CLOSE_READY)
    case BrokerEodMarginSnapshot =>
      if e.eventId == "" then (REVIEW_REQUIRED, BROKER_EOD_EVIDENCE_MISSING) else (PASS, CLOSE_READY)
    case UnresolvedDiscrepancy =>
      if e.discrepancyId.Some? && e.discrepancyId.value !in Resolved(log) then
        (REVIEW_REQUIRED, Reason.UNRESOLVED_DISCREPANCY)
      else (PASS, CLOSE_READY)
    case _ =>  // booked and reconciling events
      if Latest(log).position.Some? && e.delta.position != 0.0 then (REVIEW_REQUIRED, POSITION_NOT_RECONCILED)
      else (PASS, CLOSE_READY)
  }

  lemma UnresolvedAfter(log: Log, e: Event)
    requires Unresolved(log) == []
    ensures Unresolved(log + [e]) ==
            if Opens(e) && e.discrepancyId.value !in Resolved(log) then [e.discrepancyId.value] else []
  {
    DiscrepanciesAppendOne(log, e);
    if Opens(e) {
      assert (Opened(log) + [e.discrepancyId.value])[..|Opened(log)|] == Opened(log);
    } else if Resolves(e) {
      WithoutTwice(Opened(log), Resolved(log), {e.discrepancyId.value});
    }
  }

  lemma LatestAfter(log: Log, e: Event)
    ensures Front(log + [e]) == log && Last(log + [e]) == e
  {
  }

  /** Status and reason of a close, from the passes alone. */
  function VerdictOf(log: Log, scope: Scope): (CloseStatus, Reason) {
    Verdict(Scan(log, scope), Latest(log), Reconciled(log), Unresolved(log))
  }

  lemma CloseParts(log: Log, scope: Scope)
    ensures (Close(log, scope).status, Close(log, scope).reason) == VerdictOf(log, scope)
  {
  }

  /**
   * After a pass, every sound continuation by one event has exactly one outcome; in particular a booked or
   * reconciling event that moves the position forces a re-reconciliation.
   */
  lemma AppendAfterPass(log: Log, e: Event, scope: Scope)
    requires Passes(log, scope) && Scan(log + [e], scope) == Valid
    ensures (Close(log + [e], scope).status, Close(log + [e], scope).reason) == AfterPass(log, e)
  {
    CloseParts(log, scope);
    CloseParts(log + [e], scope);
    VerdictAfterPass(log, e, scope);
  }

  lemma VerdictAfterPass(log: Log, e: Event, scope: Scope)
    requires VerdictOf(log, scope).0 == PASS && Scan(log + [e], scope) == Valid
    ensures VerdictOf(log + [e], scope) == AfterPass(log, e)
  {
    UnresolvedAfter(log, e);
    SnapshotAfter(log, e);
    AggregateAppendOne(log, e, BOOKED + RECONCILING);
    VerdictOnParts(log, e, Latest(log + [e]), Reconciled(log + [e]), Unresolved(log + [e]));
  }

  lemma VerdictOnParts(log: Log, e: Event, broker: Snapshot, reconciled: Totals, unresolved: seq<string>)
    requires Verdict(Valid, Latest(log), Reconciled(log), []).0 == PASS && Refreshed(Latest(log), broker, e)
    requires reconciled == if e.cls in BOOKED + RECONCILING then Plus(Reconciled(log), e.delta) else Reconciled(log)
    requires unresolved ==
             if Opens(e) && e.discrepancyId.value !in Resolved(log) then [e.discrepancyId.value] else []
    ensures Verdict(Valid, broker, reconciled, unresolved) == AfterPass(log, e)
  {
  }

  /** What one event changes of the snapshot's position and of its event ids. */
  predicate Refreshed(s: Snapshot, s': Snapshot, e: Event) {
    && s'.position == (if e.cls == BrokerEodPosition then e.authoritativePosition else s.position)
    && s'.positionEventId == (if e.cls == BrokerEodPosition then Some(e.eventId) else s.positionEventId)
    && s'.marginEventId == (if e.cls == BrokerEodMarginSnapshot then Some(e.eventId) else s.marginEventId)
  }

  lemma SnapshotAfter(log: Log, e: Event)
    ensures Refreshed(Latest(log), Latest(log + [e]), e)
  {
    LatestAfter(log, e);
  }

  /** Only booked and reconciling events: nothing the broker reports and no new discrepancy. */
  ghost predicate OnlyBookings(log: Log) {
    forall i :: 0 <= i < |log| ==> log[i].cls in BOOKED + RECONCILING
  }

  lemma {:induction false} BookingsLeaveSnapshot(more: Log)
    requires OnlyBookings(more)
    ensures Latest(more) == NOTHING && Opened(more) == []
  {
    if more != [] {
      assert forall i :: 0 <= i < |more| - 1 ==> Front(more)[i] == more[i];
      BookingsLeaveSnapshot(Front(more));
      assert Last(more).cls in BOOKED + RECONCILING;
    }
  }

  /**
   * After a pass, any sound run of booked and reconciling events, however long, keeps the close passing exactly
   * when its position deltas cancel out or the broker gave no position; otherwise a re-reconciliation is due.
   */
  lemma BookingsAfterPass(log: Log, more: Log, scope: Scope)
    requires Passes(log, scope) && OnlyBookings(more) && Sound(log + more, scope)
    ensures var moved := Aggregate(more, BOOKED + RECONCILING).position;
            var c := Close(log + more, scope);
            (c.status, c.reason) ==
              if Latest(log).position.None? || moved == 0.0 then (PASS, CLOSE_READY)
              else (REVIEW_REQUIRED, POSITION_NOT_RECONCILED)
  {
    ScanValidIffSound(log + more, scope);
    CloseParts(log, scope);
    CloseParts(log + more, scope);
    VerdictAfterBookings(log, more, scope);
  }

  lemma VerdictAfterBookings(log: Log, more: Log, scope: Scope)
    requires VerdictOf(log, scope).0 == PASS && OnlyBookings(more) && Scan(log + more, scope) == Valid
    ensures VerdictOf(log + more, scope) ==
            if Latest(log).position.None? || Aggregate(more, BOOKED + RECONCILING).position == 0.0
            then (PASS, CLOSE_READY) else (REVIEW_REQUIRED, POSITION_NOT_RECONCILED)
  {
    BookingsLeaveSnapshot(more);
    LatestAppend(log, more);
    AggregateAppend(log, more, BOOKED + RECONCILING);
    UnresolvedComposes(log, more);
    NothingToFilter(Resolved(more));
  }

  lemma NothingToFilter(gone: set<string>)
    ensures Without([], gone) == []
  {
  }
}
