/** The passes over a ledger that add up evidence, and the close verdict drawn from them. */
module LedgerClose {
  import opened Outcomes
  import opened Ledger

  // ---------- Booked and reconciled totals ----------

  function Aggregate(log: Log, allowed: set<EventClass>): Totals {
    if log == [] then ZERO
    else if Last(log).cls in allowed then Plus(Aggregate(Front(log), allowed), Last(log).delta)
    else Aggregate(Front(log), allowed)
  }

  method AggregateTotals(events: Log, allowed: set<EventClass>) returns (totals: Totals)
    ensures totals == Aggregate(events, allowed)
  {
    var position, cash, pnl, fee, commission := 0.0, 0.0, 0.0, 0.0, 0.0;
    for i := 0 to |events|
      invariant Totals(position, cash, pnl, fee, commission) == Aggregate(events[..i], allowed)
    {
      var event := events[i];
      assert Front(events[..i + 1]) == events[..i];
      if event.cls !in allowed { continue; }
      position := position + event.delta.position;
      cash := cash + event.delta.cash;
      pnl := pnl + event.delta.pnl;
      fee := fee + event.delta.fee;
      commission := commission + event.delta.commission;
    }
    assert events[..|events|] == events;
    totals := Totals(position, cash, pnl, fee, commission);
  }

  lemma {:induction false} AggregateAppend(a: Log, b: Log, allowed: set<EventClass>)
    ensures Aggregate(a + b, allowed) == Plus(Aggregate(a, allowed), Aggregate(b, allowed))
  {
    if b == [] {
      assert a + b == a;
    } else {
      AppendFront(a, b);
      AggregateAppend(a, Front(b), allowed);
    }
  }

  lemma AggregateAppendOne(log: Log, e: Event, allowed: set<EventClass>)
    ensures Aggregate(log + [e], allowed) ==
            if e.cls in allowed then Plus(Aggregate(log, allowed), e.delta) else Aggregate(log, allowed)
  {
    assert Front(log + [e]) == log;
  }

  /** Totals over two disjoint groups of classes add up to the total over both. */
  lemma {:induction false} AggregateSplit(log: Log, some: set<EventClass>, others: set<EventClass>)
    requires some !! others
    ensures Aggregate(log, some + others) == Plus(Aggregate(log, some), Aggregate(log, others))
  {
    if log != [] { AggregateSplit(Front(log), some, others); }
  }

  function Booked(log: Log): Totals {
    Aggregate(log, BOOKED)
  }

  function Reconciled(log: Log): Totals {
    Aggregate(log, BOOKED + RECONCILING)
  }

  /** The metrics of `b` are those of `a` and, if `counted`, what the event moves, each added to its own. */
  predicate Moves(a: Totals, b: Totals, e: Event, counted: bool) {
    && b.position == a.position + (if counted then e.delta.position else 0.0)
    && b.cash == a.cash + (if counted then e.delta.cash else 0.0)
    && b.pnl == a.pnl + (if counted then e.delta.pnl else 0.0)
    && b.fee == a.fee + (if counted then e.delta.fee else 0.0)
    && b.commission == a.commission + (if counted then e.delta.commission else 0.0)
  }

  /** Fills, fees, commissions and cash movements are booked; reconciling adds adjustments and restatements. */
  lemma WhatTotalsCount(log: Log, e: Event)
    ensures Booked([]) == Reconciled([]) == Totals(0.0, 0.0, 0.0, 0.0, 0.0)
    ensures var booked := e.cls.BookedFill? || e.cls.BookedFee? || e.cls.BookedCommission? || e.cls.BookedCashMovement?;
            && Moves(Booked(log), Booked(log + [e]), e, booked)
            && Moves(Reconciled(log), Reconciled(log + [e]), e,
                 booked || e.cls.ReconciliationAdjustment? || e.cls.Restatement?)
  {
    AggregateAppendOne(log, e, BOOKED);
    AggregateAppendOne(log, e, BOOKED + RECONCILING);
  }

  function Keep(log: Log, wanted: EventClass -> bool): Log {
    if log == [] then []
    else Keep(Front(log), wanted) + if wanted(Last(log).cls) then [Last(log)] else []
  }

  /** Deleting events of classes a total does not count leaves that total unchanged. */
  lemma {:induction false} UncountedEventsDoNotMatter(log: Log, wanted: EventClass -> bool, allowed: set<EventClass>)
    requires forall c :: c in allowed ==> wanted(c)
    ensures Aggregate(Keep(log, wanted), allowed) == Aggregate(log, allowed)
  {
    if log != [] {
      var front := Keep(Front(log), wanted);
      UncountedEventsDoNotMatter(Front(log), wanted, allowed);
      if wanted(Last(log).cls) {
        AggregateAppendOne(front, Last(log), allowed);
      } else {
        assert front + [] == front;
      }
    }
  }

  // ---------- Latest broker snapshot ----------

  datatype Snapshot = Snapshot(
    position: Option<real>, initialMargin: Option<real>, maintenanceMargin: Option<real>,
    positionEventId: Option<string>, marginEventId: Option<string>, sourceTimestamp: Option<string>)

  const NOTHING := Snapshot(None, None, None, None, None, None)

  function Latest(log: Log): Snapshot {
    if log == [] then NOTHING
    else
      var s, e := Latest(Front(log)), Last(log);
      match e.cls
      case BrokerEodPosition =>
        s.(position := e.authoritativePosition, positionEventId := Some(e.eventId),
           sourceTimestamp := Some(e.occurredAt))
      case BrokerEodMarginSnapshot =>
        s.(initialMargin := e.authoritativeInitialMargin, maintenanceMargin := e.authoritativeMaintenanceMargin,
           marginEventId := Some(e.eventId), sourceTimestamp := Some(e.occurredAt))
      case _ => s
  }

  method LatestBrokerSnapshot(events: Log) returns (snapshot: Snapshot)
    ensures snapshot == Latest(events)
  {
    var position, initialMargin, maintenanceMargin: Option<real> := None, None, None;
    var positionEventId, marginEventId, sourceTimestamp: Option<string> := None, None, None;
    for i := 0 to |events|
      invariant Snapshot(position, initialMargin, maintenanceMargin, positionEventId, marginEventId, sourceTimestamp)
             == Latest(events[..i])
    {
      var event := events[i];
      assert Front(events[..i + 1]) == events[..i];
      if event.cls == BrokerEodPosition {
        position := event.authoritativePosition;
        positionEventId := Some(event.eventId);
        sourceTimestamp := Some(event.occurredAt);
      }
      if event.cls == BrokerEodMarginSnapshot {
        initialMargin := event.authoritativeInitialMargin;
        maintenanceMargin := event.authoritativeMaintenanceMargin;
        marginEventId := Some(event.eventId);
        sourceTimestamp := Some(event.occurredAt);
      }
    }
    assert events[..|events|] == events;
    snapshot := Snapshot(position, initialMargin, maintenanceMargin, positionEventId, marginEventId, sourceTimestamp);
  }

  /** The later snapshot wins, separately for the position and for the margins. */
  function Override(a: Snapshot, b: Snapshot): Snapshot {
    Snapshot(
      if b.positionEventId.Some? then b.position else a.position,
      if b.marginEventId.Some? then b.initialMargin else a.initialMargin,
      if b.marginEventId.Some? then b.maintenanceMargin else a.maintenanceMargin,
      if b.positionEventId.Some? then b.positionEventId else a.positionEventId,
      if b.marginEventId.Some? then b.marginEventId else a.marginEventId,
      if b.sourceTimestamp.Some? then b.sourceTimestamp else a.sourceTimestamp)
  }

  lemma {:induction false} LatestAppend(a: Log, b: Log)
    ensures Latest(a + b) == Override(Latest(a), Latest(b))
    ensures Latest(b).sourceTimestamp.Some? <==> Latest(b).positionEventId.Some? || Latest(b).marginEventId.Some?
  {
    if b == [] {
      assert a + b == a;
    } else {
      AppendFront(a, b);
      LatestAppend(a, Front(b));
    }
  }

  /** `k` is the last event of class `c`. */
  ghost predicate IsLast(log: Log, k: int, c: EventClass) {
    0 <= k < |log| && log[k].cls == c && forall j :: k < j < |log| ==> log[j].cls != c
  }

  /** The snapshot's position comes from the last position event, its margins from the last margin event. */
  lemma {:induction false} LatestIsFromLast(log: Log)
    ensures forall k :: IsLast(log, k, BrokerEodPosition) ==>
              Latest(log).position == log[k].authoritativePosition
              && Latest(log).positionEventId == Some(log[k].eventId)
    ensures forall k :: IsLast(log, k, BrokerEodMarginSnapshot) ==>
              Latest(log).initialMargin == log[k].authoritativeInitialMargin
              && Latest(log).maintenanceMargin == log[k].authoritativeMaintenanceMargin
              && Latest(log).marginEventId == Some(log[k].eventId)
    ensures Latest(log).positionEventId.Some? <==> exists k :: IsLast(log, k, BrokerEodPosition)
    ensures Latest(log).marginEventId.Some? <==> exists k :: IsLast(log, k, BrokerEodMarginSnapshot)
  {
    if log != [] {
      LatestIsFromLast(Front(log));
      LastStep(log, BrokerEodPosition);
      LastStep(log, BrokerEodMarginSnapshot);
    }
  }

  /** Position and margin events stamp the snapshot. */
  ghost predicate LastStamp(log: Log, k: int) {
    && 0 <= k < |log| && (log[k].cls.BrokerEodPosition? || log[k].cls.BrokerEodMarginSnapshot?)
    && forall j :: k < j < |log| ==> !log[j].cls.BrokerEodPosition? && !log[j].cls.BrokerEodMarginSnapshot?
  }

  /** The snapshot's time is that of the last event of either class; without one there is none. */
  lemma {:induction false} StampIsFromLast(log: Log)
    ensures forall k :: LastStamp(log, k) ==> Latest(log).sourceTimestamp == Some(log[k].occurredAt)
    ensures Latest(log).sourceTimestamp.Some? <==> exists k :: LastStamp(log, k)
  {
    if log != [] {
      var n := |log| - 1;
      StampIsFromLast(Front(log));
      assert forall j :: 0 <= j < n ==> Front(log)[j] == log[j];
      if log[n].cls.BrokerEodPosition? || log[n].cls.BrokerEodMarginSnapshot? {
        assert LastStamp(log, n);
      } else {
        forall k ensures LastStamp(log, k) <==> LastStamp(Front(log), k) {
          if LastStamp(Front(log), k) { assert k < n; }
        }
      }
    }
  }

  lemma LastStep(log: Log, c: EventClass)
    requires log != []
    ensures Last(log).cls == c ==> IsLast(log, |log| - 1, c) && forall k :: IsLast(log, k, c) ==> k == |log| - 1
    ensures Last(log).cls != c ==> forall k :: IsLast(log, k, c) <==> IsLast(Front(log), k, c)
  {
    if Last(log).cls != c {
      forall k ensures IsLast(log, k, c) <==> IsLast(Front(log), k, c) {
        if IsLast(log, k, c) {
          assert forall j :: k < j < |log| - 1 ==> Front(log)[j] == log[j];
        }
        if IsLast(Front(log), k, c) {
          assert forall j :: k < j < |log| - 1 ==> log[j] == Front(log)[j];
        }
      }
    }
  }

  // ---------- Discrepancies ----------

  predicate Opens(e: Event) {
    e.discrepancyId.Some? && e.cls == UnresolvedDiscrepancy
  }

  predicate Resolves(e: Event) {
    e.discrepancyId.Some? && e.cls in RECONCILING
  }

  function Opened(log: Log): seq<string> {
    if log == [] then []
    else Opened(Front(log)) + if Opens(Last(log)) then [Last(log).discrepancyId.value] else []
  }

  function Resolved(log: Log): set<string> {
    if log == [] then {}
    else Resolved(Front(log)) + if Resolves(Last(log)) then {Last(log).discrepancyId.value} else {}
  }

  function Without(ids: seq<string>, gone: set<string>): seq<string> {
    if ids == [] then []
    else
      var rest := Without(ids[..|ids| - 1], gone);
      if ids[|ids| - 1] in gone then rest else rest + [ids[|ids| - 1]]
  }

  lemma {:induction false} WithoutCounts(ids: seq<string>, gone: set<string>, d: string)
    ensures multiset(Without(ids, gone))[d] == if d in gone then 0 else multiset(ids)[d]
  {
    if ids != [] {
      assert ids == ids[..|ids| - 1] + [ids[|ids| - 1]];
      WithoutCounts(ids[..|ids| - 1], gone, d);
    }
  }

  function Unresolved(log: Log): seq<string> {
    Without(Opened(log), Resolved(log))
  }

  method UnresolvedDiscrepancyIds(events: Log) returns (ids: seq<string>)
    ensures ids == Unresolved(events)
  {
    var openedIds: seq<string> := [];
    var resolvedIds: set<string> := {};
    for i := 0 to |events|
      invariant openedIds == Opened(events[..i]) && resolvedIds == Resolved(events[..i])
    {
      var event := events[i];
      assert Front(events[..i + 1]) == events[..i];
      if event.discrepancyId.None? { continue; }
      if event.cls == UnresolvedDiscrepancy { openedIds := openedIds + [event.discrepancyId.value]; }
      if event.cls in RECONCILING { resolvedIds := resolvedIds + {event.discrepancyId.value}; }
    }
    assert events[..|events|] == events;
    ids := Without(openedIds, resolvedIds);
  }

  lemma {:induction false} DiscrepanciesAppend(a: Log, b: Log)
    ensures Opened(a + b) == Opened(a) + Opened(b)
    ensures Resolved(a + b) == Resolved(a) + Resolved(b)
  {
    if b == [] {
      assert a + b == a;
    } else {
      AppendFront(a, b);
      DiscrepanciesAppend(a, Front(b));
    }
  }

  lemma {:induction false} WithoutAppend(a: seq<string>, b: seq<string>, gone: set<string>)
    ensures Without(a + b, gone) == Without(a, gone) + Without(b, gone)
  {
    if b == [] {
      assert a + b == a;
    } else {
      assert (a + b)[..|a + b| - 1] == a + b[..|b| - 1];
      WithoutAppend(a, b[..|b| - 1], gone);
    }
  }

  lemma {:induction false} WithoutTwice(ids: seq<string>, gone: set<string>, more: set<string>)
    ensures Without(Without(ids, gone), more) == Without(ids, gone + more)
  {
    if ids != [] {
      var front, last := ids[..|ids| - 1], ids[|ids| - 1];
      WithoutTwice(front, gone, more);
      if last !in gone { WithoutAppend(Without(front, gone), [last], more); }
    }
  }

  function Openings(log: Log, d: string): nat {
    if log == [] then 0
    else Openings(Front(log), d) + if Opens(Last(log)) && Last(log).discrepancyId.value == d then 1 else 0
  }

  lemma {:induction false} OpenedCounts(log: Log, d: string)
    ensures multiset(Opened(log))[d] == Openings(log, d)
  {
    if log != [] { OpenedCounts(Front(log), d); }
  }

  lemma {:induction false} ResolvedWitness(log: Log, d: string)
    ensures d in Resolved(log) <==> exists i :: 0 <= i < |log| && Resolves(log[i]) && log[i].discrepancyId.value == d
  {
    if log != [] {
      ResolvedWitness(Front(log), d);
      assert forall i :: 0 <= i < |log| - 1 ==> Front(log)[i] == log[i];
    }
  }

  /** An id is listed once per opening, unless a reconciling event anywhere in the log carries it. */
  lemma UnresolvedListsEachOpening(log: Log, d: string)
    ensures multiset(Unresolved(log))[d] ==
            if exists i :: 0 <= i < |log| && Resolves(log[i]) && log[i].discrepancyId.value == d then 0
            else Openings(log, d)
  {
    OpenedCounts(log, d);
    ResolvedWitness(log, d);
    WithoutCounts(Opened(log), Resolved(log), d);
  }

  /** Event `k` opens a discrepancy whose id is not among `gone`. */
  predicate StaysOpen(log: Log, k: int, gone: set<string>) {
    0 <= k < |log| && Opens(log[k]) && log[k].discrepancyId.value !in gone
  }

  /** The ids are those of the openings at the strictly increasing positions `at`, which are all that stay open. */
  ghost predicate Lists(log: Log, gone: set<string>, ids: seq<string>, at: seq<int>) {
    && |at| == |ids|
    && (forall i :: 0 <= i < |at| ==> StaysOpen(log, at[i], gone) && log[at[i]].discrepancyId.value == ids[i])
    && (forall i, j :: 0 <= i < j < |at| ==> at[i] < at[j])
    && (forall k :: StaysOpen(log, k, gone) ==> k in at)
  }

  lemma {:induction false} OpenPositions(log: Log, gone: set<string>) returns (at: seq<int>)
    ensures Lists(log, gone, Without(Opened(log), gone), at)
  {
    at := [];
    if log != [] {
      at := OpenPositions(Front(log), gone);
      WithoutLast(log, gone);
      if StaysOpen(log, |log| - 1, gone) {
        ListsOneMore(log, gone, Without(Opened(Front(log)), gone), at);
        at := at + [|log| - 1];
      } else {
        ListsNoMore(log, gone, Without(Opened(Front(log)), gone), at);
      }
    }
  }

  lemma WithoutOneMore(ids: seq<string>, d: string, gone: set<string>)
    ensures Without(ids + [d], gone) == if d in gone then Without(ids, gone) else Without(ids, gone) + [d]
  {
    assert (ids + [d])[..|ids|] == ids;
  }

  lemma OpenedLast(log: Log)
    requires log != []
    ensures Opened(log) ==
            if Opens(Last(log)) then Opened(Front(log)) + [Last(log).discrepancyId.value] else Opened(Front(log))
  {
  }

  lemma WithoutLast(log: Log, gone: set<string>)
    requires log != []
    ensures Without(Opened(log), gone) ==
            if StaysOpen(log, |log| - 1, gone)
            then Without(Opened(Front(log)), gone) + [Last(log).discrepancyId.value]
            else Without(Opened(Front(log)), gone)
  {
    OpenedLast(log);
    if Opens(Last(log)) { WithoutOneMore(Opened(Front(log)), Last(log).discrepancyId.value, gone); }
  }

  lemma StaysOpenFront(log: Log, gone: set<string>, k: int)
    requires log != []
    ensures StaysOpen(Front(log), k, gone) <==> k < |log| - 1 && StaysOpen(log, k, gone)
    ensures StaysOpen(Front(log), k, gone) ==> Front(log)[k] == log[k]
  {
  }

  lemma ListsNoMore(log: Log, gone: set<string>, ids: seq<string>, at: seq<int>)
    requires log != [] && Lists(Front(log), gone, ids, at) && !StaysOpen(log, |log| - 1, gone)
    ensures Lists(log, gone, ids, at)
  {
    forall k ensures StaysOpen(Front(log), k, gone) <==> StaysOpen(log, k, gone)
      ensures StaysOpen(Front(log), k, gone) ==> Front(log)[k] == log[k]
    {
      StaysOpenFront(log, gone, k);
    }
  }

  lemma ListsOneMore(log: Log, gone: set<string>, ids: seq<string>, at: seq<int>)
    requires log != [] && Lists(Front(log), gone, ids, at) && StaysOpen(log, |log| - 1, gone)
    ensures Lists(log, gone, ids + [Last(log).discrepancyId.value], at + [|log| - 1])
  {
    var n, at' := |log| - 1, at + [|log| - 1];
    forall i | 0 <= i < |at|
      ensures StaysOpen(log, at'[i], gone) && log[at'[i]].discrepancyId.value == ids[i] && at'[i] < n
    {
      StaysOpenFront(log, gone, at[i]);
    }
    forall k | StaysOpen(log, k, gone) ensures k in at' {
      StaysOpenFront(log, gone, k);
      assert at'[|at|] == n;
      if k < n { assert k in at; }
    }
  }

  /**
   * The open ids are listed in opening order, one for each opening that no reconciling event anywhere in the log
   * resolves: `at` gives the position of each one's opening.
   */
  lemma UnresolvedInOpeningOrder(log: Log) returns (at: seq<int>)
    ensures Lists(log, Resolved(log), Unresolved(log), at)
    ensures forall k :: k in at <==>
              0 <= k < |log| && log[k].cls == UnresolvedDiscrepancy && log[k].discrepancyId.Some?
              && !exists i :: 0 <= i < |log| && (log[i].cls.ReconciliationAdjustment? || log[i].cls.Restatement?)
                              && log[i].discrepancyId == log[k].discrepancyId
    ensures |at| == |Unresolved(log)|
    ensures forall i :: 0 <= i < |at| ==> log[at[i]].discrepancyId == Some(Unresolved(log)[i])
  {
    at := OpenPositions(log, Resolved(log));
    forall k | 0 <= k < |log| && Opens(log[k])
      ensures log[k].discrepancyId.value in Resolved(log) <==>
              exists i :: 0 <= i < |log| && (log[i].cls.ReconciliationAdjustment? || log[i].cls.Restatement?)
                          && log[i].discrepancyId == log[k].discrepancyId
    {
      ResolvedWitness(log, log[k].discrepancyId.value);
    }
  }

  /** A reconciling event removes exactly its own id, keeping the order; no continuation lists it again. */
  lemma ResolutionIsPermanent(log: Log, e: Event, later: Log)
    requires Resolves(e)
    ensures Unresolved(log + [e]) == Without(Unresolved(log), {e.discrepancyId.value})
    ensures e.discrepancyId.value !in Unresolved(log + [e] + later)
  {
    var d := e.discrepancyId.value;
    DiscrepanciesAppendOne(log, e);
    WithoutTwice(Opened(log), Resolved(log), {d});
    DiscrepanciesAppend(log + [e], later);
    NotAmongUnresolved(log + [e] + later, d);
  }

  /** Across two logs laid end to end, each part's open ids are filtered by what either part resolves. */
  lemma UnresolvedComposes(a: Log, b: Log)
    ensures Unresolved(a + b) ==
            Without(Unresolved(a), Resolved(b)) + Without(Opened(b), Resolved(a) + Resolved(b))
  {
    DiscrepanciesAppend(a, b);
    WithoutAppend(Opened(a), Opened(b), Resolved(a) + Resolved(b));
    WithoutTwice(Opened(a), Resolved(a), Resolved(b));
  }

  lemma DiscrepanciesAppendOne(log: Log, e: Event)
    ensures Opened(log + [e]) == if Opens(e) then Opened(log) + [e.discrepancyId.value] else Opened(log)
    ensures Resolved(log + [e]) == if Resolves(e) then Resolved(log) + {e.discrepancyId.value} else Resolved(log)
  {
    assert Front(log + [e]) == log;
  }

  lemma NotAmongUnresolved(log: Log, d: string)
    requires d in Resolved(log)
    ensures d !in Unresolved(log)
  {
    WithoutCounts(Opened(log), Resolved(log), d);
    assert multiset(Unresolved(log))[d] == 0;
  }
}
