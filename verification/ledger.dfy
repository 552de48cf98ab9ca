/** The append-only accounting ledger: its integrity scan, its passes over the event log, and the close. */
module Ledger {
  import opened Outcomes
  import opened Lists

  datatype EventClass =
    | BookedFill | BookedFee | BookedCommission | BookedCashMovement
    | BrokerEodPosition | BrokerEodMarginSnapshot
    | ReconciliationAdjustment | Restatement | UnresolvedDiscrepancy

  const BOOKED: set<EventClass> := {BookedFill, BookedFee, BookedCommission, BookedCashMovement}
  const RECONCILING: set<EventClass> := {ReconciliationAdjustment, Restatement}

  function ClassText(c: EventClass): string {
    match c
    case BookedFill => "booked_fill"
    case BookedFee => "booked_fee"
    case BookedCommission => "booked_commission"
    case BookedCashMovement => "booked_cash_movement"
    case BrokerEodPosition => "broker_eod_position"
    case BrokerEodMarginSnapshot => "broker_eod_margin_snapshot"
    case ReconciliationAdjustment => "reconciliation_adjustment"
    case Restatement => "restatement"
    case UnresolvedDiscrepancy => "unresolved_discrepancy"
  }

  /** The five booked metrics, as exact decimals. */
  datatype Totals = Totals(position: real, cash: real, pnl: real, fee: real, commission: real)

  const ZERO := Totals(0.0, 0.0, 0.0, 0.0, 0.0)

  function Plus(a: Totals, b: Totals): Totals {
    Totals(a.position + b.position, a.cash + b.cash, a.pnl + b.pnl, a.fee + b.fee, a.commission + b.commission)
  }

  datatype Event = Event(
    sequenceId: int, eventId: string, cls: EventClass, accountId: string, symbol: string, occurredAt: string,
    discrepancyId: Option<string>, delta: Totals, authoritativePosition: Option<real>,
    authoritativeInitialMargin: Option<real>, authoritativeMaintenanceMargin: Option<real>)

  type Log = seq<Event>

  function Last(log: Log): Event
    requires log != []
  {
    log[|log| - 1]
  }

  function Front(log: Log): Log
    requires log != []
  {
    log[..|log| - 1]
  }

  lemma AppendFront(a: Log, b: Log)
    requires b != []
    ensures Front(a + b) == a + Front(b) && Last(a + b) == Last(b)
  {
  }

  // ---------- Integrity scan ----------

  datatype Scope = Scope(account: Option<string>, symbol: Option<string>)

  datatype Fault = SEQUENCE_OUT_OF_ORDER | EVENT_ID_DUPLICATE | ACCOUNT_SCOPE_MISMATCH | SYMBOL_SCOPE_MISMATCH

  datatype Integrity =
    | Valid
    | Invalid(fault: Fault, duplicateEventId: Option<string>, violatingSequenceId: int)

  predicate OutOfScope(wanted: Option<string>, actual: string) {
    wanted.Some? && actual != wanted.value
  }

  /** The first thing wrong with event `e` after the sequence id `previous` and the ids `seen`. */
  function FaultOf(e: Event, previous: Option<int>, seen: set<string>, scope: Scope): Option<Fault> {
    if previous.Some? && e.sequenceId <= previous.value then Some(SEQUENCE_OUT_OF_ORDER)
    else if e.eventId in seen then Some(EVENT_ID_DUPLICATE)
    else if OutOfScope(scope.account, e.accountId) then Some(ACCOUNT_SCOPE_MISMATCH)
    else if OutOfScope(scope.symbol, e.symbol) then Some(SYMBOL_SCOPE_MISMATCH)
    else None
  }

  function Blame(e: Event, fault: Fault): Integrity {
    Invalid(fault, if fault == EVENT_ID_DUPLICATE then Some(e.eventId) else None, e.sequenceId)
  }

  function PreviousSequence(log: Log): Option<int> {
    if log == [] then None else Some(Last(log).sequenceId)
  }

  function EventIds(log: Log): set<string> {
    set i | 0 <= i < |log| :: log[i].eventId
  }

  /** What is wrong with the event at `k`, given the events before it. */
  function FaultAt(log: Log, k: nat, scope: Scope): Option<Fault>
    requires k < |log|
  {
    FaultOf(log[k], PreviousSequence(log[..k]), EventIds(log[..k]), scope)
  }

  function Scan(log: Log, scope: Scope): Integrity {
    if log == [] then Valid
    else
      var before := Scan(Front(log), scope);
      if before != Valid then before
      else
        var fault := FaultAt(log, |log| - 1, scope);
        if fault.Some? then Blame(Last(log), fault.value) else Valid
  }

  method ValidateAppendOnlyLedger(events: Log, scope: Scope) returns (report: Integrity)
    ensures report == Scan(events, scope)
  {
    var previousSequence: Option<int> := None;
    var seenEventIds: set<string> := {};
    for i := 0 to |events|
      invariant Scan(events[..i], scope) == Valid
      invariant previousSequence == PreviousSequence(events[..i])
      invariant seenEventIds == EventIds(events[..i])
    {
      var event := events[i];
      assert Front(events[..i + 1]) == events[..i] && events[..i + 1][..i] == events[..i];
      assert FaultAt(events[..i + 1], i, scope) == FaultOf(event, previousSequence, seenEventIds, scope);
      if FaultOf(event, previousSequence, seenEventIds, scope).Some? {
        FirstFaultSticks(events[..i + 1], events[i + 1..], scope);
        assert events == events[..i + 1] + events[i + 1..];
      }
      if previousSequence.Some? && event.sequenceId <= previousSequence.value {
        return Invalid(SEQUENCE_OUT_OF_ORDER, None, event.sequenceId);
      }
      if event.eventId in seenEventIds {
        return Invalid(EVENT_ID_DUPLICATE, Some(event.eventId), event.sequenceId);
      }
      if scope.account.Some? && event.accountId != scope.account.value {
        return Invalid(ACCOUNT_SCOPE_MISMATCH, None, event.sequenceId);
      }
      if scope.symbol.Some? && event.symbol != scope.symbol.value {
        return Invalid(SYMBOL_SCOPE_MISMATCH, None, event.sequenceId);
      }
      previousSequence := Some(event.sequenceId);
      seenEventIds := seenEventIds + {event.eventId};
      IdsOfAppended(events[..i], event);
      assert events[..i + 1] == events[..i] + [event];
    }
    assert events[..|events|] == events;
    report := Valid;
  }

  lemma IdsOfAppended(log: Log, e: Event)
    ensures EventIds(log + [e]) == EventIds(log) + {e.eventId}
  {
    var longer := log + [e];
    assert longer[|log|] == e;
    forall id | id in EventIds(log) ensures id in EventIds(longer) {
      var i :| 0 <= i < |log| && log[i].eventId == id;
      assert longer[i].eventId == id;
    }
  }

  /** Whatever is appended, the first fault found stays the one reported. */
  lemma {:induction false} FirstFaultSticks(a: Log, b: Log, scope: Scope)
    requires Scan(a, scope) != Valid
    ensures Scan(a + b, scope) == Scan(a, scope)
  {
    if b == [] {
      assert a + b == a;
    } else {
      AppendFront(a, b);
      FirstFaultSticks(a, Front(b), scope);
    }
  }

  ghost predicate StrictlyIncreasing(log: Log) {
    forall i, j :: 0 <= i < j < |log| ==> log[i].sequenceId < log[j].sequenceId
  }

  function TraceIds(log: Log): seq<string> {
    seq(|log|, i requires 0 <= i < |log| => log[i].eventId)
  }

  ghost predicate DistinctIds(log: Log) {
    Distinct(TraceIds(log))
  }

  ghost predicate AllInScope(log: Log, scope: Scope) {
    forall i :: 0 <= i < |log| ==>
      !OutOfScope(scope.account, log[i].accountId) && !OutOfScope(scope.symbol, log[i].symbol)
  }

  ghost predicate Sound(log: Log, scope: Scope) {
    StrictlyIncreasing(log) && DistinctIds(log) && AllInScope(log, scope)
  }

  /** The second log continues the first: its sequence goes on above, and it reuses no event id. */
  ghost predicate Continues(a: Log, b: Log) {
    (a != [] && b != [] ==> Last(a).sequenceId < b[0].sequenceId) && EventIds(a) !! EventIds(b)
  }

  lemma IncreasingAppend(a: Log, b: Log)
    ensures StrictlyIncreasing(a + b) <==>
            StrictlyIncreasing(a) && StrictlyIncreasing(b)
            && (a != [] && b != [] ==> Last(a).sequenceId < b[0].sequenceId)
  {
    var ab := a + b;
    if StrictlyIncreasing(ab) {
      forall i, j | 0 <= i < j < |a| ensures a[i].sequenceId < a[j].sequenceId {
        assert a[i] == ab[i] && a[j] == ab[j];
      }
      forall i, j | 0 <= i < j < |b| ensures b[i].sequenceId < b[j].sequenceId {
        assert b[i] == ab[|a| + i] && b[j] == ab[|a| + j];
      }
      if a != [] && b != [] { assert ab[|a| - 1] == Last(a) && ab[|a|] == b[0]; }
    }
  }

  lemma DistinctAppend(a: Log, b: Log)
    ensures DistinctIds(a + b) <==> DistinctIds(a) && DistinctIds(b) && EventIds(a) !! EventIds(b)
  {
    var x, y := TraceIds(a), TraceIds(b);
    assert TraceIds(a + b) == x + y;
    DistinctConcat(x, y);
    forall id ensures id in EventIds(a) <==> id in x { IdListed(a, id); }
    forall id ensures id in EventIds(b) <==> id in y { IdListed(b, id); }
  }

  lemma IdListed(log: Log, id: string)
    ensures id in EventIds(log) <==> id in TraceIds(log)
  {
    if id in EventIds(log) {
      var i :| 0 <= i < |log| && log[i].eventId == id;
      assert TraceIds(log)[i] == id;
    }
  }

  /** Two logs laid end to end are sound exactly when both are and the second continues the first. */
  lemma SoundAppend(a: Log, b: Log, scope: Scope)
    ensures Sound(a + b, scope) <==> Sound(a, scope) && Sound(b, scope) && Continues(a, b)
  {
    IncreasingAppend(a, b);
    DistinctAppend(a, b);
    ScopeAppend(a, b, scope);
  }

  lemma ScopeAppend(a: Log, b: Log, scope: Scope)
    ensures AllInScope(a + b, scope) <==> AllInScope(a, scope) && AllInScope(b, scope)
  {
    var ab := a + b;
    assert forall i :: 0 <= i < |a| ==> a[i] == ab[i];
    assert forall i :: 0 <= i < |b| ==> b[i] == ab[|a| + i];
  }

  /** The scan reports valid exactly when all pairs of sequence ids increase, all event ids differ, all are in scope. */
  lemma {:induction false} ScanValidIffSound(log: Log, scope: Scope)
    ensures Scan(log, scope) == Valid <==> Sound(log, scope)
  {
    if log != [] {
      var front, e := Front(log), Last(log);
      ScanValidIffSound(front, scope);
      assert log == front + [e] && log[..|log| - 1] == front;
      SoundAppend(front, [e], scope);
      NoFaultIffContinues(front, e, scope);
    }
  }

  lemma NoFaultIffContinues(log: Log, e: Event, scope: Scope)
    ensures FaultOf(e, PreviousSequence(log), EventIds(log), scope).None? <==>
            Continues(log, [e]) && Sound([e], scope)
  {
    IdsOfAppended([], e);
    assert [] + [e] == [e] && EventIds([]) == {};
  }

  /** An invalid report names the first event whose prefix stops being sound, with that event's first fault. */
  lemma {:induction false} ScanNamesFirstFault(log: Log, scope: Scope) returns (k: nat)
    requires Scan(log, scope) != Valid
    ensures k < |log| && Sound(log[..k], scope) && !Sound(log[..k + 1], scope)
    ensures FaultAt(log, k, scope).Some? && Scan(log, scope) == Blame(log[k], FaultAt(log, k, scope).value)
  {
    var n := |log| - 1;
    var front := Front(log);
    if Scan(front, scope) != Valid {
      k := ScanNamesFirstFault(front, scope);
      assert front[..k] == log[..k] && front[..k + 1] == log[..k + 1];
    } else {
      k := n;
      assert log[..n] == front && log[..n + 1] == log;
      ScanValidIffSound(front, scope);
      ScanValidIffSound(log, scope);
    }
  }

  ghost predicate IdSeenBefore(log: Log, k: int) {
    0 <= k < |log| && exists j :: 0 <= j < k && log[j].eventId == log[k].eventId
  }

  /**
   * Which fault an invalid report names, on the events themselves: a sequence id that does not increase, else an id
   * seen before, else another account, else another symbol; with the event's sequence id, and its id if repeated.
   */
  lemma FaultsInPrecedence(log: Log, scope: Scope) returns (k: nat)
    requires Scan(log, scope) != Valid
    ensures k < |log| && Sound(log[..k], scope) && !Sound(log[..k + 1], scope)
    ensures var r, e := Scan(log, scope), log[k];
            var behind := k > 0 && e.sequenceId <= log[k - 1].sequenceId;
            var foreign := scope.account.Some? && scope.account.value != e.accountId;
            && r.Invalid? && r.violatingSequenceId == e.sequenceId
            && (r.fault == SEQUENCE_OUT_OF_ORDER <==> behind)
            && (r.fault == EVENT_ID_DUPLICATE <==> !behind && IdSeenBefore(log, k))
            && (r.fault == ACCOUNT_SCOPE_MISMATCH <==> !behind && !IdSeenBefore(log, k) && foreign)
            && (r.fault == SYMBOL_SCOPE_MISMATCH ==>
                 scope.symbol.Some? && scope.symbol.value != e.symbol && !foreign)
            && r.duplicateEventId == if r.fault == EVENT_ID_DUPLICATE then Some(e.eventId) else None
  {
    k := ScanNamesFirstFault(log, scope);
    assert log[k].eventId in EventIds(log[..k]) <==> IdSeenBefore(log, k) by {
      if log[k].eventId in EventIds(log[..k]) {
        var j :| 0 <= j < k && log[..k][j].eventId == log[k].eventId;
        assert log[j].eventId == log[k].eventId;
      }
      if IdSeenBefore(log, k) {
        var j :| 0 <= j < k && log[j].eventId == log[k].eventId;
        assert log[..k][j].eventId == log[k].eventId;
      }
    }
  }
}
