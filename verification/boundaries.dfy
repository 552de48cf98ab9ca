/** Compiled session boundaries: validating the table and resolving one venue, day and session in it. */
module Boundaries {
  import opened Outcomes
  import opened Lists
  import opened Timestamps
  import Calendar

  datatype Boundary = Boundary(
    caseId: string, calendarId: string, contextBundleId: string, venue: string, sessionName: string,
    tradingDay: string, boundaryKind: string, localStart: string, localEnd: string, utcStart: string,
    utcEnd: string)

  type Key = (string, string, string)

  function KeyOf(b: Boundary): Key {
    (b.venue, b.tradingDay, b.sessionName)
  }

  /** What a validation error is about: one boundary, or the whole table. */
  datatype BoundaryError =
    | CALENDAR_ID_REQUIRED(caseId: string) | CONTEXT_BUNDLE_ID_REQUIRED(caseId: string)
    | BOUNDARY_KIND_REQUIRED(caseId: string) | NOT_UTC(caseId: string) | UTC_NOT_BEFORE(caseId: string)
    | LOCAL_NOT_BEFORE(caseId: string) | DURATIONS_DIFFER(caseId: string)
    | CASE_IDS_NOT_UNIQUE | KEYS_NOT_UNIQUE

  /** Unreadable and naive timestamps raise. */
  function ParseAware(text: string): (r: Outcome<Stamp>)
    ensures r.Returns? ==> ValidAware(r.value)
  {
    var s := ReadIso(text);
    if s.None? || s.value.Naive? then Raises(ValueError) else Returns(s.value)
  }

  datatype Times = Times(utcStart: Stamp, utcEnd: Stamp, localStart: Stamp, localEnd: Stamp)

  predicate ValidTimes(t: Times) {
    ValidAware(t.utcStart) && ValidAware(t.utcEnd) && ValidAware(t.localStart) && ValidAware(t.localEnd)
  }

  function ParseTimes(b: Boundary): (r: Outcome<Times>)
    ensures r.Returns? ==> ValidTimes(r.value)
  {
    var utcStart :- ParseAware(b.utcStart);
    var utcEnd :- ParseAware(b.utcEnd);
    var localStart :- ParseAware(b.localStart);
    var localEnd :- ParseAware(b.localEnd);
    Returns(Times(utcStart, utcEnd, localStart, localEnd))
  }

  function BindingErrors(b: Boundary): seq<BoundaryError> {
    var m := Note([], b.calendarId == "", CALENDAR_ID_REQUIRED(b.caseId));
    var m := Note(m, b.contextBundleId == "", CONTEXT_BUNDLE_ID_REQUIRED(b.caseId));
    Note(m, b.boundaryKind == "", BOUNDARY_KIND_REQUIRED(b.caseId))
  }

  /** Aware timestamps compare and subtract as moments. */
  function TimeErrors(caseId: string, t: Times): seq<BoundaryError>
    requires ValidTimes(t)
  {
    var m := Note([], t.utcStart.offset != 0 || t.utcEnd.offset != 0, NOT_UTC(caseId));
    var m := Note(m, Instant(t.utcStart) >= Instant(t.utcEnd), UTC_NOT_BEFORE(caseId));
    var m := Note(m, Instant(t.localStart) >= Instant(t.localEnd), LOCAL_NOT_BEFORE(caseId));
    Note(m, Instant(t.utcEnd) - Instant(t.utcStart) != Instant(t.localEnd) - Instant(t.localStart),
      DURATIONS_DIFFER(caseId))
  }

  function BoundaryErrors(b: Boundary): Outcome<seq<BoundaryError>> {
    var t :- ParseTimes(b);
    Returns(BindingErrors(b) + TimeErrors(b.caseId, t))
  }

  /** What the loop over the table accumulates: the first exception, or all errors in order. */
  function Collect(checks: seq<Outcome<seq<BoundaryError>>>): Outcome<seq<BoundaryError>> {
    if checks == [] then Returns([])
    else
      var before :- Collect(checks[..|checks| - 1]);
      var last :- checks[|checks| - 1];
      Returns(before + last)
  }

  function Checks(bs: seq<Boundary>): (cs: seq<Outcome<seq<BoundaryError>>>)
    ensures |cs| == |bs| && forall i :: 0 <= i < |bs| ==> cs[i] == BoundaryErrors(bs[i])
  {
    seq(|bs|, i requires 0 <= i < |bs| => BoundaryErrors(bs[i]))
  }

  predicate Repeats<T(==)>(xs: seq<T>) {
    !Distinct(xs)
  }

  function CaseIds(bs: seq<Boundary>): seq<string> {
    seq(|bs|, i requires 0 <= i < |bs| => bs[i].caseId)
  }

  function Keys(bs: seq<Boundary>): seq<Key> {
    seq(|bs|, i requires 0 <= i < |bs| => KeyOf(bs[i]))
  }

  /** Every error the table has, in order. */
  function Validate(bs: seq<Boundary>): Outcome<seq<BoundaryError>> {
    var errors :- Collect(Checks(bs));
    var errors := Note(errors, Repeats(CaseIds(bs)), CASE_IDS_NOT_UNIQUE);
    Returns(Note(errors, Repeats(Keys(bs)), KEYS_NOT_UNIQUE))
  }

  // ---------- Uniqueness through set sizes ----------

  function Elements<T(==)>(xs: seq<T>): set<T> {
    set x | x in xs
  }

  /** `len(xs) != len(set(xs))` says exactly that some element repeats. */
  lemma {:induction false} SetSizeTellsRepeats<T>(xs: seq<T>)
    ensures |Elements(xs)| <= |xs|
    ensures |xs| != |Elements(xs)| <==> Repeats(xs)
  {
    if xs == [] {
      assert Elements(xs) == {};
    } else {
      var n := |xs| - 1;
      var front, last := xs[..n], xs[n];
      SetSizeTellsRepeats(front);
      assert Elements(xs) == Elements(front) + {last};
      if last in front {
        assert Elements(xs) == Elements(front);
        var i :| 0 <= i < n && front[i] == last;
        assert xs[i] == xs[n];
      } else {
        assert |Elements(xs)| == |Elements(front)| + 1;
        if Repeats(xs) {
          var i, j :| 0 <= i < j < |xs| && xs[i] == xs[j];
          assert j < n && front[i] == front[j];
        }
        if Repeats(front) {
          var i, j :| 0 <= i < j < |front| && front[i] == front[j];
          assert xs[i] == xs[j];
        }
      }
    }
  }

  method ValidateCompiledSessionBoundaries(bs: seq<Boundary>) returns (r: Outcome<seq<BoundaryError>>)
    ensures r == Validate(bs)
  {
    var errors: seq<BoundaryError> := [];
    var caseIds: seq<string> := [];
    var uniquenessKeys: seq<Key> := [];
    ghost var checks := Checks(bs);
    for i := 0 to |bs|
      invariant Collect(checks[..i]) == Returns(errors)
      invariant caseIds == CaseIds(bs[..i]) && uniquenessKeys == Keys(bs[..i])
    {
      var boundary := bs[i];
      assert checks[..i + 1][..i] == checks[..i];
      KeysOfNext(bs, i);
      caseIds := caseIds + [boundary.caseId];
      uniquenessKeys := uniquenessKeys + [KeyOf(boundary)];
      var found := CheckBoundary(boundary);
      assert found == checks[i];
      if found.Raises? {
        RaisesEarly(checks, i);
        return Raises(found.error);
      }
      errors := errors + found.value;
    }
    assert bs[..|bs|] == bs && checks[..|bs|] == checks;
    SetSizeTellsRepeats(caseIds);
    SetSizeTellsRepeats(uniquenessKeys);
    if |caseIds| != |Elements(caseIds)| { errors := errors + [CASE_IDS_NOT_UNIQUE]; }
    if |uniquenessKeys| != |Elements(uniquenessKeys)| { errors := errors + [KEYS_NOT_UNIQUE]; }
    r := Returns(errors);
  }

  lemma KeysOfNext(bs: seq<Boundary>, i: nat)
    requires i < |bs|
    ensures CaseIds(bs[..i + 1]) == CaseIds(bs[..i]) + [bs[i].caseId]
    ensures Keys(bs[..i + 1]) == Keys(bs[..i]) + [KeyOf(bs[i])]
  {
  }

  method CheckBoundary(b: Boundary) returns (r: Outcome<seq<BoundaryError>>)
    ensures r == BoundaryErrors(b)
  {
    var errors: seq<BoundaryError> := [];
    if b.calendarId == "" { errors := errors + [CALENDAR_ID_REQUIRED(b.caseId)]; }
    if b.contextBundleId == "" { errors := errors + [CONTEXT_BUNDLE_ID_REQUIRED(b.caseId)]; }
    if b.boundaryKind == "" { errors := errors + [BOUNDARY_KIND_REQUIRED(b.caseId)]; }
    assert errors == BindingErrors(b);
    var times :- ParseTimes(b);
    var timeErrors := CheckTimes(b.caseId, times);
    r := Returns(errors + timeErrors);
  }

  method CheckTimes(caseId: string, t: Times) returns (errors: seq<BoundaryError>)
    requires ValidTimes(t)
    ensures errors == TimeErrors(caseId, t)
  {
    errors := [];
    if t.utcStart.offset != 0 || t.utcEnd.offset != 0 { errors := errors + [NOT_UTC(caseId)]; }
    if Instant(t.utcStart) >= Instant(t.utcEnd) { errors := errors + [UTC_NOT_BEFORE(caseId)]; }
    if Instant(t.localStart) >= Instant(t.localEnd) { errors := errors + [LOCAL_NOT_BEFORE(caseId)]; }
    if Instant(t.utcEnd) - Instant(t.utcStart) != Instant(t.localEnd) - Instant(t.localStart) {
      errors := errors + [DURATIONS_DIFFER(caseId)];
    }
  }

  lemma {:induction false} RaisesEarly(checks: seq<Outcome<seq<BoundaryError>>>, i: nat)
    requires i < |checks| && Collect(checks[..i]).Returns? && checks[i].Raises?
    ensures Collect(checks) == Raises(checks[i].error)
  {
    var n := |checks| - 1;
    if i < n {
      assert checks[..n][..i] == checks[..i];
      RaisesEarly(checks[..n], i);
    }
  }

  // ---------- Resolution ----------

  function Matcher(key: Key): Boundary -> Option<Boundary> {
    (b: Boundary) => if KeyOf(b) == key then Some(b) else None
  }

  function Matching(bs: seq<Boundary>, key: Key): seq<Boundary> {
    FilterMap(bs, Matcher(key))
  }

  /** No match raises a KeyError, several matches a ValueError. */
  function Resolve(bs: seq<Boundary>, key: Key): Outcome<Boundary> {
    var matches := Matching(bs, key);
    if matches == [] then Raises(LookupFailed)
    else if |matches| != 1 then Raises(ValueError)
    else Returns(matches[0])
  }

  lemma SameKeyRepeats(bs: seq<Boundary>, i: nat, j: nat)
    requires i < j < |bs|
    ensures KeyOf(bs[i]) == KeyOf(bs[j]) ==> Repeats(Keys(bs))
  {
    assert Keys(bs)[i] == KeyOf(bs[i]) && Keys(bs)[j] == KeyOf(bs[j]);
  }

  lemma TailRepeats(bs: seq<Boundary>)
    requires bs != []
    ensures Repeats(Keys(bs[1..])) ==> Repeats(Keys(bs))
  {
    var tail := bs[1..];
    if i, j :| 0 <= i < j < |tail| && Keys(tail)[i] == Keys(tail)[j] { SameKeyRepeats(bs, i + 1, j + 1); }
  }

  lemma {:induction false} MatchingUnique(bs: seq<Boundary>, key: Key)
    requires !Repeats(Keys(bs))
    ensures |Matching(bs, key)| <= 1
    ensures Matching(bs, key) == [] <==> forall i :: 0 <= i < |bs| ==> KeyOf(bs[i]) != key
    ensures |Matching(bs, key)| == 1 ==> Matching(bs, key)[0] in bs && KeyOf(Matching(bs, key)[0]) == key
  {
    if bs != [] {
      var tail := bs[1..];
      TailRepeats(bs);
      MatchingUnique(tail, key);
      assert forall i :: 1 <= i < |bs| ==> bs[i] == tail[i - 1];
      if KeyOf(bs[0]) == key && Matching(tail, key) != [] {
        var i :| 0 <= i < |tail| && KeyOf(tail[i]) == key;
        SameKeyRepeats(bs, 0, i + 1);
      }
    }
  }

  lemma {:induction false} NoErrorsAnywhere(checks: seq<Outcome<seq<BoundaryError>>>, i: nat)
    requires i < |checks| && Collect(checks) == Returns([])
    ensures checks[i] == Returns([])
  {
    var n := |checks| - 1;
    if i < n { NoErrorsAnywhere(checks[..n], i); }
  }

  /** Bound to a calendar and a context, with UTC offsets and positive, equal UTC and local durations. */
  predicate Clean(b: Boundary) {
    b.calendarId != "" && b.contextBundleId != "" && b.boundaryKind != "" && ParseTimes(b).Returns?
    && CleanTimes(ParseTimes(b).value)
  }

  predicate CleanTimes(t: Times)
    requires ValidTimes(t)
  {
    t.utcStart.offset == 0 && t.utcEnd.offset == 0
    && 0 < Instant(t.utcEnd) - Instant(t.utcStart) == Instant(t.localEnd) - Instant(t.localStart)
  }

  lemma NoTimeErrors(caseId: string, t: Times)
    requires ValidTimes(t)
    ensures TimeErrors(caseId, t) == [] <==> CleanTimes(t)
  {
  }

  lemma NoErrorsIffClean(b: Boundary)
    ensures BoundaryErrors(b) == Returns([]) <==> Clean(b)
  {
    if ParseTimes(b).Returns? {
      var bindings, times := BindingErrors(b), TimeErrors(b.caseId, ParseTimes(b).value);
      NoTimeErrors(b.caseId, ParseTimes(b).value);
      assert bindings + times == [] <==> bindings == [] && times == [];
    }
  }

  lemma {:induction false} NothingCollected(checks: seq<Outcome<seq<BoundaryError>>>)
    requires forall i :: 0 <= i < |checks| ==> checks[i] == Returns([])
    ensures Collect(checks) == Returns([])
  {
    if checks != [] {
      NothingCollected(checks[..|checks| - 1]);
      var none: seq<BoundaryError> := [];
      assert none + none == none;
    }
  }

  lemma ValidTableParts(bs: seq<Boundary>)
    ensures Validate(bs) == Returns([]) <==>
            Collect(Checks(bs)) == Returns([]) && !Repeats(CaseIds(bs)) && !Repeats(Keys(bs))
  {
  }

  /** A table has no errors exactly when every boundary is clean and neither case ids nor keys repeat. */
  lemma TableValidIff(bs: seq<Boundary>)
    ensures Validate(bs) == Returns([]) <==>
            (forall i :: 0 <= i < |bs| ==> Clean(bs[i])) && !Repeats(CaseIds(bs)) && !Repeats(Keys(bs))
  {
    ValidTableParts(bs);
    forall i | 0 <= i < |bs| ensures Checks(bs)[i] == Returns([]) <==> Clean(bs[i]) { NoErrorsIffClean(bs[i]); }
    if Collect(Checks(bs)) == Returns([]) {
      forall i | 0 <= i < |bs| ensures Clean(bs[i]) { NoErrorsAnywhere(Checks(bs), i); }
    } else if forall i :: 0 <= i < |bs| ==> Clean(bs[i]) {
      NothingCollected(Checks(bs));
    }
  }

  /**
   * On a table that validates without errors, resolving any key finds no boundary, or the one member with that
   * key, whose UTC and local durations are positive and equal; ambiguity is never reported.
   */
  lemma ValidTablesResolve(bs: seq<Boundary>, key: Key)
    requires Validate(bs) == Returns([])
    ensures var r := Resolve(bs, key);
            && (r == Raises(LookupFailed) <==> forall i :: 0 <= i < |bs| ==> KeyOf(bs[i]) != key)
            && r != Raises(ValueError)
            && (r.Returns? ==> r.value in bs && KeyOf(r.value) == key && Clean(r.value))
  {
    TableValidIff(bs);
    MatchingUnique(bs, key);
  }

  ghost predicate Has(bs: seq<Boundary>, key: Key, i: int) {
    0 <= i < |bs| && KeyOf(bs[i]) == key
  }

  lemma {:induction false} MatchingCounts(bs: seq<Boundary>, key: Key)
    ensures |Matching(bs, key)| >= 1 <==> exists i :: Has(bs, key, i)
    ensures |Matching(bs, key)| >= 2 <==> exists i, j :: Has(bs, key, i) && Has(bs, key, j) && i < j
  {
    if bs != [] {
      var tail := bs[1..];
      MatchingCounts(tail, key);
      forall i ensures Has(tail, key, i) <==> i >= 0 && Has(bs, key, i + 1) { }
      if i, j :| Has(bs, key, i) && Has(bs, key, j) && i < j {
        assert Has(tail, key, j - 1) && (i > 0 ==> Has(tail, key, i - 1));
      }
      if i :| Has(bs, key, i) && i > 0 { assert Has(tail, key, i - 1); }
      if KeyOf(bs[0]) == key { assert Has(bs, key, 0); }
      if i :| Has(tail, key, i) { assert Has(bs, key, i + 1); }
      if i, j :| Has(tail, key, i) && Has(tail, key, j) && i < j {
        assert Has(bs, key, i + 1) && Has(bs, key, j + 1);
      }
    }
  }

  /** On any table, valid or not: nothing is found, or ambiguity reported, exactly when no member or several match. */
  lemma ResolveIff(bs: seq<Boundary>, key: Key)
    ensures Resolve(bs, key) == Raises(LookupFailed) <==> !exists i :: Has(bs, key, i)
    ensures Resolve(bs, key) == Raises(ValueError) <==> exists i, j :: Has(bs, key, i) && Has(bs, key, j) && i < j
  {
    MatchingCounts(bs, key);
  }

  lemma ResolveOnReordering(bs: seq<Boundary>, cs: seq<Boundary>, key: Key)
    requires multiset(bs) == multiset(cs) && |Matching(bs, key)| <= 1
    ensures Resolve(cs, key) == Resolve(bs, key)
  {
    FilterMapPermutation(bs, cs, Matcher(key));
    AtMostOneElement(Matching(bs, key), Matching(cs, key));
  }

  /** Every reordering of a valid table resolves every key alike. */
  lemma ResolutionIgnoresOrder(bs: seq<Boundary>, cs: seq<Boundary>, key: Key)
    requires Validate(bs) == Returns([]) && multiset(bs) == multiset(cs)
    ensures Resolve(cs, key) == Resolve(bs, key)
  {
    ValidTableParts(bs);
    MatchingUnique(bs, key);
    ResolveOnReordering(bs, cs, key);
  }

  // ---------- The table's own texts ----------

  /** The moment an aware text shows: its local time less its offset. */
  function Shown(text: string): int
    requires AwareText(text)
  {
    Calendar.Micros(ReadIso(text).value.local) - ReadIso(text).value.offset
  }

  predicate InUtc(text: string) {
    AwareText(text) && ReadIso(text).value.offset == 0
  }

  /** All four times of the boundary carry an offset. */
  predicate Readable(b: Boundary) {
    AwareText(b.utcStart) && AwareText(b.utcEnd) && AwareText(b.localStart) && AwareText(b.localEnd)
  }

  lemma TimesShown(b: Boundary)
    ensures ParseTimes(b).Returns? <==> Readable(b)
    ensures Readable(b) ==>
              var t := ParseTimes(b).value;
              && t.utcStart == ReadIso(b.utcStart).value && t.utcEnd == ReadIso(b.utcEnd).value
              && t.localStart == ReadIso(b.localStart).value && t.localEnd == ReadIso(b.localEnd).value
    ensures ParseTimes(b).Raises? ==> ParseTimes(b) == Raises(ValueError)
  {
    ParseShown(b.utcStart);
    ParseShown(b.utcEnd);
    ParseShown(b.localStart);
    ParseShown(b.localEnd);
  }

  lemma ParseShown(text: string)
    ensures ParseAware(text) == if AwareText(text) then Returns(ReadIso(text).value) else Raises(ValueError)
  {
  }

  /** What a table entry must be: bound to its calendar and context, in UTC, of positive and equal durations. */
  lemma CleanWrittenOut(b: Boundary)
    ensures Clean(b) <==>
            && b.calendarId != "" && b.contextBundleId != "" && b.boundaryKind != "" && Readable(b)
            && InUtc(b.utcStart) && InUtc(b.utcEnd)
            && Shown(b.utcStart) < Shown(b.utcEnd)
            && Shown(b.utcEnd) - Shown(b.utcStart) == Shown(b.localEnd) - Shown(b.localStart)
  {
    TimesShown(b);
    if Readable(b) { CleanOnTimes(b, ParseTimes(b).value); }
  }

  lemma CleanOnTimes(b: Boundary, t: Times)
    requires ValidTimes(t) && ParseTimes(b) == Returns(t)
    ensures CleanTimes(t) <==>
            && t.utcStart.offset == 0 && t.utcEnd.offset == 0
            && Calendar.Micros(t.utcStart.local) < Calendar.Micros(t.utcEnd.local)
            && Calendar.Micros(t.utcEnd.local) - Calendar.Micros(t.utcStart.local) ==
               (Calendar.Micros(t.localEnd.local) - t.localEnd.offset)
               - (Calendar.Micros(t.localStart.local) - t.localStart.offset)
  {
  }

  /** An entry raises exactly when a time carries no offset or cannot be read; else each error has its cause. */
  lemma ErrorsByCause(b: Boundary)
    ensures !Readable(b) ==> BoundaryErrors(b) == Raises(ValueError)
    ensures Readable(b) ==> BoundaryErrors(b).Returns? && Told(b, BoundaryErrors(b).value)
  {
    TimesShown(b);
    if Readable(b) { TimesTold(b, ParseTimes(b).value); }
  }

  /** The errors are those of the entry, each exactly for its cause. */
  ghost predicate Told(b: Boundary, errors: seq<BoundaryError>)
    requires Readable(b)
  {
    && (CALENDAR_ID_REQUIRED(b.caseId) in errors <==> b.calendarId == "")
    && (CONTEXT_BUNDLE_ID_REQUIRED(b.caseId) in errors <==> b.contextBundleId == "")
    && (BOUNDARY_KIND_REQUIRED(b.caseId) in errors <==> b.boundaryKind == "")
    && (NOT_UTC(b.caseId) in errors <==> !InUtc(b.utcStart) || !InUtc(b.utcEnd))
    && (UTC_NOT_BEFORE(b.caseId) in errors <==> Shown(b.utcEnd) <= Shown(b.utcStart))
    && (LOCAL_NOT_BEFORE(b.caseId) in errors <==> Shown(b.localEnd) <= Shown(b.localStart))
    && (DURATIONS_DIFFER(b.caseId) in errors <==>
         Shown(b.utcEnd) - Shown(b.utcStart) != Shown(b.localEnd) - Shown(b.localStart))
  }

  lemma TimesTold(b: Boundary, t: Times)
    requires Readable(b) && ValidTimes(t)
    requires t == Times(ReadIso(b.utcStart).value, ReadIso(b.utcEnd).value, ReadIso(b.localStart).value,
               ReadIso(b.localEnd).value)
    ensures Told(b, BindingErrors(b) + TimeErrors(b.caseId, t))
  {
    BindingsTold(b);
    DurationsTold(b.caseId, t);
  }

  lemma BindingsTold(b: Boundary)
    ensures var e := BindingErrors(b);
            && (CALENDAR_ID_REQUIRED(b.caseId) in e <==> b.calendarId == "")
            && (CONTEXT_BUNDLE_ID_REQUIRED(b.caseId) in e <==> b.contextBundleId == "")
            && (BOUNDARY_KIND_REQUIRED(b.caseId) in e <==> b.boundaryKind == "")
            && forall x :: x in e ==>
                 x.CALENDAR_ID_REQUIRED? || x.CONTEXT_BUNDLE_ID_REQUIRED? || x.BOUNDARY_KIND_REQUIRED?
  {
  }

  lemma DurationsTold(caseId: string, t: Times)
    requires ValidTimes(t)
    ensures var e := TimeErrors(caseId, t);
            && (NOT_UTC(caseId) in e <==> t.utcStart.offset != 0 || t.utcEnd.offset != 0)
            && (UTC_NOT_BEFORE(caseId) in e <==> Instant(t.utcEnd) <= Instant(t.utcStart))
            && (LOCAL_NOT_BEFORE(caseId) in e <==> Instant(t.localEnd) <= Instant(t.localStart))
            && (DURATIONS_DIFFER(caseId) in e <==>
                 Instant(t.utcEnd) - Instant(t.utcStart) != Instant(t.localEnd) - Instant(t.localStart))
            && forall x :: x in e ==> x.NOT_UTC? || x.UTC_NOT_BEFORE? || x.LOCAL_NOT_BEFORE? || x.DURATIONS_DIFFER?
  {
  }

  /** Two entries for one venue, day and session, and two with one case id, are each told as such. */
  lemma RepetitionsTold(bs: seq<Boundary>)
    requires Validate(bs).Returns?
    ensures CASE_IDS_NOT_UNIQUE in Validate(bs).value <==>
            exists i, j :: 0 <= i < j < |bs| && bs[i].caseId == bs[j].caseId
    ensures KEYS_NOT_UNIQUE in Validate(bs).value <==>
            exists i, j :: 0 <= i < j < |bs| && bs[i].venue == bs[j].venue && bs[i].tradingDay == bs[j].tradingDay
                           && bs[i].sessionName == bs[j].sessionName
  {
    var errors := Collect(Checks(bs)).value;
    forall i | 0 <= i < |bs| && Checks(bs)[i].Returns?
      ensures CASE_IDS_NOT_UNIQUE !in Checks(bs)[i].value && KEYS_NOT_UNIQUE !in Checks(bs)[i].value
    {
      OwnErrorsOnly(bs[i]);
    }
    CollectedFrom(Checks(bs), CASE_IDS_NOT_UNIQUE);
    CollectedFrom(Checks(bs), KEYS_NOT_UNIQUE);
    RepeatsWrittenOut(bs);
  }

  lemma OwnErrorsOnly(b: Boundary)
    requires BoundaryErrors(b).Returns?
    ensures CASE_IDS_NOT_UNIQUE !in BoundaryErrors(b).value && KEYS_NOT_UNIQUE !in BoundaryErrors(b).value
  {
    BindingsTold(b);
    DurationsTold(b.caseId, ParseTimes(b).value);
  }

  lemma {:induction false} CollectedFrom(checks: seq<Outcome<seq<BoundaryError>>>, e: BoundaryError)
    requires Collect(checks).Returns?
    requires forall i :: 0 <= i < |checks| && checks[i].Returns? ==> e !in checks[i].value
    ensures e !in Collect(checks).value
  {
    if checks != [] { CollectedFrom(checks[..|checks| - 1], e); }
  }

  lemma RepeatsWrittenOut(bs: seq<Boundary>)
    ensures Repeats(CaseIds(bs)) <==> exists i, j :: 0 <= i < j < |bs| && bs[i].caseId == bs[j].caseId
    ensures Repeats(Keys(bs)) <==>
            exists i, j :: 0 <= i < j < |bs| && bs[i].venue == bs[j].venue && bs[i].tradingDay == bs[j].tradingDay
                           && bs[i].sessionName == bs[j].sessionName
  {
    if i, j :| 0 <= i < j < |bs| && bs[i].caseId == bs[j].caseId { assert CaseIds(bs)[i] == CaseIds(bs)[j]; }
    if i, j :| 0 <= i < j < |bs| && bs[i].venue == bs[j].venue && bs[i].tradingDay == bs[j].tradingDay
               && bs[i].sessionName == bs[j].sessionName
    {
      assert Keys(bs)[i] == Keys(bs)[j];
    }
  }

  /** The boundary found is an entry for the venue, day and session asked for. */
  lemma ResolvedWrittenOut(bs: seq<Boundary>, venue: string, tradingDay: string, sessionName: string)
    ensures var r := Resolve(bs, (venue, tradingDay, sessionName));
            && (r.Returns? ==>
                 r.value in bs && r.value.venue == venue && r.value.tradingDay == tradingDay
                 && r.value.sessionName == sessionName)
            && (r == Raises(LookupFailed) <==>
                 forall b :: b in bs ==> b.venue != venue || b.tradingDay != tradingDay || b.sessionName != sessionName)
  {
    var key := (venue, tradingDay, sessionName);
    MatchingMembers(bs, key);
    if Matching(bs, key) != [] { assert Matching(bs, key)[0] in Matching(bs, key); }
  }

  lemma {:induction false} MatchingMembers(bs: seq<Boundary>, key: Key)
    ensures forall b :: b in Matching(bs, key) <==> b in bs && KeyOf(b) == key
  {
    if bs != [] {
      MatchingMembers(bs[1..], key);
      assert bs == [bs[0]] + bs[1..];
    }
  }
}
