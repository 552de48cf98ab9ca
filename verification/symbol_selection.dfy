/** Choosing one execution symbol from a list of account-fit reports. */
module SymbolSelection {
  import opened Outcomes
  import opened AccountFit
  import opened Lists
  import Text

  datatype SymbolReport = SymbolReport(candidateId: string, symbol: string, status: Status)

  datatype Reason =
    | SELECTION_INVALID | SELECTION_STALE | NO_SYMBOL_FITS | SYMBOL_ALLOWED | RESTRICTED_TO_1OZ
    | MULTIPLE_SYMBOLS_ALLOWED

  datatype Decision = Decision(status: Status, reason: Reason, allowed: seq<string>, selected: Option<string>)

  function PassingSymbol(r: SymbolReport): Option<string> {
    if r.status == PASS then Some(r.symbol) else None
  }

  function PassingSymbols(rs: seq<SymbolReport>): seq<string> {
    FilterMap(rs, PassingSymbol)
  }

  predicate AnyStatus(rs: seq<SymbolReport>, s: Status) {
    exists r :: r in rs && r.status == s
  }

  predicate OtherThan1ozRefused(rs: seq<SymbolReport>) {
    exists r :: r in rs && r.symbol != "1OZ" && r.status != PASS
  }

  function Select(rs: seq<SymbolReport>): Decision {
    Choose(Text.Sort(PassingSymbols(rs)), rs)
  }

  /** The decision on sorted passing symbols. */
  function Choose(passing: seq<string>, rs: seq<SymbolReport>): Decision {
    if rs == [] then Decision(INVALID, SELECTION_INVALID, [], None)
    else if |passing| == 1 then
      var reason := if passing[0] == "1OZ" && OtherThan1ozRefused(rs) then RESTRICTED_TO_1OZ else SYMBOL_ALLOWED;
      Decision(PASS, reason, passing, Some(passing[0]))
    else if passing != [] then Decision(PASS, MULTIPLE_SYMBOLS_ALLOWED, passing, None)
    else if AnyStatus(rs, STALE) then Decision(STALE, SELECTION_STALE, [], None)
    else if AnyStatus(rs, INVALID) then Decision(INVALID, SELECTION_INVALID, [], None)
    else Decision(FAIL, NO_SYMBOL_FITS, [], None)
  }

  // ---------- Order does not matter ----------

  /** Every permutation of the reports gives the same status, reason, allowed symbols and selection. */
  lemma SelectionIgnoresOrder(a: seq<SymbolReport>, b: seq<SymbolReport>)
    requires multiset(a) == multiset(b)
    ensures Select(a) == Select(b)
  {
    FilterMapPermutation(a, b, PassingSymbol);
    Text.SortDetermined(PassingSymbols(a), PassingSymbols(b));
    SameMembers(a, b);
    ChoiceIgnoresOrder(Text.Sort(PassingSymbols(a)), a, b);
  }

  lemma ChoiceIgnoresOrder(passing: seq<string>, a: seq<SymbolReport>, b: seq<SymbolReport>)
    requires |a| == |b| && forall r :: r in a <==> r in b
    ensures Choose(passing, a) == Choose(passing, b)
  {
  }

  // ---------- When a symbol is selected ----------

  /** Report `i` passes and no other does. */
  ghost predicate OnlyPass(rs: seq<SymbolReport>, i: int) {
    0 <= i < |rs| && rs[i].status == PASS && forall j :: 0 <= j < |rs| && rs[j].status == PASS ==> j == i
  }

  lemma {:induction false} PassingNone(rs: seq<SymbolReport>)
    ensures PassingSymbols(rs) == [] <==> forall j :: 0 <= j < |rs| ==> rs[j].status != PASS
  {
    if rs != [] {
      PassingNone(rs[1..]);
      assert forall j :: 1 <= j < |rs| ==> rs[j] == rs[1..][j - 1];
    }
  }

  lemma {:induction false} PassingOne(rs: seq<SymbolReport>, s: string)
    ensures PassingSymbols(rs) == [s] <==> exists i :: OnlyPass(rs, i) && rs[i].symbol == s
  {
    if rs != [] {
      var rest := rs[1..];
      assert forall j :: 1 <= j < |rs| ==> rs[j] == rest[j - 1];
      PassingOne(rest, s);
      PassingNone(rest);
      if rs[0].status == PASS {
        assert PassingSymbols(rs) == [rs[0].symbol] + PassingSymbols(rest);
        if PassingSymbols(rs) == [s] {
          assert PassingSymbols(rs)[0] == rs[0].symbol && PassingSymbols(rest) == [];
          assert OnlyPass(rs, 0);
        }
        if i :| OnlyPass(rs, i) && rs[i].symbol == s {
          assert i == 0;
          assert forall j :: 0 <= j < |rest| ==> rest[j] == rs[j + 1] && rest[j].status != PASS;
          assert PassingSymbols(rs) == [s] + PassingSymbols(rest) == [s];
        }
      } else {
        if i :| OnlyPass(rest, i) && rest[i].symbol == s { assert OnlyPass(rs, i + 1); }
        if i :| OnlyPass(rs, i) && rs[i].symbol == s { assert OnlyPass(rest, i - 1); }
      }
    }
  }

  lemma SortOne(xs: seq<string>, s: string)
    ensures Text.Sort(xs) == [s] <==> xs == [s]
    ensures |Text.Sort(xs)| == |xs|
  {
    Text.SortSorts(xs);
    assert |Text.Sort(xs)| == |multiset(Text.Sort(xs))| == |multiset(xs)| == |xs|;
    if Text.Sort(xs) == [s] {
      assert xs[0] in multiset(Text.Sort(xs));
    }
    if xs == [s] {
      assert Text.Sort(xs)[0] in multiset(xs);
    }
  }

  /** A symbol is selected exactly when exactly one report passes, and then it is that report's symbol. */
  lemma SelectsTheOnlyPass(rs: seq<SymbolReport>, s: string)
    ensures Select(rs).selected == Some(s) <==> exists i :: OnlyPass(rs, i) && rs[i].symbol == s
  {
    SortOne(PassingSymbols(rs), s);
    PassingOne(rs, s);
  }

  /**
   * Some passing report makes the decision pass; without one, a stale report counts before an invalid one, and
   * only plain failures leave the decision failed. An empty list is invalid.
   */
  lemma DecisionFollowsReports(rs: seq<SymbolReport>)
    ensures var d := Select(rs);
            && (d.status == PASS <==> AnyStatus(rs, PASS))
            && (d.status == STALE <==> !AnyStatus(rs, PASS) && AnyStatus(rs, STALE))
            && (d.status == FAIL <==> rs != [] && forall r :: r in rs ==> r.status == FAIL)
            && (d.reason == RESTRICTED_TO_1OZ <==>
                 d.selected == Some("1OZ") && exists r :: r in rs && r.symbol != "1OZ" && r.status != PASS)
            && (d.reason == MULTIPLE_SYMBOLS_ALLOWED <==> d.status == PASS && d.selected.None?)
            && multiset(d.allowed) == multiset(PassingSymbols(rs)) && Text.Sorted(d.allowed)
  {
    var passing := PassingSymbols(rs);
    SortOne(passing, "");
    Text.SortSorts(passing);
    SomePasses(rs);
    ChoiceFollows(Text.Sort(passing), rs);
  }

  lemma SomePasses(rs: seq<SymbolReport>)
    ensures AnyStatus(rs, PASS) <==> PassingSymbols(rs) != []
  {
    PassingNone(rs);
  }

  lemma ChoiceFollows(passing: seq<string>, rs: seq<SymbolReport>)
    requires AnyStatus(rs, PASS) <==> passing != []
    ensures var d := Choose(passing, rs);
            && (d.status == PASS <==> AnyStatus(rs, PASS))
            && (d.status == STALE <==> !AnyStatus(rs, PASS) && AnyStatus(rs, STALE))
            && (d.status == FAIL <==> rs != [] && forall r :: r in rs ==> r.status == FAIL)
            && (d.reason == RESTRICTED_TO_1OZ <==>
                 d.selected == Some("1OZ") && exists r :: r in rs && r.symbol != "1OZ" && r.status != PASS)
            && (d.reason == MULTIPLE_SYMBOLS_ALLOWED <==> d.status == PASS && d.selected.None?)
            && d.allowed == passing
  {
    if rs != [] { assert rs[0] in rs; }
  }

  // ---------- The status of each symbol ----------

  /** The table of statuses by symbol: a later report on the same symbol replaces an earlier one. */
  function StatusBySymbol(rs: seq<SymbolReport>): map<string, Status> {
    if rs == [] then map[]
    else
      var last := rs[|rs| - 1];
      StatusBySymbol(rs[..|rs| - 1])[last.symbol := last.status]
  }

  /** Reports on one symbol agree on its status. */
  ghost predicate Consistent(rs: seq<SymbolReport>) {
    forall a, b :: a in rs && b in rs && a.symbol == b.symbol ==> a.status == b.status
  }

  lemma {:induction false} TableFromReports(rs: seq<SymbolReport>)
    ensures forall r :: r in rs ==> r.symbol in StatusBySymbol(rs)
    ensures forall s :: s in StatusBySymbol(rs) ==> Reported(rs, s, StatusBySymbol(rs)[s])
  {
    if rs != [] {
      var n := |rs| - 1;
      TableFromReports(rs[..n]);
      assert rs == rs[..n] + [rs[n]];
    }
  }

  ghost predicate Reported(rs: seq<SymbolReport>, s: string, status: Status) {
    exists r :: r in rs && r.symbol == s && r.status == status
  }

  lemma TableOfConsistent(rs: seq<SymbolReport>, ps: seq<SymbolReport>)
    requires Consistent(rs) && multiset(ps) == multiset(rs)
    ensures StatusBySymbol(ps) == StatusBySymbol(rs)
  {
    SameMembers(rs, ps);
    TableFromReports(rs);
    TableFromReports(ps);
    assert StatusBySymbol(ps).Keys == StatusBySymbol(rs).Keys;
  }

  /** Any report of the list can be moved to its end. */
  lemma MovedToEnd(rs: seq<SymbolReport>, r: SymbolReport) returns (ps: seq<SymbolReport>)
    requires r in rs
    ensures multiset(ps) == multiset(rs)
    ensures r.symbol in StatusBySymbol(ps) && StatusBySymbol(ps)[r.symbol] == r.status
  {
    var front, back := SplitAt(rs, r);
    ps := front + back + [r];
    assert ps[..|ps| - 1] == front + back;
  }

  /** Unlike the decision, the status table depends on the order exactly when a symbol has two different statuses. */
  lemma TableIgnoresOrderIff(rs: seq<SymbolReport>)
    ensures (forall ps :: multiset(ps) == multiset(rs) ==> StatusBySymbol(ps) == StatusBySymbol(rs))
            <==> Consistent(rs)
  {
    if Consistent(rs) {
      forall ps | multiset(ps) == multiset(rs) ensures StatusBySymbol(ps) == StatusBySymbol(rs) {
        TableOfConsistent(rs, ps);
      }
    } else {
      var a, b :| a in rs && b in rs && a.symbol == b.symbol && a.status != b.status;
      var aLast := MovedToEnd(rs, a);
      var bLast := MovedToEnd(rs, b);
      assert StatusBySymbol(aLast) != StatusBySymbol(bLast);
    }
  }

  /** Two orders of the same reports, on one symbol with two statuses, whose tables differ. */
  lemma TableCanDependOnOrder() returns (a: seq<SymbolReport>, b: seq<SymbolReport>)
    ensures multiset(a) == multiset(b) && StatusBySymbol(a) != StatusBySymbol(b) && Select(a) == Select(b)
  {
    var pass, fail := SymbolReport("c", "1OZ", PASS), SymbolReport("c", "1OZ", FAIL);
    a, b := [pass, fail], [fail, pass];
    assert StatusBySymbol(a)["1OZ"] == a[1].status && StatusBySymbol(b)["1OZ"] == b[1].status;
    SelectionIgnoresOrder(a, b);
  }
}
