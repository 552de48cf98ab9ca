/** Signed waivers: when one is active, and which of them match a control. */
module Waivers {
  import opened Outcomes
  import opened Timestamps
  import Text

  const WAIVER_CATEGORY := "baseline_risk_controls"

  datatype Waiver = Waiver(
    waiverId: string, categories: seq<string>, ruleIds: seq<string>, reasonCodes: seq<string>,
    expiresAtUtc: Option<string>)

  // ---------- Activity ----------

  /** The waiver expires, and the evaluation time or the expiry is not a timestamp in range. */
  predicate Unreadable(w: Waiver, at: string, zone: Zone) {
    w.expiresAtUtc.Some? && !(Denotes(at, zone) && Denotes(w.expiresAtUtc.value, zone))
  }

  /** The normalised texts are compared as strings; what normalising raises is not caught. */
  function IsActive(w: Waiver, at: string, zone: Zone): (r: Outcome<bool>)
    ensures r.Raises? <==> Unreadable(w, at, zone)
    ensures r.Raises? ==> r.error == ValueError || r.error == OverflowError
  {
    if w.expiresAtUtc.None? then Returns(true)
    else
      var comparison :- NormalizeLocal(at, zone);
      var expiry :- NormalizeLocal(w.expiresAtUtc.value, zone);
      Returns(Text.AtMost(comparison, expiry))
  }

  /** A waiver is active up to and including the moment it expires, whatever zones the two times are written in. */
  lemma ActiveUntilExpiry(w: Waiver, at: string, zone: Zone)
    requires !Unreadable(w, at, zone)
    ensures IsActive(w, at, zone) ==
            Returns(w.expiresAtUtc.Some? ==> Denoted(at, zone) <= Denoted(w.expiresAtUtc.value, zone))
  {
    if w.expiresAtUtc.Some? { CanonicalTextOrder(Denoted(at, zone), Denoted(w.expiresAtUtc.value, zone)); }
  }

  /** Asking a waiver whether it is active: an answer or an exception. */
  type Check = Waiver -> Outcome<bool>

  function CheckAt(at: string, zone: Zone): Check {
    (w: Waiver) => IsActive(w, at, zone)
  }

  /** At a later time no further waiver is active. */
  lemma LaterIsNotMoreActive(w: Waiver, at: string, later: string, zone: Zone)
    requires Denotes(at, zone) && Denotes(later, zone) && Denoted(at, zone) <= Denoted(later, zone)
    ensures Unreadable(w, later, zone) <==> Unreadable(w, at, zone)
    ensures CheckAt(later, zone)(w) == Returns(true) ==> CheckAt(at, zone)(w) == Returns(true)
  {
    if !Unreadable(w, at, zone) {
      ActiveUntilExpiry(w, at, zone);
      ActiveUntilExpiry(w, later, zone);
    }
  }

  /** What the first listed waiver that raises does raise. */
  function FirstError(ws: seq<Waiver>, check: Check): Option<Error> {
    if ws == [] then None
    else
      var front, last := FirstError(ws[..|ws| - 1], check), check(ws[|ws| - 1]);
      if front.Some? then front else if last.Raises? then Some(last.error) else None
  }

  /** Waiver `i` is the first listed one that raises. */
  ghost predicate FirstToRaise(ws: seq<Waiver>, i: int, check: Check) {
    0 <= i < |ws| && check(ws[i]).Raises? && forall j :: 0 <= j < i ==> check(ws[j]).Returns?
  }

  lemma {:induction false} FirstErrorIff(ws: seq<Waiver>, check: Check)
    ensures FirstError(ws, check).Some? <==> exists w :: w in ws && check(w).Raises?
    ensures forall i :: FirstToRaise(ws, i, check) ==> FirstError(ws, check) == Some(check(ws[i]).error)
  {
    if ws != [] {
      var n := |ws| - 1;
      FirstErrorIff(ws[..n], check);
      assert ws == ws[..n] + [ws[n]];
      forall i | FirstToRaise(ws, i, check) ensures FirstError(ws, check) == Some(check(ws[i]).error) {
        if i < n { assert FirstToRaise(ws[..n], i, check); }
      }
    }
  }

  /** Whatever is raised, some listed waiver raises it. */
  lemma {:induction false} FirstErrorFromWaiver(ws: seq<Waiver>, check: Check)
    requires FirstError(ws, check).Some?
    ensures exists w :: w in ws && check(w) == Raises(FirstError(ws, check).value)
  {
    var n := |ws| - 1;
    if FirstError(ws[..n], check).Some? {
      FirstErrorFromWaiver(ws[..n], check);
      var w :| w in ws[..n] && check(w) == Raises(FirstError(ws[..n], check).value);
      assert w in ws;
    } else {
      assert ws[n] in ws;
    }
  }

  lemma {:induction false} FirstErrorSticks(ws: seq<Waiver>, n: nat, check: Check)
    requires n <= |ws| && FirstError(ws[..n], check).Some?
    ensures FirstError(ws, check) == FirstError(ws[..n], check)
  {
    if n == |ws| {
      assert ws[..n] == ws;
    } else {
      assert ws[..|ws| - 1][..n] == ws[..n];
      FirstErrorSticks(ws[..|ws| - 1], n, check);
    }
  }

  // ---------- Matching ----------

  /** Active, and each list it restricts itself to, when not empty, names this category, control or reason. */
  predicate Matches(w: Waiver, controlId: string, reason: string, check: Check) {
    check(w) == Returns(true)
    && (w.categories == [] || WAIVER_CATEGORY in w.categories)
    && (w.ruleIds == [] || controlId in w.ruleIds)
    && (w.reasonCodes == [] || reason in w.reasonCodes)
  }

  function MatchingIds(ws: seq<Waiver>, controlId: string, reason: string, check: Check): seq<string> {
    if ws == [] then []
    else
      var last := ws[|ws| - 1];
      MatchingIds(ws[..|ws| - 1], controlId, reason, check) +
        if Matches(last, controlId, reason, check) then [last.waiverId] else []
  }

  /** What collecting the ids gives: the first waiver's exception, or the sorted distinct ids of those that match. */
  function WaiverIds(ws: seq<Waiver>, controlId: string, reason: string, check: Check): Outcome<seq<string>> {
    var error := FirstError(ws, check);
    if error.Some? then Raises(error.value) else Returns(Text.SortedSet(MatchingIds(ws, controlId, reason, check)))
  }

  method MatchingWaiverIds(ws: seq<Waiver>, controlId: string, reason: string, at: string, zone: Zone)
    returns (r: Outcome<seq<string>>)
    ensures r == WaiverIds(ws, controlId, reason, CheckAt(at, zone))
    ensures r.Raises? <==> exists w :: w in ws && Unreadable(w, at, zone)
    ensures r.Returns? ==>
              (r.value != [] <==> exists w :: w in ws && Matches(w, controlId, reason, CheckAt(at, zone)))
  {
    r := CollectIds(ws, controlId, reason, CheckAt(at, zone));
    CheckRaisesIff(ws, at, zone);
    IdsIffMatch(ws, controlId, reason, CheckAt(at, zone));
  }

  lemma CheckRaisesIff(ws: seq<Waiver>, at: string, zone: Zone)
    ensures FirstError(ws, CheckAt(at, zone)).Some? <==> exists w :: w in ws && Unreadable(w, at, zone)
  {
    FirstErrorIff(ws, CheckAt(at, zone));
    forall w ensures CheckAt(at, zone)(w).Raises? <==> Unreadable(w, at, zone) { CheckRaises(w, at, zone); }
  }

  lemma CheckRaises(w: Waiver, at: string, zone: Zone)
    ensures CheckAt(at, zone)(w).Raises? <==> Unreadable(w, at, zone)
    ensures CheckAt(at, zone)(w).Raises? ==> CheckAt(at, zone)(w).error in {ValueError, OverflowError}
  {
  }

  method CollectIds(ws: seq<Waiver>, controlId: string, reason: string, check: Check)
    returns (r: Outcome<seq<string>>)
    ensures r == WaiverIds(ws, controlId, reason, check)
  {
    var matches := [];
    for i := 0 to |ws|
      invariant matches == MatchingIds(ws[..i], controlId, reason, check)
      invariant FirstError(ws[..i], check).None?
    {
      var waiver := ws[i];
      assert ws[..i + 1][..i] == ws[..i];
      var isActive := check(waiver);
      if isActive.Raises? {
        FirstErrorSticks(ws, i + 1, check);
        return Raises(isActive.error);
      }
      if !isActive.value { continue; }
      if waiver.categories != [] && WAIVER_CATEGORY !in waiver.categories { continue; }
      if waiver.ruleIds != [] && controlId !in waiver.ruleIds { continue; }
      if waiver.reasonCodes != [] && reason !in waiver.reasonCodes { continue; }
      matches := matches + [waiver.waiverId];
    }
    assert ws[..|ws|] == ws;
    r := Returns(Text.SortedSet(matches));
  }

  lemma {:induction false} MatchingIdMembers(
      ws: seq<Waiver>, controlId: string, reason: string, check: Check, id: string)
    ensures id in MatchingIds(ws, controlId, reason, check)
            <==> exists w :: w in ws && Matches(w, controlId, reason, check) && w.waiverId == id
  {
    if ws != [] {
      var n := |ws| - 1;
      MatchingIdMembers(ws[..n], controlId, reason, check, id);
      assert ws == ws[..n] + [ws[n]];
    }
  }

  lemma NoIdsIffNoMatch(ws: seq<Waiver>, controlId: string, reason: string, check: Check)
    ensures MatchingIds(ws, controlId, reason, check) != []
            <==> exists w :: w in ws && Matches(w, controlId, reason, check)
  {
    var ids := MatchingIds(ws, controlId, reason, check);
    if ids != [] { MatchingIdMembers(ws, controlId, reason, check, ids[0]); }
    if w :| w in ws && Matches(w, controlId, reason, check) {
      MatchingIdMembers(ws, controlId, reason, check, w.waiverId);
    }
  }

  lemma SortedSetEmpty(s: seq<string>)
    ensures Text.SortedSet(s) == [] <==> s == []
  {
    if s != [] { Text.SortedSetMembers(s, s[0]); }
    if Text.SortedSet(s) != [] { Text.SortedSetMembers(s, Text.SortedSet(s)[0]); }
  }

  lemma IdsIffMatch(ws: seq<Waiver>, controlId: string, reason: string, check: Check)
    ensures Text.SortedSet(MatchingIds(ws, controlId, reason, check)) != []
            <==> exists w :: w in ws && Matches(w, controlId, reason, check)
  {
    NoIdsIffNoMatch(ws, controlId, reason, check);
    SortedSetEmpty(MatchingIds(ws, controlId, reason, check));
  }
}
