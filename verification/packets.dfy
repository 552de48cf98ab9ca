/** What the packet validators share: their statuses, the schema version and the precedence of their requirements. */
module Packets {

  datatype Status = PASS | INVALID | VIOLATION

  const SUPPORTED_SCHEMA_VERSION := 1

  /** A condition, and the answer when it is the first that does not hold. */
  datatype Requirement<+R> = Requirement(holds: bool, otherwise: R)

  /** The answer of the first requirement that does not hold, or `pass`. */
  function Answer<R>(rs: seq<Requirement<R>>, pass: R): R {
    if rs == [] then pass
    else if !rs[0].holds then rs[0].otherwise
    else Answer(rs[1..], pass)
  }

  ghost predicate HoldUpTo<R>(rs: seq<Requirement<R>>, k: int) {
    k <= |rs| && forall j :: 0 <= j < k ==> rs[j].holds
  }

  /** `k` is the first requirement that does not hold. */
  ghost predicate FirstUnmet<R>(rs: seq<Requirement<R>>, k: int) {
    0 <= k < |rs| && !rs[k].holds && HoldUpTo(rs, k)
  }

  lemma {:induction false} FirstUnmetAnswers<R>(rs: seq<Requirement<R>>, pass: R, k: int)
    requires FirstUnmet(rs, k)
    ensures Answer(rs, pass) == rs[k].otherwise
  {
    if k > 0 { FirstUnmetAnswers(rs[1..], pass, k - 1); }
  }

  lemma {:induction false} AllMetPasses<R>(rs: seq<Requirement<R>>, pass: R)
    requires HoldUpTo(rs, |rs|)
    ensures Answer(rs, pass) == pass
  {
    if rs != [] { AllMetPasses(rs[1..], pass); }
  }

  /** Requirements either all hold or one of them is the first that does not. */
  lemma {:induction false} MetOrFirstUnmet<R>(rs: seq<Requirement<R>>) returns (k: int)
    ensures HoldUpTo(rs, |rs|) || FirstUnmet(rs, k)
  {
    k := 0;
    while k < |rs| && rs[k].holds
      invariant 0 <= k <= |rs| && HoldUpTo(rs, k)
    {
      k := k + 1;
    }
  }
}
