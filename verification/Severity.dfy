/** Exception classes of the instrument control core and the rule by which the
    wait loop and the multi-device calls pick the exception they finally raise. */
module Severity {
  import opened Options

  // The classes named by CONTINUE_EXCEPTIONS and SKIP_EXCEPTIONS, every other
  // NicosError, and exceptions that are not NicosErrors at all.
  datatype ErrorClass =
    | PositionError | MoveError | NicosTimeoutError
    | InvalidValueError | LimitError | CommunicationError | ComputationError
    | OtherNicosError
    | ForeignError

  // `id` tells two instances of the same class apart.
  datatype Exc = Exc(cls: ErrorClass, id: int)

  predicate Continues(e: Exc) {
    e.cls.PositionError? || e.cls.MoveError? || e.cls.NicosTimeoutError?
  }

  predicate Skips(e: Exc) {
    e.cls.InvalidValueError? || e.cls.LimitError? || e.cls.CommunicationError? || e.cls.ComputationError?
  }

  predicate IsNicosError(e: Exc) {
    !e.cls.ForeignError?
  }

  function FilterExceptions(curr: Exc, prev: Option<Exc>): Exc {
    match prev
    case None => curr
    case Some(p) =>
      if Continues(p) && !Continues(curr) then curr
      else if Skips(p) && !Skips(curr) && !Continues(curr) then curr
      else p
  }

  /** The documented order: CONTINUE < SKIP < everything else. */
  ghost function Rank(e: Exc): nat {
    if Continues(e) then 0 else if Skips(e) then 1 else 2
  }

  ghost predicate FirstMostSevereAt(excs: seq<Exc>, k: nat) {
    && k < |excs|
    && (forall i :: 0 <= i < k ==> Rank(excs[i]) < Rank(excs[k]))
    && (forall i :: k < i < |excs| ==> Rank(excs[i]) <= Rank(excs[k]))
  }

  /** `e` is the first exception of the highest severity in `excs`. */
  ghost predicate FirstMostSevere(excs: seq<Exc>, e: Exc) {
    exists k: nat :: FirstMostSevereAt(excs, k) && excs[k] == e
  }

  /** What is left in `final_exc` after the exceptions `excs` were merged one by one. */
  ghost function Survivor(excs: seq<Exc>): Option<Exc> {
    if excs == [] then None
    else Some(FilterExceptions(excs[|excs| - 1], Survivor(excs[..|excs| - 1])))
  }

  lemma {:induction false} SurvivorIsFirstMostSevere(excs: seq<Exc>)
    ensures excs == [] <==> Survivor(excs) == None
    ensures forall e :: Survivor(excs) == Some(e) <==> FirstMostSevere(excs, e)
  {
    if excs != [] {
      var k := SurvivorIndex(excs);
      forall e | FirstMostSevere(excs, e) ensures e == excs[k] {
        var j: nat :| FirstMostSevereAt(excs, j) && excs[j] == e;
        assert j == k;
      }
    }
  }

  lemma {:induction false} SurvivorIndex(excs: seq<Exc>) returns (k: nat)
    requires excs != []
    ensures FirstMostSevereAt(excs, k) && Survivor(excs) == Some(excs[k])
  {
    var n := |excs| - 1;
    if n == 0 {
      k := 0;
    } else {
      var init := excs[..n];
      var j := SurvivorIndex(init);
      k := if Rank(init[j]) < Rank(excs[n]) then n else j;
    }
  }
}
