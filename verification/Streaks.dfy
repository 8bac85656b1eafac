/** The run of failures that ends a sequence of outcomes. */
module Streaks {

  function Tail(outcomes: seq<bool>): nat {
    if outcomes == [] || outcomes[|outcomes| - 1] then 0 else 1 + Tail(outcomes[..|outcomes| - 1])
  }

  lemma {:induction false} TailBlock(outcomes: seq<bool>)
    ensures Tail(outcomes) <= |outcomes|
    ensures forall i :: |outcomes| - Tail(outcomes) <= i < |outcomes| ==> !outcomes[i]
    ensures Tail(outcomes) < |outcomes| ==> outcomes[|outcomes| - Tail(outcomes) - 1]
    decreases |outcomes|
  {
    if outcomes != [] && !outcomes[|outcomes| - 1] { TailBlock(outcomes[..|outcomes| - 1]); }
  }

  lemma {:induction false} TailAll(outcomes: seq<bool>)
    requires forall i :: 0 <= i < |outcomes| ==> !outcomes[i]
    ensures Tail(outcomes) == |outcomes|
  {
    if outcomes != [] { TailAll(outcomes[..|outcomes| - 1]); }
  }
}
