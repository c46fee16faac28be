/** Event logs in which every event has to be justified by the events before it. */
module Histories {

  ghost predicate Lawful<E>(justified: (seq<E>, E) -> bool, log: seq<E>) {
    log == [] || (Lawful(justified, log[..|log| - 1]) && justified(log[..|log| - 1], log[|log| - 1]))
  }

  lemma LawfulMore<E>(justified: (seq<E>, E) -> bool, log: seq<E>, e: E)
    requires Lawful(justified, log) && justified(log, e)
    ensures Lawful(justified, log + [e])
  {
    assert (log + [e])[..|log + [e]| - 1] == log;
  }

  /** Each event of a lawful log was justified when it was recorded. */
  lemma {:induction false} LawfulAt<E>(justified: (seq<E>, E) -> bool, log: seq<E>, i: nat)
    requires Lawful(justified, log) && i < |log|
    ensures justified(log[..i], log[i])
    decreases |log|
  {
    var front := log[..|log| - 1];
    if i < |log| - 1 {
      LawfulAt(justified, front, i);
      assert front[..i] == log[..i];
    }
  }

  lemma Before<E>(log: seq<E>, i: nat, j: nat)
    requires i < j <= |log|
    ensures log[i] in log[..j]
  {
    assert log[..j][i] == log[i];
  }
}
