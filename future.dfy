/** `retry` of shared/src/future.rs. Each call of the future factory is one
    entry of `outcomes`; the sequence running out stands for the attempts
    the loop would still make (it has no bound of its own when `times` is 0). */
module Retry {
  import opened Wrappers

  /** Returns the outcome `retry` resolves to (None: the supplied outcomes ran
      out first), the final `counter`, and how many attempts were made. */
  method Retry<T, E>(times: nat, outcomes: seq<Result<T, E>>)
    returns (r: Option<Result<T, E>>, counter: nat, attempts: nat)
    ensures counter <= attempts <= |outcomes|
    ensures forall i :: 0 <= i < counter ==> outcomes[i].Err?
    ensures r.Some? && r.value.Ok? ==>
              attempts == counter + 1 && outcomes[counter] == r.value && (times == 0 || counter < times)
    ensures r.Some? && r.value.Err? ==>
              times >= 1 && counter == times && attempts == times && r.value == outcomes[times - 1]
    ensures r.None? ==> counter == attempts == |outcomes| && (times == 0 || |outcomes| < times)
  {
    counter := 0;
    attempts := 0;
    while attempts < |outcomes|
      invariant counter == attempts <= |outcomes|
      invariant forall i :: 0 <= i < counter ==> outcomes[i].Err?
      invariant times == 0 || counter < times
    {
      var outcome := outcomes[attempts];
      attempts := attempts + 1;
      match outcome
      case Err(_) =>
        counter := counter + 1;
        if counter == times {
          return Some(outcome), counter, attempts;
        }
      case Ok(_) =>
        return Some(outcome), counter, attempts;
    }
    return None, counter, attempts;
  }
}
