/**
  Task outcomes and the accumulator of core/task/multierr/error.go.

  A nil error is the empty list and a joined error is the list of its leaves.
 */
module TaskErrors {
  import opened Common

  /** An error of a task; `canceled` is what errors.Is(err, context.Canceled) answers. */
  datatype TaskError = TaskError(text: string, canceled: bool)

  /** How a task's Start or Stop returned; execute turns a panic into a failure too. */
  datatype Outcome = Success | Failure(error: TaskError)

  type Errors = seq<TaskError>

  function FailureOf(outcome: Outcome): Errors {
    if outcome.Failure? then [outcome.error] else []
  }

  /** What is kept of how a Start returned: cancellation is not an error. */
  function StartFailureOf(outcome: Outcome): Errors {
    if outcome.Failure? && !outcome.error.canceled then [outcome.error] else []
  }

  /** Errors in the order in which they were added. */
  class MultiError {
    var errs: Errors

    constructor ()
      ensures errs == []
    {
      errs := [];
    }

    method Add(err: Option<TaskError>)
      modifies this
      ensures errs == old(errs) + if err.Some? then [err.value] else []
    {
      if err.None? { return; }
      errs := errs + [err.value];
    }

    /** None when nothing was added, all of it joined otherwise. */
    method Unwrap() returns (joined: Option<Errors>)
      ensures joined == if errs == [] then None else Some(errs)
    {
      if |errs| == 0 { return None; }
      return Some(errs);
    }
  }

  // ------------------------------------------------------- counting errors

  /** All the errors of several lists, each as often as it occurs. */
  function Union(lists: seq<Errors>): multiset<TaskError> {
    if lists == [] then multiset{} else Union(lists[..|lists| - 1]) + multiset(lists[|lists| - 1])
  }

  /** Either nothing new, or the first of its kind. */
  predicate Adds(errs: Errors, errs': Errors, more: Errors) {
    if more == [] then errs' == errs else errs == [] && errs' == more
  }

  lemma {:induction false} UnionUpdated(lists: seq<Errors>, i: nat, errs: Errors, more: Errors)
    requires i < |lists| && Adds(lists[i], errs, more)
    ensures Union(lists[i := errs]) == Union(lists) + multiset(more)
  {
    var k := |lists| - 1;
    var lists' := lists[i := errs];
    if i == k {
      assert lists'[..k] == lists[..k];
    } else {
      UnionUpdated(lists[..k], i, errs, more);
      assert lists'[..k] == lists[..k][i := errs];
    }
  }

  lemma UnionSnoc(lists: seq<Errors>, errs: Errors)
    ensures Union(lists + [errs]) == Union(lists) + multiset(errs)
  {
    assert (lists + [errs])[..|lists|] == lists;
  }

  lemma {:induction false} UnionMembers(lists: seq<Errors>, e: TaskError)
    ensures e in Union(lists) <==> exists i :: 0 <= i < |lists| && e in lists[i]
  {
    if lists != [] {
      var k := |lists| - 1;
      UnionMembers(lists[..k], e);
      if i :| 0 <= i < |lists| && e in lists[i] {
        if i < k { assert lists[..k][i] == lists[i]; }
      }
    }
  }

  /** There are no errors at all exactly when no list has one. */
  lemma {:induction false} UnionEmpty(lists: seq<Errors>)
    ensures Union(lists) == multiset{} <==> forall i :: 0 <= i < |lists| ==> lists[i] == []
  {
    if lists != [] {
      var k := |lists| - 1;
      UnionEmpty(lists[..k]);
      if lists[k] != [] { assert lists[k][0] in Union(lists); }
      assert forall i :: 0 <= i < k ==> lists[..k][i] == lists[i];
    }
  }

  /** The lists that `order` names, in that order. */
  function InOrder(lists: seq<Errors>, order: seq<nat>): Errors
    requires forall i :: 0 <= i < |order| ==> order[i] < |lists|
  {
    if order == [] then []
    else InOrder(lists, order[..|order| - 1]) + lists[order[|order| - 1]]
  }

  /** The same lists where they stand. */
  function InPlace(lists: seq<Errors>, order: seq<nat>): seq<Errors> {
    seq(|lists|, i requires 0 <= i < |lists| => if i in order then lists[i] else [])
  }

  /** The order in which lists are collected does not matter, as long as none is collected twice. */
  lemma {:induction false} CollectedInAnyOrder(lists: seq<Errors>, order: seq<nat>)
    requires Distinct(order) && forall i :: 0 <= i < |order| ==> order[i] < |lists|
    ensures multiset(InOrder(lists, order)) == Union(InPlace(lists, order))
  {
    if order == [] {
      NothingInPlace(lists);
    } else {
      var most, last := order[..|order| - 1], order[|order| - 1];
      assert order == most + [last];
      assert last !in most;
      CollectedInAnyOrder(lists, most);
      assert InPlace(lists, order) == InPlace(lists, most)[last := lists[last]];
      UnionUpdated(InPlace(lists, most), last, lists[last], lists[last]);
    }
  }

  lemma {:induction false} NothingInPlace(lists: seq<Errors>)
    ensures Union(InPlace(lists, [])) == multiset{}
  {
    if lists != [] {
      var k := |lists| - 1;
      NothingInPlace(lists[..k]);
      assert InPlace(lists, [])[..k] == InPlace(lists[..k], []);
    }
  }
}
