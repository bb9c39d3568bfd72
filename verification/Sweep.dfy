/**
 The cleanup loops of the runtime sweep: what has to happen before a run is cleaned up or recorded
 as such, and that one run's failures do not touch another's handling.
 */
module Sweep {
  import opened Prelude

  type RunId = string

  /**
   What the store and the runtime answer about one run: whether a launch is active, whether a
   runtime is bound, whether the revoke and the cleanup work. None is a failed call.
   */
  datatype Replies = Replies(active: Option<bool>, bound: Option<bool>, revoked: bool, cleaned: Option<bool>)

  /** What the pass does, in order, with the answers it got. */
  datatype Action =
    | AskActive(run: RunId, active: Option<bool>)
    | AskBinding(run: RunId, bound: Option<bool>)
    | Revoke(run: RunId, done: bool)
    | Cleanup(run: RunId, finish: bool, complete: Option<bool>)
    | Record(run: RunId, finish: bool)

  datatype Listed = Listed(run: RunId, replies: Replies)

  function Visit(run: RunId, r: Replies, finish: bool): seq<Action> {
    if r.active != Some(false) then [AskActive(run, r.active)]
    else if r.bound != Some(true) then [AskActive(run, r.active), AskBinding(run, r.bound)]
    else if !r.revoked then [AskActive(run, r.active), AskBinding(run, r.bound), Revoke(run, false)]
    else [AskActive(run, r.active), AskBinding(run, r.bound), Revoke(run, true), Cleanup(run, finish, r.cleaned)]
         + (if r.cleaned == Some(true) then [Record(run, finish)] else [])
  }

  function Loop(runs: seq<Listed>, finish: bool): seq<Action> {
    if runs == [] then [] else Visit(runs[0].run, runs[0].replies, finish) + Loop(runs[1..], finish)
  }

  /** The runs awaiting cleanup, then the completed ones; a list that cannot be read is skipped. */
  function Pass(pending: Option<seq<Listed>>, completed: Option<seq<Listed>>): seq<Action> {
    (if pending.Some? then Loop(pending.value, false) else [])
    + (if completed.Some? then Loop(completed.value, true) else [])
  }

  lemma LoopStep(did: seq<Action>, runs: seq<Listed>, i: nat, finish: bool)
    requires i < |runs|
    ensures did + Loop(runs[i..], finish)
            == did + Visit(runs[i].run, runs[i].replies, finish) + Loop(runs[i + 1..], finish)
  {
    hide Visit;
    assert runs[i..][0] == runs[i] && runs[i..][1..] == runs[i + 1..];
  }

  method CleanupLoop(runs: seq<Listed>, finish: bool) returns (did: seq<Action>)
    ensures did == Loop(runs, finish)
  {
    hide Loop, Visit;
    did := [];
    assert runs[0..] == runs;
    for i := 0 to |runs|
      invariant did + Loop(runs[i..], finish) == Loop(runs, finish)
    {
      var run, r := runs[i].run, runs[i].replies;
      LoopStep(did, runs, i, finish);
      VisitAfter(did, run, r, finish);
      did := did + [AskActive(run, r.active)];
      if r.active != Some(false) {
        continue;
      }
      did := did + [AskBinding(run, r.bound)];
      if r.bound != Some(true) {
        continue;
      }
      did := did + [Revoke(run, r.revoked)];
      if !r.revoked {
        continue;
      }
      did := did + [Cleanup(run, finish, r.cleaned)];
      if r.cleaned == Some(true) {
        did := did + [Record(run, finish)];
      }
    }
    assert runs[|runs|..] == [];
    EmptyLoop(finish);
  }

  lemma EmptyLoop(finish: bool)
    ensures Loop([], finish) == []
  {
  }

  /** One iteration's appends, by where it ends. */
  lemma VisitAfter(did: seq<Action>, run: RunId, r: Replies, finish: bool)
    ensures did + Visit(run, r, finish) ==
            (var asked := did + [AskActive(run, r.active)];
             if r.active != Some(false) then asked
             else
               var bound := asked + [AskBinding(run, r.bound)];
               if r.bound != Some(true) then bound
               else
                 var revoked := bound + [Revoke(run, r.revoked)];
                 if !r.revoked then revoked
                 else
                   var cleaned := revoked + [Cleanup(run, finish, r.cleaned)];
                   if r.cleaned == Some(true) then cleaned + [Record(run, finish)] else cleaned)
  {
  }

  // ---------------------------------------------------------------- order of effects

  /**
   A binding is looked up only right after a negative launch check, a revoke made only right after a
   present binding, a cleanup only right after a revoke that worked, all of the same run.
   */
  ghost predicate Guarded(did: seq<Action>, i: nat)
    requires i < |did|
  {
    match did[i]
    case Cleanup(run, _, _) =>
      i >= 3 && did[i - 3] == AskActive(run, Some(false)) && did[i - 2] == AskBinding(run, Some(true))
      && did[i - 1] == Revoke(run, true)
    case Revoke(run, _) =>
      i >= 2 && did[i - 2] == AskActive(run, Some(false)) && did[i - 1] == AskBinding(run, Some(true))
    case AskBinding(run, _) => i >= 1 && did[i - 1] == AskActive(run, Some(false))
    case Record(run, finish) => i >= 4 && did[i - 1] == Cleanup(run, finish, Some(true))
    case _ => true
  }

  ghost predicate AllGuarded(did: seq<Action>) {
    forall i :: 0 <= i < |did| ==> Guarded(did, i)
  }

  lemma GuardedAppend(a: seq<Action>, b: seq<Action>)
    requires AllGuarded(a) && AllGuarded(b)
    ensures AllGuarded(a + b)
  {
    var all := a + b;
    forall i | 0 <= i < |all|
      ensures Guarded(all, i)
    {
      if i < |a| {
        assert Guarded(a, i);
      } else {
        assert Guarded(b, i - |a|);
      }
    }
  }

  lemma {:induction false} LoopGuarded(runs: seq<Listed>, finish: bool)
    ensures AllGuarded(Loop(runs, finish))
    decreases |runs|
  {
    if runs != [] {
      LoopGuarded(runs[1..], finish);
      GuardedAppend(Visit(runs[0].run, runs[0].replies, finish), Loop(runs[1..], finish));
    }
  }

  /**
   In every pass, whatever the environment answers, a run is cleaned up only right after it was
   found without active launch, bound and revoked, and recorded only after its cleanup returned true.
   */
  lemma CleanupIsGuarded(pending: Option<seq<Listed>>, completed: Option<seq<Listed>>)
    ensures AllGuarded(Pass(pending, completed))
  {
    if pending.Some? { LoopGuarded(pending.value, false); }
    if completed.Some? { LoopGuarded(completed.value, true); }
    var first := if pending.Some? then Loop(pending.value, false) else [];
    var second := if completed.Some? then Loop(completed.value, true) else [];
    GuardedAppend(first, second);
  }

  /** A run the guards let through: no active launch, a binding, and a revoke that worked. */
  predicate Ready(r: Replies) {
    r.active == Some(false) && r.bound == Some(true) && r.revoked
  }

  /** What a loop does about one run, by the answers it got. */
  ghost predicate Called(r: Replies, run: RunId, finish: bool, a: Action) {
    match a
    case AskActive(_, active) => r.active == active
    case AskBinding(_, bound) => r.active == Some(false) && r.bound == bound
    case Revoke(_, done) => r.active == Some(false) && r.bound == Some(true) && r.revoked == done
    case Cleanup(_, f, complete) => Ready(r) && f == finish && r.cleaned == complete
    case Record(_, f) => Ready(r) && f == finish && r.cleaned == Some(true)
  }

  /**
   The loop does about each listed run exactly what that run's own answers call for: it skips none
   for another's failure, and it touches no run that is not listed.
   */
  lemma CleanedIffReady(runs: seq<Listed>, finish: bool, a: Action)
    ensures a in Loop(runs, finish) <==>
            exists k :: 0 <= k < |runs| && runs[k].run == a.run && Called(runs[k].replies, a.run, finish, a)
  {
    hide Loop, Visit, Called;
    InLoop(runs, finish, a);
    forall k | 0 <= k < |runs|
      ensures a in Visit(runs[k].run, runs[k].replies, finish) <==>
              runs[k].run == a.run && Called(runs[k].replies, a.run, finish, a)
    {
      InVisit(runs[k].run, runs[k].replies, finish, a);
    }
  }

  lemma InVisit(own: RunId, r: Replies, finish: bool, a: Action)
    ensures a in Visit(own, r, finish) <==> own == a.run && Called(r, a.run, finish, a)
  {
  }

  ghost predicate CalledFor(runs: Option<seq<Listed>>, finish: bool, a: Action) {
    runs.Some? && exists k :: 0 <= k < |runs.value| && runs.value[k].run == a.run
                              && Called(runs.value[k].replies, a.run, finish, a)
  }

  /**
   In a pass the runs awaiting cleanup are cleaned up without finishing their scope and recorded as
   cleaned, the completed ones are finished and recorded as finished; a list that cannot be read
   keeps nothing from the other.
   */
  lemma PassMeaning(pending: Option<seq<Listed>>, completed: Option<seq<Listed>>, a: Action)
    ensures a in Pass(pending, completed) <==> CalledFor(pending, false, a) || CalledFor(completed, true, a)
  {
    hide Loop, Called;
    if pending.Some? { CleanedIffReady(pending.value, false, a); }
    if completed.Some? { CleanedIffReady(completed.value, true, a); }
    var first := if pending.Some? then Loop(pending.value, false) else [];
    var second := if completed.Some? then Loop(completed.value, true) else [];
    assert Pass(pending, completed) == first + second;
  }

  lemma {:induction false} InLoop(runs: seq<Listed>, finish: bool, a: Action)
    ensures a in Loop(runs, finish) <==>
            exists k :: 0 <= k < |runs| && a in Visit(runs[k].run, runs[k].replies, finish)
    decreases |runs|
  {
    hide Visit;
    if runs != [] {
      var rest := runs[1..];
      InLoop(rest, finish, a);
      assert forall k :: 0 <= k < |rest| ==> rest[k] == runs[k + 1];
      assert forall k :: 1 <= k < |runs| ==> runs[k] == rest[k - 1];
    }
  }

  /** Runs are taken in the order of their list, and the pending ones before the completed. */
  lemma {:induction false} LoopInOrder(runs: seq<Listed>, finish: bool, k: nat)
    requires k <= |runs|
    ensures Loop(runs[..k], finish) <= Loop(runs, finish)
    decreases k
  {
    hide Visit;
    if k > 0 {
      assert runs[..k][0] == runs[0] && runs[..k][1..] == runs[1..][..k - 1];
      LoopInOrder(runs[1..], finish, k - 1);
    }
  }

  lemma PassInOrder(pending: seq<Listed>, completed: Option<seq<Listed>>, k: nat)
    requires k <= |pending|
    ensures Loop(pending[..k], false) <= Pass(Some(pending), completed)
  {
    LoopInOrder(pending, false, k);
  }

  // ---------------------------------------------------------------- isolation

  /** The actions on one run. */
  function Project(did: seq<Action>, run: RunId): seq<Action> {
    if did == [] then [] else (if did[0].run == run then [did[0]] else []) + Project(did[1..], run)
  }

  /** The places of the list that hold one run. */
  function Own(runs: seq<Listed>, run: RunId): seq<Listed> {
    if runs == [] then [] else (if runs[0].run == run then [runs[0]] else []) + Own(runs[1..], run)
  }

  lemma {:induction false} ProjectAppend(a: seq<Action>, b: seq<Action>, run: RunId)
    ensures Project(a + b, run) == Project(a, run) + Project(b, run)
    decreases |a|
  {
    if a == [] {
      assert a + b == b;
    } else {
      assert (a + b)[1..] == a[1..] + b && (a + b)[0] == a[0];
      ProjectAppend(a[1..], b, run);
      var first: seq<Action> := if a[0].run == run then [a[0]] else [];
      var rest, others := Project(a[1..], run), Project(b, run);
      assert Project(a + b, run) == first + (rest + others) && Project(a, run) == first + rest;
      assert first + (rest + others) == (first + rest) + others;
    }
  }

  lemma {:induction false} ProjectUniform(did: seq<Action>, run: RunId, own: RunId)
    requires forall i :: 0 <= i < |did| ==> did[i].run == own
    ensures Project(did, run) == if run == own then did else []
    decreases |did|
  {
    if did != [] {
      ProjectUniform(did[1..], run, own);
    }
  }

  lemma VisitIsOwn(own: RunId, r: Replies, finish: bool, run: RunId)
    ensures Project(Visit(own, r, finish), run) == if run == own then Visit(own, r, finish) else []
  {
    var did := Visit(own, r, finish);
    assert forall i :: 0 <= i < |did| ==> did[i].run == own;
    hide *;
    ProjectUniform(did, run, own);
  }

  /** What a loop does to a run is what it would do if only that run were listed. */
  lemma {:induction false} RunsAreIsolated(runs: seq<Listed>, finish: bool, run: RunId)
    ensures Project(Loop(runs, finish), run) == Loop(Own(runs, run), finish)
    decreases |runs|
  {
    hide Visit;
    if runs != [] {
      var first := runs[0];
      RunsAreIsolated(runs[1..], finish, run);
      ProjectAppend(Visit(first.run, first.replies, finish), Loop(runs[1..], finish), run);
      VisitIsOwn(first.run, first.replies, finish, run);
      if first.run == run {
        assert Own(runs, run) == [first] + Own(runs[1..], run);
        assert ([first] + Own(runs[1..], run))[1..] == Own(runs[1..], run);
      } else {
        assert Own(runs, run) == [] + Own(runs[1..], run) == Own(runs[1..], run);
        assert [] + Project(Loop(runs[1..], finish), run) == Project(Loop(runs[1..], finish), run);
      }
    }
  }

  /** So two passes in which a run gets the same answers treat it alike, whatever happens to the others. */
  lemma SameRepliesSameHandling(one: seq<Listed>, two: seq<Listed>, finish: bool, run: RunId)
    requires Own(one, run) == Own(two, run)
    ensures Project(Loop(one, finish), run) == Project(Loop(two, finish), run)
  {
    RunsAreIsolated(one, finish, run);
    RunsAreIsolated(two, finish, run);
  }
}
