/**
 The monitor of a remote agent: a polling loop over an unreliable runtime and store, and what a
 restart of the server changes about the result it records.
 */
module Monitor {
  import opened Prelude

  /** The worker's report on a runtime, with its output already searched for a session and an error. */
  datatype Runtime = Runtime(
    status: Option<string>,
    exitCode: Option<int>,
    sessionRef: Option<string>,
    agentError: Option<string>,
    stderr: string)

  datatype Status = Known(runtime: Runtime) | NotFound | Unreachable

  /** Reply to `mark_launch_running`; after a conflict the attempt's status is read, if that works. */
  datatype Mark = Marked | Conflict(attempt: Option<string>) | MarkFailed

  /** What the environment answers during one poll. */
  datatype Poll = Poll(stop: Option<bool>, status: Status, mark: Mark, revoked: bool, finished: bool)

  datatype Effect =
    | StopAgent
    | MarkRunning
    | Revoke
    | Finish(exitCode: Option<int>, providerRef: Option<string>, error: Option<string>)

  datatype Outcome = Running | Returned | Failed

  /** The constant parts of one monitored attempt. */
  datatype Attempt = Attempt(id: string, worker: string, adapter: string, providerRef: Option<string>)

  predicate Terminal(status: string) {
    status in {"succeeded", "failed", "exited", "stopped", "lost"}
  }

  function StatusText(r: Runtime): string {
    if r.status.Some? then r.status.value else "unknown"
  }

  function Clip(text: string, limit: nat): string {
    if |text| <= limit then text else text[..limit]
  }

  predicate Success(r: Runtime) {
    StatusText(r) == "succeeded" || (StatusText(r) == "exited" && r.exitCode == Some(0))
  }

  function FinishError(a: Attempt, r: Runtime): Option<string> {
    if Success(r) then None
    else if r.agentError.Some? then Some(a.adapter + ": " + r.agentError.value)
    else if r.stderr != "" then Some(a.adapter + ": " + Clip(r.stderr, 2000))
    else Some("remote runtime ended with status " + StatusText(r))
  }

  function ProviderRef(a: Attempt, r: Runtime): Option<string> {
    if a.providerRef.Some? then a.providerRef else r.sessionRef
  }

  const CANCELLED := "run_cancel_requested"

  function MissingMessage(a: Attempt): string {
    "morrow-runtime durable runtime " + a.id + " is missing on worker " + a.worker
  }

  // ---------------------------------------------------------------- one poll

  /** Where one poll leaves the loop: goes on with `observed`, or ends. */
  datatype Next = Continue(observed: bool) | End(outcome: Outcome)

  function Ended(p: Poll): Next {
    End(if p.finished then Returned else Failed)
  }

  /** Whether the launch counts as observed running after this report; None when the store failed. */
  function Observe(observed: bool, p: Poll): Option<bool> {
    if observed then Some(true)
    else match p.mark
      case Marked => Some(true)
      case Conflict(attempt) => if attempt.Some? then Some(attempt.value == "running") else None
      case MarkFailed => None
  }

  function MarkEffects(observed: bool): seq<Effect> {
    if observed then [] else [MarkRunning]
  }

  function FinalEffects(a: Attempt, r: Runtime, p: Poll): seq<Effect> {
    if p.revoked then [Revoke, Finish(r.exitCode, ProviderRef(a, r), FinishError(a, r))] else [Revoke]
  }

  function Step(a: Attempt, observed: bool, p: Poll): (seq<Effect>, Next) {
    if p.stop.None? then ([], End(Failed))
    else if p.stop.value then ([StopAgent, Revoke, Finish(None, a.providerRef, Some(CANCELLED))], Ended(p))
    else match p.status
      case Unreachable => ([], Continue(observed))
      case NotFound => ([Revoke, Finish(None, a.providerRef, Some(MissingMessage(a)))], Ended(p))
      case Known(r) =>
        var seen := Observe(observed, p);
        if seen.None? then (MarkEffects(observed), End(Failed))
        else if !Terminal(StatusText(r)) then (MarkEffects(observed), Continue(seen.value))
        else (MarkEffects(observed) + FinalEffects(a, r, p), if p.revoked then Ended(p) else End(Failed))
  }

  /** All effects of a monitor over a stretch of polls, and how it ends. */
  function Trace(a: Attempt, observed: bool, polls: seq<Poll>): (seq<Effect>, Outcome)
    decreases |polls|
  {
    if polls == [] then ([], Running)
    else
      var (effects, next) := Step(a, observed, polls[0]);
      match next
      case End(outcome) => (effects, outcome)
      case Continue(seen) =>
        var (rest, outcome) := Trace(a, seen, polls[1..]);
        (effects + rest, outcome)
  }

  /** The body of the loop. */
  method PollOnce(a: Attempt, running: bool, p: Poll) returns (effects: seq<Effect>, next: Next)
    ensures (effects, next) == Step(a, running, p)
  {
    var observed := running;
    effects := [];
    if p.stop.None? {
      return effects, End(Failed);
    }
    if p.stop.value {
      assert p.stop == Some(true);
      effects := [StopAgent, Revoke, Finish(None, a.providerRef, Some(CANCELLED))];
      return effects, Ended(p);
    }
    match p.status {
      case Unreachable =>
      case NotFound =>
        effects := [Revoke, Finish(None, a.providerRef, Some(MissingMessage(a)))];
        return effects, Ended(p);
      case Known(r) =>
        if !observed {
          effects := effects + [MarkRunning];
          assert effects == MarkEffects(running);
          match p.mark {
            case Marked => observed := true;
            case Conflict(status) =>
              if status.None? { return effects, End(Failed); }
              observed := status.value == "running";
            case MarkFailed => return effects, End(Failed);
          }
        }
        assert effects == MarkEffects(running) && Observe(running, p) == Some(observed);
        var status := StatusText(r);
        var over := status == "succeeded" || status == "failed" || status == "exited" || status == "stopped"
                    || status == "lost";
        assert over <==> Terminal(status);
        if over {
          assert effects + [Revoke] + [Finish(r.exitCode, ProviderRef(a, r), FinishError(a, r))]
              == effects + [Revoke, Finish(r.exitCode, ProviderRef(a, r), FinishError(a, r))];
          effects := effects + [Revoke];
          if !p.revoked { return effects, End(Failed); }
          effects := effects + [Finish(r.exitCode, ProviderRef(a, r), FinishError(a, r))];
          return effects, Ended(p);
        }
    }
    return effects, Continue(observed);
  }

  /** The loop, over any stretch of the environment's replies. */
  method MonitorAgent(a: Attempt, running: bool, polls: seq<Poll>) returns (effects: seq<Effect>, outcome: Outcome)
    ensures (effects, outcome) == Trace(a, running, polls)
  {
    hide Step;
    var observed := running;
    effects := [];
    assert polls[0..] == polls && [] + Trace(a, running, polls).0 == Trace(a, running, polls).0;
    for k := 0 to |polls|
      invariant Prefixed(effects, Trace(a, observed, polls[k..])) == Trace(a, running, polls)
    {
      assert polls[k..][0] == polls[k] && polls[k..][1..] == polls[k + 1..];
      var now, next := PollOnce(a, observed, polls[k]);
      if next.End? {
        return effects + now, next.outcome;
      }
      ghost var rest := Trace(a, next.observed, polls[k + 1..]).0;
      assert effects + (now + rest) == (effects + now) + rest;
      effects := effects + now;
      observed := next.observed;
    }
    assert polls[|polls|..] == [];
    assert effects + [] == effects;
    outcome := Running;
  }

  function Prefixed(effects: seq<Effect>, t: (seq<Effect>, Outcome)): (seq<Effect>, Outcome) {
    (effects + t.0, t.1)
  }

  // ---------------------------------------------------------------- the first decisive event

  /** A stop request, a missing runtime or a terminal report. */
  predicate Decisive(p: Poll) {
    p.stop == Some(true)
    || (p.stop == Some(false) && (p.status.NotFound? || (p.status.Known? && Terminal(StatusText(p.status.runtime)))))
  }

  /** The finish that a decisive poll calls for. */
  function Verdict(a: Attempt, p: Poll): Effect {
    if p.stop == Some(true) then Finish(None, a.providerRef, Some(CANCELLED))
    else if p.status.Known? then
      Finish(p.status.runtime.exitCode, ProviderRef(a, p.status.runtime), FinishError(a, p.status.runtime))
    else Finish(None, a.providerRef, Some(MissingMessage(a)))
  }

  /** The poll's store calls work. */
  predicate Healthy(p: Poll) {
    p.stop.Some? && !p.mark.MarkFailed? && p.mark != Conflict(None) && p.revoked && p.finished
  }

  predicate FirstDecisive(polls: seq<Poll>, d: nat) {
    d < |polls| && Decisive(polls[d]) && forall j :: 0 <= j < d ==> !Decisive(polls[j])
  }

  predicate NoFinish(effects: seq<Effect>) {
    forall i :: 0 <= i < |effects| ==> !effects[i].Finish?
  }

  /** A trace that finishes once, as its last effect, right after trying to revoke. */
  ghost predicate FinishesOnce(effects: seq<Effect>, finish: Effect) {
    |effects| >= 2 && effects[|effects| - 1] == finish && effects[|effects| - 2] == Revoke
    && NoFinish(effects[..|effects| - 2])
  }

  /** A poll that goes on is not decisive and finishes nothing; one that returns gives its verdict. */
  lemma StepShape(a: Attempt, observed: bool, p: Poll)
    ensures var (effects, next) := Step(a, observed, p);
            && (next.Continue? ==> !Decisive(p) && NoFinish(effects))
            && (next == End(Returned) ==> Decisive(p) && FinishesOnce(effects, Verdict(a, p)))
  {
    var (effects, next) := Step(a, observed, p);
    if next == End(Returned) {
      assert effects[..|effects| - 2] == if p.stop == Some(true) then [StopAgent]
                                         else if p.status.Known? then MarkEffects(observed) else [];
    }
  }

  lemma {:induction false} ReturnsAtFirstDecisive(a: Attempt, observed: bool, polls: seq<Poll>) returns (d: nat)
    requires Trace(a, observed, polls).1 == Returned
    ensures FirstDecisive(polls, d)
    ensures FinishesOnce(Trace(a, observed, polls).0, Verdict(a, polls[d]))
    decreases |polls|
  {
    var (effects, next) := Step(a, observed, polls[0]);
    StepShape(a, observed, polls[0]);
    if next.Continue? {
      hide Step;
      var k := ReturnsAtFirstDecisive(a, next.observed, polls[1..]);
      d := k + 1;
      var rest := Trace(a, next.observed, polls[1..]).0;
      assert (effects + rest)[..|effects + rest| - 2] == effects + rest[..|rest| - 2];
    } else {
      d := 0;
    }
  }

  lemma {:induction false} HealthyRunDecides(a: Attempt, observed: bool, polls: seq<Poll>)
    requires forall i :: 0 <= i < |polls| ==> Healthy(polls[i])
    ensures Trace(a, observed, polls).1 != Failed
    ensures Trace(a, observed, polls).1 == Running <==> forall i :: 0 <= i < |polls| ==> !Decisive(polls[i])
    decreases |polls|
  {
    if polls != [] {
      var (effects, next) := Step(a, observed, polls[0]);
      if next.Continue? {
        HealthyRunDecides(a, next.observed, polls[1..]);
        assert forall i :: 0 < i < |polls| ==> polls[i] == polls[1..][i - 1];
        assert forall i :: 0 <= i < |polls| - 1 ==> polls[1..][i] == polls[i + 1];
      }
    }
  }

  /**
   The loop refines "act on the first decisive event": every successful return performs one finish,
   its last effect and right after a revoke, with the verdict of the earliest stop request, missing
   runtime or terminal report; and when the store works the loop waits exactly until there is one.
   */
  lemma MonitorRefinesFirstDecisive(a: Attempt, observed: bool, polls: seq<Poll>)
    ensures Trace(a, observed, polls).1 == Returned ==>
              exists d: nat :: FirstDecisive(polls, d)
                               && FinishesOnce(Trace(a, observed, polls).0, Verdict(a, polls[d]))
    ensures (forall i :: 0 <= i < |polls| ==> Healthy(polls[i])) ==>
              (Trace(a, observed, polls).1 == Returned <==> exists d: nat :: FirstDecisive(polls, d))
              && (Trace(a, observed, polls).1 == Running <==> !exists d: nat :: FirstDecisive(polls, d))
  {
    if Trace(a, observed, polls).1 == Returned {
      var d := ReturnsAtFirstDecisive(a, observed, polls);
    }
    if forall i :: 0 <= i < |polls| ==> Healthy(polls[i]) {
      HealthyRunDecides(a, observed, polls);
      if exists d: nat :: FirstDecisive(polls, d) {
        var d: nat :| FirstDecisive(polls, d);
        assert Decisive(polls[d]);
      }
    }
  }

  /** On a terminal report the attempt finishes without error exactly for success or exit code 0. */
  lemma FinishErrorIff(a: Attempt, p: Poll)
    requires Decisive(p) && p.stop == Some(false)
    ensures Verdict(a, p).error == None <==>
              p.status.Known? && (p.status.runtime.status == Some("succeeded")
                                  || (p.status.runtime.status == Some("exited")
                                      && p.status.runtime.exitCode == Some(0)))
  {
  }

  ghost predicate AsksToMark(effects: seq<Effect>) {
    exists i :: 0 <= i < |effects| && effects[i].MarkRunning?
  }

  /** A launch that was seen running is never marked again. */
  lemma {:induction false} ObservedStays(a: Attempt, polls: seq<Poll>)
    ensures !AsksToMark(Trace(a, true, polls).0)
    decreases |polls|
  {
    if polls != [] {
      var (effects, next) := Step(a, true, polls[0]);
      assert next.Continue? ==> next.observed && effects == [];
      if next.Continue? {
        ObservedStays(a, polls[1..]);
        assert [] + Trace(a, true, polls[1..]).0 == Trace(a, true, polls[1..]).0;
      }
    }
  }

  /** When marking works, a launch is marked running at most once. */
  lemma {:induction false} MarkedOnce(a: Attempt, polls: seq<Poll>, i: nat, j: nat)
    requires forall k :: 0 <= k < |polls| ==> polls[k].mark.Marked?
    requires i < j < |Trace(a, false, polls).0| && Trace(a, false, polls).0[i].MarkRunning?
    ensures !Trace(a, false, polls).0[j].MarkRunning?
    decreases |polls|
  {
    var (effects, next) := Step(a, false, polls[0]);
    if next.Continue? {
      var rest := Trace(a, next.observed, polls[1..]).0;
      assert Trace(a, false, polls).0 == effects + rest;
      assert effects == if next.observed then [MarkRunning] else [];
      if next.observed {
        ObservedStays(a, polls[1..]);
        assert !rest[j - 1].MarkRunning?;
      } else {
        MarkedOnce(a, polls[1..], i, j);
      }
    }
  }

  // ---------------------------------------------------------------- what each poll does

  /** The running flag that a stretch of polls leaves, while the loop goes on. */
  function FlagAfter(a: Attempt, observed: bool, polls: seq<Poll>): bool
    decreases |polls|
  {
    if polls == [] then observed
    else
      var next := Step(a, observed, polls[0]).1;
      if next.Continue? then FlagAfter(a, next.observed, polls[1..]) else observed
  }

  /** The loop is still polling after the first `d` polls. */
  predicate Reached(a: Attempt, observed: bool, polls: seq<Poll>, d: nat) {
    d <= |polls| && Trace(a, observed, polls[..d]).1 == Running
  }

  /** A trace is that of its first polls and, if the loop goes on, that of the others. */
  lemma {:induction false} TraceSplits(a: Attempt, observed: bool, polls: seq<Poll>, d: nat)
    requires d <= |polls|
    ensures var first := Trace(a, observed, polls[..d]);
            Trace(a, observed, polls)
            == if first.1 == Running
               then Prefixed(first.0, Trace(a, FlagAfter(a, observed, polls[..d]), polls[d..])) else first
    decreases d
  {
    if d == 0 {
      assert polls[..0] == [] && polls[0..] == polls;
      assert [] + Trace(a, observed, polls).0 == Trace(a, observed, polls).0;
    } else {
      var (effects, next) := Step(a, observed, polls[0]);
      assert next.End? ==> next.outcome != Running;
      hide Step;
      assert polls[..d][0] == polls[0] && polls[..d][1..] == polls[1..][..d - 1] && polls[1..][d - 1..] == polls[d..];
      if next.Continue? {
        TraceSplits(a, next.observed, polls[1..], d - 1);
        var rest := Trace(a, next.observed, polls[1..][..d - 1]);
        assert Trace(a, observed, polls[..d]) == (effects + rest.0, rest.1);
        assert FlagAfter(a, observed, polls[..d]) == FlagAfter(a, next.observed, polls[1..][..d - 1]);
        var last := Trace(a, FlagAfter(a, observed, polls[..d]), polls[d..]);
        assert effects + (rest.0 + last.0) == (effects + rest.0) + last.0;
      } else {
        assert Trace(a, observed, polls) == (effects, next.outcome);
      }
    }
  }

  /** A report with which the launch becomes observed. */
  predicate Confirms(p: Poll) {
    p.status.Known? && (p.mark.Marked? || (p.mark.Conflict? && p.mark.attempt == Some("running")))
  }

  /** The launch counts as running once a report has confirmed it, and the flag never goes off. */
  lemma {:induction false} FlagMeaning(a: Attempt, observed: bool, polls: seq<Poll>)
    requires Trace(a, observed, polls).1 == Running
    ensures FlagAfter(a, observed, polls) <==> observed || exists i :: 0 <= i < |polls| && Confirms(polls[i])
    decreases |polls|
  {
    if polls != [] {
      var next := Step(a, observed, polls[0]).1;
      assert next.Continue? && (next.observed <==> observed || Confirms(polls[0]));
      hide Step, Confirms;
      FlagMeaning(a, next.observed, polls[1..]);
      assert forall i :: 1 <= i < |polls| ==> polls[i] == polls[1..][i - 1];
      assert forall i :: 0 <= i < |polls| - 1 ==> polls[1..][i] == polls[i + 1];
    }
  }

  /** The store takes the report: the launch was observed before, or marking it works or meets a conflict. */
  predicate MarkWorks(p: Poll, observed: bool) {
    observed || p.mark.Marked? || (p.mark.Conflict? && p.mark.attempt.Some?)
  }

  /** Effects and outcome of a single poll by what it meets; `seen` tells whether the launch was observed. */
  ghost predicate PollDoes(a: Attempt, seen: bool, p: Poll, effects: seq<Effect>, outcome: Outcome) {
    var stop := p.stop == Some(true);
    var report := p.stop == Some(false) && p.status.Known?;
    var final := report && MarkWorks(p, seen) && Terminal(StatusText(p.status.runtime));
    var missing := p.stop == Some(false) && p.status.NotFound?;
    // the agent is stopped on a stop request, and before everything else
    && (StopAgent in effects <==> stop)
    && (stop ==> effects == [StopAgent, Revoke, Finish(None, a.providerRef, Some(CANCELLED))])
    // the first reports mark the launch, before everything else
    && (MarkRunning in effects <==> report && !seen)
    && (report && !seen ==> effects[0] == MarkRunning)
    // revoking is tried on every decisive poll, finishing only after that, and on success only if it worked
    && (Revoke in effects <==> stop || missing || final)
    && (AsksToFinish(effects) <==> stop || missing || (final && p.revoked))
    && (AsksToFinish(effects) ==> FinishesOnce(effects, Verdict(a, p)))
    // what the loop does next
    && (outcome == Running <==>
          p.stop == Some(false)
          && (p.status.Unreachable?
              || (report && MarkWorks(p, seen) && !Terminal(StatusText(p.status.runtime)))))
    && (outcome == Returned <==> AsksToFinish(effects) && p.finished)
  }

  ghost predicate AsksToFinish(effects: seq<Effect>) {
    exists i :: 0 <= i < |effects| && effects[i].Finish?
  }

  lemma StepDoes(a: Attempt, seen: bool, p: Poll)
    ensures var (effects, next) := Step(a, seen, p);
            PollDoes(a, seen, p, effects, if next.End? then next.outcome else Running)
  {
    var (effects, next) := Step(a, seen, p);
    if p.stop == Some(true) || (p.stop == Some(false) && p.status.NotFound?) {
      assert effects[|effects| - 1].Finish?;
      StepFinishes(a, seen, p);
    } else if p.stop == Some(false) && p.status.Known? && MarkWorks(p, seen)
              && Terminal(StatusText(p.status.runtime)) {
      if p.revoked {
        assert effects[|effects| - 1].Finish?;
        StepFinishes(a, seen, p);
      }
    }
  }

  lemma StepFinishes(a: Attempt, seen: bool, p: Poll)
    requires var effects := Step(a, seen, p).0; effects != [] && effects[|effects| - 1].Finish?
    ensures FinishesOnce(Step(a, seen, p).0, Verdict(a, p))
  {
    var effects := Step(a, seen, p).0;
    assert effects[..|effects| - 2] == if p.stop == Some(true) then [StopAgent]
                                       else if p.status.Known? then MarkEffects(seen) else [];
  }

  /**
   Every poll that the loop reaches adds to the trace what its own replies call for, and nothing else,
   and decides accordingly whether the loop goes on.
   */
  lemma PollMeaning(a: Attempt, observed: bool, polls: seq<Poll>, d: nat)
    requires d < |polls| && Reached(a, observed, polls, d)
    ensures var before := Trace(a, observed, polls[..d]).0;
            var after := Trace(a, observed, polls[..d + 1]);
            var seen := observed || exists i :: 0 <= i < d && Confirms(polls[i]);
            && before <= after.0
            && PollDoes(a, seen, polls[d], after.0[|before|..], after.1)
            && (after.1 != Running ==> Trace(a, observed, polls) == after)
  {
    hide Step, PollDoes, Confirms;
    var first := polls[..d];
    assert polls[..d + 1][..d] == first && polls[..d + 1][d..] == [polls[d]];
    TraceSplits(a, observed, polls[..d + 1], d);
    FlagMeaning(a, observed, first);
    assert forall i :: 0 <= i < d ==> first[i] == polls[i];
    StepDoes(a, FlagAfter(a, observed, first), polls[d]);
    OneStep(a, FlagAfter(a, observed, first), polls[d]);
    TraceSplits(a, observed, polls, d + 1);
  }

  lemma OneStep(a: Attempt, observed: bool, p: Poll)
    ensures var (effects, next) := Step(a, observed, p);
            Trace(a, observed, [p]) == (effects, if next.End? then next.outcome else Running)
  {
    hide Step;
    var (effects, next) := Step(a, observed, p);
    assert [p][1..] == [];
    assert effects + [] == effects;
  }

  lemma {:induction false} NoStopWhileRunning(a: Attempt, observed: bool, polls: seq<Poll>)
    requires Trace(a, observed, polls).1 == Running
    ensures StopAgent !in Trace(a, observed, polls).0
    decreases |polls|
  {
    if polls != [] {
      var (effects, next) := Step(a, observed, polls[0]);
      assert StopAgent !in effects;
      hide Step;
      NoStopWhileRunning(a, next.observed, polls[1..]);
    }
  }

  /** The loop ends in poll `d`. */
  predicate EndsAt(a: Attempt, observed: bool, polls: seq<Poll>, d: nat) {
    d < |polls| && Reached(a, observed, polls, d) && !Reached(a, observed, polls, d + 1)
  }

  /** The agent is stopped once, right before the last revoke and finish. */
  ghost predicate StopsOnce(a: Attempt, effects: seq<Effect>) {
    var n := |effects| - 3;
    n >= 0 && effects[n..] == [StopAgent, Revoke, Finish(None, a.providerRef, Some(CANCELLED))]
    && StopAgent !in effects[..n]
  }

  /** The agent is stopped exactly when the poll that ends the loop has a stop request, and then once. */
  lemma StopsAgentIff(a: Attempt, observed: bool, polls: seq<Poll>, d: nat)
    requires EndsAt(a, observed, polls, d)
    ensures var effects := Trace(a, observed, polls).0;
            if polls[d].stop == Some(true) then StopsOnce(a, effects) else StopAgent !in effects
  {
    hide Trace, Verdict, FinishesOnce;
    PollMeaning(a, observed, polls, d);
    NoStopWhileRunning(a, observed, polls[..d]);
    var before := Trace(a, observed, polls[..d]).0;
    var effects := Trace(a, observed, polls).0;
    assert effects == before + effects[|before|..];
    if polls[d].stop == Some(true) {
      assert |effects| - 3 == |before| && effects[..|before|] == before;
    }
  }

  // ---------------------------------------------------------------- what a final report records

  /**
   The session reference known before wins over the one in the output. A failure is described by the
   agent's own error, else by the start of what it wrote to stderr, else by its status.
   */
  lemma FinishMeaning(a: Attempt, p: Poll)
    requires p.stop == Some(false) && p.status.Known?
    ensures var r, v := p.status.runtime, Verdict(a, p); var tag := a.adapter + ": ";
            && v.exitCode == r.exitCode
            && (a.providerRef.Some? ==> v.providerRef == a.providerRef)
            && (a.providerRef.None? ==> v.providerRef == r.sessionRef)
            && (v.error.Some? && r.agentError.Some? ==> v.error.value == tag + r.agentError.value)
            && (v.error.Some? && r.agentError.None? && r.stderr != "" ==>
                  exists shown: string :: v.error.value == tag + shown && shown <= r.stderr
                                          && |shown| == (if |r.stderr| < 2000 then |r.stderr| else 2000))
            && (v.error.Some? && r.agentError.None? && r.stderr == "" ==>
                  v.error.value == "remote runtime ended with status " + StatusText(r))
  {
    var shown := Clip(p.status.runtime.stderr, 2000);
    assert shown <= p.status.runtime.stderr;
  }

  // ---------------------------------------------------------------- transient failures

  predicate Transient(p: Poll) {
    p.stop == Some(false) && p.status.Unreachable?
  }

  function WithoutTransients(polls: seq<Poll>): seq<Poll> {
    if polls == [] then []
    else (if Transient(polls[0]) then [] else [polls[0]]) + WithoutTransients(polls[1..])
  }

  /** Polls that find the runtime unreachable write nothing and change nothing that follows. */
  lemma {:induction false} TransientsAreInvisible(a: Attempt, observed: bool, polls: seq<Poll>)
    ensures Trace(a, observed, WithoutTransients(polls)) == Trace(a, observed, polls)
    decreases |polls|
  {
    if polls != [] {
      var p := polls[0];
      var rest := WithoutTransients(polls[1..]);
      var (effects, next) := Step(a, observed, p);
      if Transient(p) {
        TransientsAreInvisible(a, observed, polls[1..]);
        assert WithoutTransients(polls) == rest;
        assert effects + Trace(a, observed, polls[1..]).0 == Trace(a, observed, polls[1..]).0;
      } else {
        assert WithoutTransients(polls)[0] == p && WithoutTransients(polls)[1..] == rest;
        if next.Continue? {
          TransientsAreInvisible(a, next.observed, polls[1..]);
        }
      }
    }
  }

  // ---------------------------------------------------------------- restarts

  /** What polls see over time. */
  type World = nat -> Poll

  /** Stop requests are not withdrawn, and a final state of the runtime stays what it is. */
  ghost predicate Sticky(w: World) {
    forall s: nat, t: nat :: s <= t ==> StickyPair(w(s), w(t))
  }

  predicate StickyPair(early: Poll, late: Poll) {
    && (early.stop == Some(true) ==> late.stop == Some(true))
    && (early.status.NotFound? ==> late.status.NotFound? || late.status.Unreachable?)
    && (early.status.Known? && Terminal(StatusText(early.status.runtime)) ==>
          late.status == early.status || late.status.Unreachable?)
  }

  /** The polls of a monitor that starts at `from` and is watched until `until`. */
  function Window(w: World, from: nat, until: nat): (polls: seq<Poll>)
    requires from <= until
    ensures |polls| == until - from && forall i :: 0 <= i < |polls| ==> polls[i] == w(from + i)
  {
    seq(until - from, i requires 0 <= i < until - from => w(from + i))
  }

  /** Exit code and error last recorded by a trace. */
  function Recorded(effects: seq<Effect>): (Option<int>, Option<string>) {
    if effects == [] then (None, None)
    else
      var last := effects[|effects| - 1];
      if last.Finish? then (last.exitCode, last.error) else (None, None)
  }

  lemma {:induction false} NoColon(s: string, i: nat)
    requires i < |CANCELLED|
    ensures CANCELLED[i] != ':'
  {
    assert CANCELLED
        == ['r', 'u', 'n', '_', 'c', 'a', 'n', 'c', 'e', 'l', '_', 'r', 'e', 'q', 'u', 'e', 's', 't', 'e', 'd'];
  }

  /** No other verdict carries the text of a cancellation. */
  lemma CancelledIsDistinct(a: Attempt, p: Poll)
    requires Decisive(p) && p.stop == Some(false)
    ensures Verdict(a, p).error != Some(CANCELLED)
  {
    if p.status.NotFound? {
      assert MissingMessage(a)[0] == 'm';
    } else {
      var r := p.status.runtime;
      var prefix := a.adapter + ": ";
      assert prefix[|a.adapter|] == ':';
      if !Success(r) && (r.agentError.Some? || r.stderr != "") {
        var text := FinishError(a, r).value;
        assert text[|a.adapter|] == ':';
        if text == CANCELLED {
          NoColon(text, |a.adapter|);
        }
      } else if !Success(r) {
        assert FinishError(a, r).value[1] == 'e';
        assert CANCELLED[1] == 'u';
      }
    }
  }

  lemma RecordedVerdict(effects: seq<Effect>, a: Attempt, p: Poll)
    requires FinishesOnce(effects, Verdict(a, p))
    ensures Recorded(effects) == (Verdict(a, p).exitCode, Verdict(a, p).error)
  {
  }

  /** A later decisive poll of the same runtime gives the same result unless a stop came in between. */
  lemma VerdictsAgreeIff(a: Attempt, recovered: Attempt, early: Poll, late: Poll)
    requires recovered == a.(providerRef := recovered.providerRef)
    requires Decisive(early) && Decisive(late) && StickyPair(early, late)
    ensures (Verdict(recovered, late).exitCode == Verdict(a, early).exitCode
             && Verdict(recovered, late).error == Verdict(a, early).error)
            <==> early.stop == late.stop
  {
    if early.stop == Some(false) {
      CancelledIsDistinct(a, early);
    }
  }

  /**
   The server stops at any time before the first monitor would have finished and restarts later
   with whatever running flag and session reference the store then holds. The recovered monitor
   records the same exit code and error as the uninterrupted one exactly when no stop request has
   come in between their decisive polls.
   */
  lemma CrashTransparentIff(
    a: Attempt, recovered: Attempt, w: World, running: bool, running': bool,
    until: nat, crash: nat, restart: nat, until': nat)
    requires Sticky(w) && forall t: nat :: Healthy(w(t))
    requires recovered == a.(providerRef := recovered.providerRef)
    requires Trace(a, running, Window(w, 0, until)).1 == Returned
    requires crash <= until && crash <= restart <= until'
    requires Trace(a, running, Window(w, 0, crash)).1 == Running
    requires Trace(recovered, running', Window(w, restart, until')).1 == Returned
    ensures exists d: nat, d': nat ::
              && d < until && restart <= d' < until'
              && FirstDecisive(Window(w, 0, until), d) && FirstDecisive(Window(w, restart, until'), d' - restart)
              && (Recorded(Trace(recovered, running', Window(w, restart, until')).0)
                  == Recorded(Trace(a, running, Window(w, 0, until)).0)
                  <==> w(d).stop == w(d').stop)
  {
    hide Trace, Verdict, FinishesOnce, Recorded, StickyPair;
    var whole := Window(w, 0, until);
    var later := Window(w, restart, until');
    var d := ReturnsAtFirstDecisive(a, running, whole);
    var k := ReturnsAtFirstDecisive(recovered, running', later);
    var d' := restart + k;
    RecordedVerdict(Trace(a, running, whole).0, a, w(d));
    RecordedVerdict(Trace(recovered, running', later).0, recovered, w(d'));
    // The first monitor was still running at the crash, so the crash is not after `d`.
    assert forall j :: 0 <= j < crash ==> Window(w, 0, crash)[j] == whole[j];
    HealthyRunDecides(a, running, Window(w, 0, crash));
    assert crash <= d;
    // A recovered monitor that starts before `d` does not decide before it either.
    assert forall j :: 0 <= j < d ==> whole[j] == w(j) && !Decisive(w(j));
    assert StickyPair(w(d), w(d'));
    VerdictsAgreeIff(a, recovered, w(d), w(d'));
  }

  /** A runtime that has succeeded, and a stop request that arrives after the first poll. */
  function LateStop(): World {
    (t: nat) => Poll(Some(t > 0), Known(Runtime(Some("succeeded"), Some(0), None, None, "")), Marked, true, true)
  }

  /**
   A crash between the two polls shows: the uninterrupted monitor records success at the first,
   the recovered one a cancellation at the second.
   */
  lemma CrashCanShow(a: Attempt)
    ensures Sticky(LateStop()) && forall t: nat :: Healthy(LateStop()(t))
    ensures var whole := Trace(a, true, Window(LateStop(), 0, 1));
            var later := Trace(a, true, Window(LateStop(), 1, 2));
            && whole.1 == Returned && Recorded(whole.0) == (Some(0), None)
            && later.1 == Returned && Recorded(later.0) == (None, Some(CANCELLED))
  {
    var w := LateStop();
    assert Window(w, 0, 1) == [w(0)] && Window(w, 1, 2) == [w(1)];
    forall s: nat, t: nat | s <= t
      ensures StickyPair(w(s), w(t))
    {
    }
    OnePoll(a, w(0));
    OnePoll(a, w(1));
    assert FinishError(a, w(0).status.runtime) == None;
  }

  /** A monitor that decides in its only poll. */
  lemma OnePoll(a: Attempt, p: Poll)
    requires Decisive(p) && Healthy(p)
    ensures Trace(a, true, [p]).1 == Returned
    ensures Recorded(Trace(a, true, [p]).0) == (Verdict(a, p).exitCode, Verdict(a, p).error)
  {
  }
}
