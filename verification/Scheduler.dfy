/** The dispatch scheduler: how often a role fires, and which launch profile an assignment gets. */
module Scheduler {
  import opened Prelude

  const SECOND: nat := 1_000_000_000
  const MAX_DISPATCHES: nat := 8

  datatype Setting = Setting(role: string, enabled: bool, intervalSeconds: int)

  datatype Dispatch = DispatchFailed | NothingToDo | Dispatched

  /**
   One look at a setting: the clock in nanoseconds when it is compared, the clock when the firing is
   written down, and what the store answers to dispatch calls.
   */
  datatype Visit = Visit(setting: Setting, checked: nat, written: nat, replies: nat -> Dispatch)

  datatype Firing = Firing(role: string, at: nat, calls: nat)

  /** A signed 64-bit number cast to unsigned. */
  function CastU64(n: int): int {
    if n >= 0 then n else n + 0x1_0000_0000_0000_0000
  }

  function Elapsed(last: nat, now: nat): nat {
    if now < last then 0 else (now - last) / SECOND
  }

  predicate Due(lastRun: map<string, nat>, v: Visit) {
    v.setting.role !in lastRun || Elapsed(lastRun[v.setting.role], v.checked) >= CastU64(v.setting.intervalSeconds)
  }

  /** Dispatch calls made from the `i`-th on: they go on while something is dispatched, up to eight in all. */
  function Calls(replies: nat -> Dispatch, i: nat): nat
    decreases MAX_DISPATCHES - i
  {
    if i >= MAX_DISPATCHES then 0
    else if replies(i).Dispatched? then 1 + Calls(replies, i + 1)
    else 1
  }

  function Firings(lastRun: map<string, nat>, visits: seq<Visit>): seq<Firing>
    decreases |visits|
  {
    if visits == [] then []
    else
      var v := visits[0];
      if v.setting.enabled && Due(lastRun, v) then
        [Firing(v.setting.role, v.written, Calls(v.replies, 0))]
        + Firings(lastRun[v.setting.role := v.written], visits[1..])
      else Firings(lastRun, visits[1..])
  }

  /** The looks of all ticks, in order; a tick whose settings could not be read has none. */
  function Flatten(ticks: seq<Option<seq<Visit>>>): seq<Visit> {
    if ticks == [] then []
    else Flatten(ticks[..|ticks| - 1]) + (if ticks[|ticks| - 1].Some? then ticks[|ticks| - 1].value else [])
  }

  /** Dispatching goes on as long as every call dispatches something, for at most eight calls. */
  ghost predicate Dispatches(replies: nat -> Dispatch, calls: nat) {
    && 1 <= calls <= 8
    && (forall i :: 0 <= i < calls - 1 ==> replies(i).Dispatched?)
    && (calls < 8 ==> !replies(calls - 1).Dispatched?)
  }

  method DispatchRole(replies: nat -> Dispatch) returns (calls: nat)
    ensures calls == Calls(replies, 0)
    ensures Dispatches(replies, calls)
  {
    CallsMeaning(replies, 0);
    calls := 0;
    for i := 0 to MAX_DISPATCHES
      invariant calls == i
      invariant Calls(replies, 0) == calls + Calls(replies, i)
    {
      calls := calls + 1;
      match replies(i) {
        case DispatchFailed => return;
        case NothingToDo => return;
        case Dispatched =>
      }
    }
  }

  lemma {:induction false} CallsMeaning(replies: nat -> Dispatch, i: nat)
    requires i < MAX_DISPATCHES
    ensures var n := i + Calls(replies, i);
            && i < n <= MAX_DISPATCHES
            && (forall k :: i <= k < n - 1 ==> replies(k).Dispatched?)
            && (n < MAX_DISPATCHES ==> !replies(n - 1).Dispatched?)
    decreases MAX_DISPATCHES - i
  {
    if replies(i).Dispatched? && i + 1 < MAX_DISPATCHES {
      CallsMeaning(replies, i + 1);
    }
  }

  /** The scheduler's loop over any number of ticks. */
  method SchedulerLoop(ticks: seq<Option<seq<Visit>>>) returns (fired: seq<Firing>)
    ensures fired == Firings(map[], Flatten(ticks))
  {
    var lastRun: map<string, nat> := map[];
    fired := [];
    for n := 0 to |ticks|
      invariant Goes(map[], Flatten(ticks[..n]), fired, lastRun)
    {
      assert ticks[..n + 1][..n] == ticks[..n];
      if ticks[n].None? {
        assert Flatten(ticks[..n + 1]) == Flatten(ticks[..n]);
        continue;
      }
      var visits := ticks[n].value;
      ghost var before := Flatten(ticks[..n]);
      assert before + visits[..0] == before;
      for i := 0 to |visits|
        invariant Goes(map[], before + visits[..i], fired, lastRun)
      {
        var v := visits[i];
        assert before + visits[..i + 1] == (before + visits[..i]) + [v];
        GoesOn(map[], before + visits[..i], fired, lastRun, v);
        if !v.setting.enabled || !Due(lastRun, v) {
          continue;
        }
        lastRun := lastRun[v.setting.role := v.written];
        var calls := DispatchRole(v.replies);
        fired := fired + [Firing(v.setting.role, v.written, calls)];
      }
      assert visits[..|visits|] == visits;
      assert Flatten(ticks[..n + 1]) == before + visits;
    }
    assert ticks[..|ticks|] == ticks;
  }

  /** The visits so far fired `fired` and left `lastRun`. */
  ghost predicate Goes(start: map<string, nat>, visits: seq<Visit>, fired: seq<Firing>, lastRun: map<string, nat>) {
    fired == Firings(start, visits) && lastRun == After(start, visits)
  }

  function After(lastRun: map<string, nat>, visits: seq<Visit>): map<string, nat>
    decreases |visits|
  {
    if visits == [] then lastRun
    else
      var v := visits[0];
      After(if v.setting.enabled && Due(lastRun, v) then lastRun[v.setting.role := v.written] else lastRun, visits[1..])
  }

  lemma {:induction false} GoesOn(
    start: map<string, nat>, visits: seq<Visit>, fired: seq<Firing>, lastRun: map<string, nat>, v: Visit)
    requires Goes(start, visits, fired, lastRun)
    ensures if v.setting.enabled && Due(lastRun, v)
            then Goes(start, visits + [v], fired + [Firing(v.setting.role, v.written, Calls(v.replies, 0))],
                      lastRun[v.setting.role := v.written])
            else Goes(start, visits + [v], fired, lastRun)
    decreases |visits|
  {
    if visits == [] {
      assert (visits + [v])[1..] == [];
    } else {
      assert (visits + [v])[1..] == visits[1..] + [v];
      var first := visits[0];
      if first.setting.enabled && Due(start, first) {
        GoesOn(start[first.setting.role := first.written], visits[1..], fired[1..], lastRun, v);
        assert fired == [fired[0]] + fired[1..];
      } else {
        GoesOn(start, visits[1..], fired, lastRun, v);
      }
    }
  }

  /** What a tick with readable settings adds to the looks, and that others add none. */
  lemma FlattenAt(ticks: seq<Option<seq<Visit>>>, n: nat, i: nat)
    requires n < |ticks| && ticks[n].Some? && i < |ticks[n].value|
    ensures var before := |Flatten(ticks[..n])|;
            before + i < |Flatten(ticks)| && Flatten(ticks)[before + i] == ticks[n].value[i]
            && |Flatten(ticks[..n + 1])| == before + |ticks[n].value|
  {
    assert ticks[..n + 1][..n] == ticks[..n];
    FlattenPrefix(ticks, n + 1);
  }

  lemma {:induction false} FlattenPrefix(ticks: seq<Option<seq<Visit>>>, n: nat)
    requires n <= |ticks|
    ensures Flatten(ticks[..n]) <= Flatten(ticks)
    decreases |ticks| - n
  {
    if n == |ticks| {
      assert ticks[..n] == ticks;
    } else {
      assert ticks[..n + 1][..n] == ticks[..n];
      FlattenPrefix(ticks, n + 1);
    }
  }

  lemma FlattenNone(ticks: seq<Option<seq<Visit>>>, n: nat)
    requires n < |ticks| && ticks[n].None?
    ensures Flatten(ticks[..n + 1]) == Flatten(ticks[..n])
  {
    assert ticks[..n + 1][..n] == ticks[..n];
  }

  /** A look at an enabled setting that starts this firing. */
  ghost predicate Starts(v: Visit, f: Firing) {
    v.setting.enabled && f.role == v.setting.role && f.at == v.written && Dispatches(v.replies, f.calls)
  }

  /** Every firing starts in a look at an enabled setting and makes the calls that its replies lead to. */
  lemma {:induction false} FiringMeaning(lastRun: map<string, nat>, visits: seq<Visit>, k: nat) returns (i: nat)
    requires k < |Firings(lastRun, visits)|
    ensures i < |visits| && Starts(visits[i], Firings(lastRun, visits)[k])
    decreases |visits|
  {
    var v := visits[0];
    if v.setting.enabled && Due(lastRun, v) {
      if k == 0 {
        i := 0;
        CallsMeaning(v.replies, 0);
      } else {
        i := FiringMeaning(lastRun[v.setting.role := v.written], visits[1..], k - 1);
        i := i + 1;
      }
    } else {
      i := FiringMeaning(lastRun, visits[1..], k);
      i := i + 1;
    }
  }

  /** A role that has run and whose interval is negative does not fire again: the cast makes it huge. */
  lemma NegativeNeverDue(lastRun: map<string, nat>, v: Visit)
    requires v.setting.role in lastRun && -0x8000_0000_0000_0000 <= v.setting.intervalSeconds < 0
    requires v.checked < lastRun[v.setting.role] + 0x8000_0000_0000_0000 * SECOND
    ensures !Due(lastRun, v)
  {
  }

  // ---------------------------------------------------------------- rate

  /** The clock never goes back. */
  ghost predicate Timed(visits: seq<Visit>) {
    && (forall i :: 0 <= i < |visits| ==> visits[i].checked <= visits[i].written)
    && (forall i, j :: 0 <= i < j < |visits| ==> visits[i].written <= visits[j].checked)
  }

  ghost predicate FixedInterval(visits: seq<Visit>, role: string, interval: nat) {
    forall i :: 0 <= i < |visits| && visits[i].setting.role == role ==> visits[i].setting.intervalSeconds == interval
  }

  /** The firings of one role. */
  function Of(firings: seq<Firing>, role: string): seq<Firing> {
    if firings == [] then []
    else (if firings[0].role == role then [firings[0]] else []) + Of(firings[1..], role)
  }

  /** Successive firings are at least `interval` seconds apart, and the first is that far from `last`. */
  ghost predicate Spaced(firings: seq<Firing>, interval: nat, last: Option<nat>) {
    && (last.Some? && firings != [] ==> firings[0].at >= last.value + interval * SECOND)
    && (forall i :: 0 <= i < |firings| - 1 ==> firings[i + 1].at >= firings[i].at + interval * SECOND)
  }

  lemma ElapsedGap(last: nat, now: nat, interval: nat)
    requires last <= now && Elapsed(last, now) >= interval
    ensures now >= last + interval * SECOND
  {
  }

  lemma {:induction false} FiringsAreSpaced(lastRun: map<string, nat>, visits: seq<Visit>, role: string, interval: nat)
    requires Timed(visits) && FixedInterval(visits, role, interval)
    requires visits != [] && role in lastRun ==> lastRun[role] <= visits[0].checked
    ensures Spaced(Of(Firings(lastRun, visits), role), interval, if role in lastRun then Some(lastRun[role]) else None)
    decreases |visits|
  {
    if visits != [] {
      var v := visits[0];
      var rest := visits[1..];
      assert v.checked <= v.written;
      assert forall i :: 0 <= i < |rest| ==> rest[i] == visits[i + 1];
      if v.setting.enabled && Due(lastRun, v) {
        var next := lastRun[v.setting.role := v.written];
        assert rest != [] ==> v.written <= rest[0].checked;
        FiringsAreSpaced(next, rest, role, interval);
        var fired := Firings(lastRun, visits);
        assert fired[1..] == Firings(next, rest);
        if v.setting.role == role && role in lastRun {
          ElapsedGap(lastRun[role], v.checked, interval);
        }
      } else {
        assert rest != [] ==> visits[0].checked <= rest[0].checked;
        FiringsAreSpaced(lastRun, rest, role, interval);
      }
    }
  }

  lemma {:induction false} SpacedApart(firings: seq<Firing>, interval: nat, last: Option<nat>, i: nat, j: nat)
    requires Spaced(firings, interval, last) && i <= j < |firings|
    ensures firings[j].at >= firings[i].at + (j - i) * (interval * SECOND)
    decreases j
  {
    if i < j {
      SpacedApart(firings, interval, last, i, j - 1);
      var gap := interval * SECOND;
      assert (j - i) * gap == (j - 1 - i) * gap + gap;
    }
  }

  /** `n` gaps of `interval` seconds that fit into `window` seconds are at most `window / interval`. */
  lemma GapsFit(n: nat, interval: nat, window: nat)
    requires interval >= 1 && n * (interval * SECOND) <= window * SECOND
    ensures n <= window / interval
  {
    assert n * (interval * SECOND) == (n * interval) * SECOND;
    assert n * interval <= window;
    if n > window / interval {
      var q := window / interval;
      assert window == q * interval + window % interval;
      assert (q + 1) * interval == q * interval + interval;
      MulMono(q + 1, n, interval);
    }
  }

  lemma MulMono(a: nat, b: nat, k: nat)
    requires a <= b
    ensures a * k <= b * k
  {
  }

  lemma {:induction false} CallsBound(replies: nat -> Dispatch, i: nat)
    ensures Calls(replies, i) <= (if i < MAX_DISPATCHES then MAX_DISPATCHES - i else 0)
    decreases MAX_DISPATCHES - i
  {
    if i < MAX_DISPATCHES {
      CallsBound(replies, i + 1);
    }
  }

  function TotalCalls(firings: seq<Firing>): nat {
    if firings == [] then 0 else firings[0].calls + TotalCalls(firings[1..])
  }

  lemma {:induction false} FiringsCallFew(lastRun: map<string, nat>, visits: seq<Visit>)
    ensures forall i :: 0 <= i < |Firings(lastRun, visits)| ==> Firings(lastRun, visits)[i].calls <= MAX_DISPATCHES
    decreases |visits|
  {
    if visits != [] {
      var v := visits[0];
      CallsBound(v.replies, 0);
      FiringsCallFew(lastRun, visits[1..]);
      FiringsCallFew(lastRun[v.setting.role := v.written], visits[1..]);
    }
  }

  lemma {:induction false} OfKeeps(firings: seq<Firing>, role: string)
    requires forall i :: 0 <= i < |firings| ==> firings[i].calls <= MAX_DISPATCHES
    ensures forall i :: 0 <= i < |Of(firings, role)| ==>
              Of(firings, role)[i].calls <= MAX_DISPATCHES && Of(firings, role)[i].role == role
    decreases |firings|
  {
    if firings != [] {
      OfKeeps(firings[1..], role);
    }
  }

  lemma {:induction false} TotalBound(firings: seq<Firing>)
    requires forall i :: 0 <= i < |firings| ==> firings[i].calls <= MAX_DISPATCHES
    ensures TotalCalls(firings) <= MAX_DISPATCHES * |firings|
    decreases |firings|
  {
    if firings != [] {
      TotalBound(firings[1..]);
    }
  }

  /**
   For a role whose interval stays at `interval` seconds, at least one, any two firings of any run
   are at least that far apart, so a window of `window` seconds sees at most
   `window / interval + 1` of them and eight dispatch calls for each.
   */
  lemma RateBound(ticks: seq<Option<seq<Visit>>>, role: string, interval: nat, window: nat, i: nat, j: nat)
    requires Timed(Flatten(ticks)) && FixedInterval(Flatten(ticks), role, interval) && interval >= 1
    requires i <= j < |Of(Firings(map[], Flatten(ticks)), role)|
    ensures var fired := Of(Firings(map[], Flatten(ticks)), role);
            && fired[j].at >= fired[i].at + (j - i) * (interval * SECOND)
            && (fired[j].at <= fired[i].at + window * SECOND ==>
                  j - i + 1 <= window / interval + 1
                  && TotalCalls(fired[i..j + 1]) <= MAX_DISPATCHES * (window / interval + 1))
  {
    var all := Firings(map[], Flatten(ticks));
    var fired := Of(all, role);
    FiringsAreSpaced(map[], Flatten(ticks), role, interval);
    SpacedApart(fired, interval, None, i, j);
    if fired[j].at <= fired[i].at + window * SECOND {
      GapsFit(j - i, interval, window);
      FiringsCallFew(map[], Flatten(ticks));
      OfKeeps(all, role);
      TotalBound(fired[i..j + 1]);
      MulMono(j - i + 1, window / interval + 1, MAX_DISPATCHES);
    }
  }

  /** The time remembered for a role is that of one of its firings. */
  lemma {:induction false} RememberedFired(visits: seq<Visit>, role: string) returns (fired: seq<Firing>, k: nat)
    ensures Goes(map[], visits, fired, After(map[], visits))
    ensures role in After(map[], visits) ==>
              k < |fired| && fired[k].role == role && fired[k].at == After(map[], visits)[role]
    decreases |visits|
  {
    hide Due, Calls, Firings, After;
    if visits == [] {
      fired, k := [], 0;
      NothingFired();
    } else {
      var n := |visits| - 1;
      var v, before := visits[n], visits[..n];
      assert visits == before + [v];
      fired, k := RememberedFired(before, role);
      var last := After(map[], before);
      GoesOn(map[], before, fired, last, v);
      if v.setting.enabled && Due(last, v) {
        fired := fired + [Firing(v.setting.role, v.written, Calls(v.replies, 0))];
        k := if v.setting.role == role then |fired| - 1 else k;
      }
    }
  }

  lemma NothingFired()
    ensures Goes(map[], [], [], map[]) && After(map[], []) == map[]
  {
  }

  /**
   No enabled role is left waiting: after every look at it, it has fired in that look or less than
   its interval before.
   */
  lemma EnabledLookFires(visits: seq<Visit>, v: Visit)
    requires v.setting.enabled && v.setting.intervalSeconds >= 0
    ensures var fired := Firings(map[], visits + [v]);
            exists k :: 0 <= k < |fired| && fired[k].role == v.setting.role
                        && (fired[k].at == v.written || v.checked < fired[k].at + v.setting.intervalSeconds * SECOND)
  {
    hide Calls, Firings, After;
    var fired, k := RememberedFired(visits, v.setting.role);
    var last := After(map[], visits);
    GoesOn(map[], visits, fired, last, v);
    if Due(last, v) {
      var now := Firing(v.setting.role, v.written, Calls(v.replies, 0));
      assert Firings(map[], visits + [v])[|fired|] == now;
    } else {
      NotDue(last[v.setting.role], v);
      assert Firings(map[], visits + [v])[k].at == last[v.setting.role];
    }
  }

  lemma NotDue(last: nat, v: Visit)
    requires v.setting.intervalSeconds >= 0 && Elapsed(last, v.checked) < v.setting.intervalSeconds
    ensures v.checked < last + v.setting.intervalSeconds * SECOND
  {
  }

  // ---------------------------------------------------------------- launch profiles

  datatype Profile = Profile(id: Uuid, agent: Uuid, enabled: bool, isDefault: bool)

  function Filter(profiles: seq<Profile>, keep: Profile -> bool): seq<Profile> {
    if profiles == [] then []
    else (if keep(profiles[0]) then [profiles[0]] else []) + Filter(profiles[1..], keep)
  }

  predicate Usable(p: Profile, agent: Uuid) {
    p.enabled && p.agent == agent
  }

  function UsableBy(agent: Uuid): Profile -> bool {
    (p: Profile) => Usable(p, agent)
  }

  function MarkedDefault(): Profile -> bool {
    (p: Profile) => p.isDefault
  }

  function PreferredBy(agent: Uuid): Profile -> bool {
    (p: Profile) => Usable(p, agent) && p.isDefault
  }

  function Choose(profiles: seq<Profile>, agent: Uuid): Option<Uuid> {
    var usable := Filter(profiles, UsableBy(agent));
    var defaults := Filter(usable, MarkedDefault());
    if |defaults| == 1 then Some(defaults[0].id)
    else if defaults == [] && |usable| == 1 then Some(usable[0].id)
    else None
  }

  lemma {:induction false} FilterCounts(profiles: seq<Profile>, keep: Profile -> bool, p: Profile)
    ensures multiset(Filter(profiles, keep))[p] == if keep(p) then multiset(profiles)[p] else 0
    decreases |profiles|
  {
    if profiles != [] {
      FilterCounts(profiles[1..], keep, p);
      assert profiles == [profiles[0]] + profiles[1..];
    }
  }

  lemma FilterIgnoresOrder(a: seq<Profile>, b: seq<Profile>, keep: Profile -> bool)
    requires multiset(a) == multiset(b)
    ensures multiset(Filter(a, keep)) == multiset(Filter(b, keep))
  {
    forall p
      ensures multiset(Filter(a, keep))[p] == multiset(Filter(b, keep))[p]
    {
      FilterCounts(a, keep, p);
      FilterCounts(b, keep, p);
    }
  }

  /** Two lists that hold the same elements agree on an only element. */
  lemma SameOnly(a: seq<Profile>, b: seq<Profile>)
    requires multiset(a) == multiset(b)
    ensures |a| == |b| && (|a| == 1 ==> a == b)
  {
    assert |multiset(a)| == |a| && |multiset(b)| == |b|;
    if |a| == 1 {
      assert a[0] in multiset(a);
      assert a[0] in multiset(b);
    }
  }

  /** The choice does not depend on the order in which the store lists profiles. */
  lemma ChooseIgnoresOrder(profiles: seq<Profile>, shuffled: seq<Profile>, agent: Uuid)
    requires multiset(profiles) == multiset(shuffled)
    ensures Choose(profiles, agent) == Choose(shuffled, agent)
  {
    var a, b := Filter(profiles, UsableBy(agent)), Filter(shuffled, UsableBy(agent));
    FilterIgnoresOrder(profiles, shuffled, UsableBy(agent));
    FilterIgnoresOrder(a, b, MarkedDefault());
    SameOnly(a, b);
    SameOnly(Filter(a, MarkedDefault()), Filter(b, MarkedDefault()));
  }

  /** `i` is the only place whose profile is kept. */
  ghost predicate OnlyPlace(profiles: seq<Profile>, keep: Profile -> bool, i: nat) {
    i < |profiles| && keep(profiles[i]) && forall j :: 0 <= j < |profiles| && keep(profiles[j]) ==> j == i
  }

  ghost predicate NoPlace(profiles: seq<Profile>, keep: Profile -> bool) {
    forall j :: 0 <= j < |profiles| ==> !keep(profiles[j])
  }

  lemma {:induction false} FilterEmptyIff(profiles: seq<Profile>, keep: Profile -> bool)
    ensures Filter(profiles, keep) == [] <==> NoPlace(profiles, keep)
    decreases |profiles|
  {
    if profiles != [] {
      FilterEmptyIff(profiles[1..], keep);
      assert forall j :: 0 < j < |profiles| ==> profiles[j] == profiles[1..][j - 1];
    }
  }

  lemma {:induction false} FilterOnly(profiles: seq<Profile>, keep: Profile -> bool, i: nat)
    requires OnlyPlace(profiles, keep, i)
    ensures Filter(profiles, keep) == [profiles[i]]
    decreases |profiles|
  {
    var rest := profiles[1..];
    assert forall j :: 0 < j < |profiles| ==> profiles[j] == rest[j - 1];
    assert forall j :: 0 <= j < |rest| ==> rest[j] == profiles[j + 1];
    if i == 0 {
      FilterEmptyIff(rest, keep);
    } else {
      FilterOnly(rest, keep, i - 1);
    }
  }

  lemma {:induction false} OnlyFiltered(profiles: seq<Profile>, keep: Profile -> bool) returns (i: nat)
    requires |Filter(profiles, keep)| == 1
    ensures OnlyPlace(profiles, keep, i) && Filter(profiles, keep) == [profiles[i]]
    decreases |profiles|
  {
    var rest := profiles[1..];
    assert forall j :: 0 < j < |profiles| ==> profiles[j] == rest[j - 1];
    if keep(profiles[0]) {
      FilterEmptyIff(rest, keep);
      i := 0;
    } else {
      var k := OnlyFiltered(rest, keep);
      i := k + 1;
    }
  }

  lemma {:induction false} FilterTwice(
    profiles: seq<Profile>, first: Profile -> bool, second: Profile -> bool, both: Profile -> bool)
    requires forall p :: both(p) <==> first(p) && second(p)
    ensures Filter(Filter(profiles, first), second) == Filter(profiles, both)
    decreases |profiles|
  {
    if profiles != [] {
      FilterTwice(profiles[1..], first, second, both);
      var inner := Filter(profiles[1..], first);
      if first(profiles[0]) {
        assert Filter(profiles, first) == [profiles[0]] + inner;
        assert ([profiles[0]] + inner)[1..] == inner;
      } else {
        assert Filter(profiles, first) == inner;
      }
    }
  }

  /**
   A profile is chosen exactly when it is the only enabled default of the agent, or the agent has no
   enabled default and it is the only enabled profile.
   */
  lemma ChooseIff(profiles: seq<Profile>, agent: Uuid, id: Uuid)
    ensures var usable := UsableBy(agent); var preferred := PreferredBy(agent);
            Choose(profiles, agent) == Some(id) <==>
              (exists i: nat :: OnlyPlace(profiles, preferred, i) && profiles[i].id == id)
              || (NoPlace(profiles, preferred)
                  && exists i: nat :: OnlyPlace(profiles, usable, i) && profiles[i].id == id)
  {
    var usable := UsableBy(agent);
    var preferred := PreferredBy(agent);
    FilterTwice(profiles, usable, MarkedDefault(), preferred);
    FilterEmptyIff(profiles, preferred);
    if |Filter(profiles, preferred)| == 1 {
      var i := OnlyFiltered(profiles, preferred);
    }
    if |Filter(profiles, usable)| == 1 {
      var i := OnlyFiltered(profiles, usable);
    }
    forall i: nat | OnlyPlace(profiles, preferred, i)
      ensures Filter(profiles, preferred) == [profiles[i]]
    {
      FilterOnly(profiles, preferred, i);
    }
    forall i: nat | OnlyPlace(profiles, usable, i)
      ensures Filter(profiles, usable) == [profiles[i]]
    {
      FilterOnly(profiles, usable, i);
    }
  }
}
