/**
 The supersession graph: every entry names at most one entry it replaces. `LineageRoot` walks
 from an entry to the parentless revision that names its document.
 */
module Lineage {
  import opened Prelude
  import opened Memory

  /** Entries by id. */
  type Index = g: map<Uuid, Entry> | forall id :: id in g ==> g[id].id == id

  datatype LineageError = Cycle | Incomplete | CrossScope

  predicate Listed(g: Index, e: Entry) {
    e.id in g && g[e.id] == e
  }

  /** The entry reached after `n` supersession links, if the index holds the whole way. */
  function Up(g: Index, e: Entry, n: nat): Option<Entry>
    decreases n
  {
    if n == 0 then Some(e)
    else match e.supersedes
      case None => None
      case Some(parent) => if parent in g then Up(g, g[parent], n - 1) else None
  }

  lemma {:induction false} UpPlus(g: Index, e: Entry, m: nat, n: nat)
    ensures Up(g, e, m + n) == (match Up(g, e, m) case None => None case Some(x) => Up(g, x, n))
    decreases m
  {
    if m != 0 && e.supersedes.Some? && e.supersedes.value in g {
      UpPlus(g, g[e.supersedes.value], m - 1, n);
    }
  }

  lemma {:induction false} UpListed(g: Index, e: Entry, n: nat)
    requires Listed(g, e)
    ensures Up(g, e, n).Some? ==> Listed(g, Up(g, e, n).value)
    decreases n
  {
    if n != 0 && e.supersedes.Some? && e.supersedes.value in g {
      UpListed(g, g[e.supersedes.value], n - 1);
    }
  }

  /** One more link from the end of a chain. */
  lemma UpNext(g: Index, e: Entry, n: nat)
    ensures Up(g, e, n + 1).Some? ==> Up(g, e, n).Some?
    ensures Up(g, e, n).Some? ==>
              var x := Up(g, e, n).value;
              Up(g, e, n + 1) == (if x.supersedes.Some? && x.supersedes.value in g
                                  then Some(g[x.supersedes.value]) else None)
  {
    UpPlus(g, e, n, 1);
    if Up(g, e, n).Some? {
      var x := Up(g, e, n).value;
      if x.supersedes.Some? && x.supersedes.value in g {
        assert Up(g, g[x.supersedes.value], 0) == Some(g[x.supersedes.value]);
      }
    }
  }

  lemma {:induction false} UpPrefix(g: Index, e: Entry, m: nat, n: nat)
    requires m <= n && Up(g, e, n).Some?
    ensures Up(g, e, m).Some?
  {
    UpPlus(g, e, m, n - m);
  }

  // ---------------------------------------------------------------- the walk

  /** What the loop of `LineageRoot` still computes from `current` with ids `seen`. */
  function Walk(g: Index, entry: Entry, current: Entry, seen: set<Uuid>): Result<Uuid, LineageError>
    decreases if current.id in g then 0 else 1, |g.Keys - seen|
  {
    match current.supersedes
    case None => Ok(current.id)
    case Some(parent) =>
      if current.id in seen then Err(Cycle)
      else if parent !in g then Err(Incomplete)
      else if !SameScope(g[parent], entry) then Err(CrossScope)
      else
        assert current.id in g ==> g.Keys - (seen + {current.id}) < g.Keys - seen by {
          if current.id in g {
            assert current.id in g.Keys - seen;
          }
        }
        Fewer(g.Keys - (seen + {current.id}), g.Keys - seen);
        Walk(g, entry, g[parent], seen + {current.id})
  }

  lemma Fewer(a: set<Uuid>, b: set<Uuid>)
    ensures a < b ==> |a| < |b|
  {
    if a < b { SubsetCardinality(a, b); }
  }

  function RootOf(g: Index, entry: Entry): Result<Uuid, LineageError> {
    Walk(g, entry, entry, {})
  }

  /** The loop itself: it stops on every graph, cyclic ones included. */
  method LineageRoot(entry: Entry, byId: Index) returns (r: Result<Uuid, LineageError>)
    ensures r == RootOf(byId, entry)
  {
    var current := entry;
    var seen: set<Uuid> := {};
    while current.supersedes.Some?
      invariant Walk(byId, entry, current, seen) == RootOf(byId, entry)
      decreases if current.id in byId then 0 else 1, |byId.Keys - seen|
    {
      var parent := current.supersedes.value;
      if current.id in seen {
        return Err(Cycle);
      }
      ghost var before := seen;
      seen := seen + {current.id};
      if parent !in byId {
        return Err(Incomplete);
      }
      if current.id in byId {
        assert current.id in byId.Keys - before;
        Fewer(byId.Keys - seen, byId.Keys - before);
      }
      current := byId[parent];
      if current.scope != entry.scope || current.project != entry.project {
        return Err(CrossScope);
      }
    }
    return Ok(current.id);
  }

  // ---------------------------------------------------------------- what the outcomes mean

  /** The first `n` ancestors exist and share the scope of `e`. */
  ghost predicate ScopedTo(g: Index, e: Entry, n: nat) {
    forall i: nat :: i <= n ==> Up(g, e, i).Some? && SameScope(Up(g, e, i).value, e)
  }

  ghost predicate ReachesRoot(g: Index, e: Entry, n: nat, root: Uuid) {
    ScopedTo(g, e, n) && Up(g, e, n).value.supersedes.None? && Up(g, e, n).value.id == root
  }

  ghost predicate MissesParent(g: Index, e: Entry, n: nat) {
    ScopedTo(g, e, n)
    && Up(g, e, n).value.supersedes.Some?
    && Up(g, e, n).value.supersedes.value !in g
  }

  ghost predicate LeavesScope(g: Index, e: Entry, n: nat) {
    n > 0 && ScopedTo(g, e, n - 1) && Up(g, e, n).Some? && !SameScope(Up(g, e, n).value, e)
  }

  /** The chain comes back to an entry it has passed. */
  ghost predicate Loops(g: Index, e: Entry, i: nat, j: nat) {
    i < j && ScopedTo(g, e, j) && Up(g, e, i) == Up(g, e, j)
  }

  ghost predicate Outcome(g: Index, e: Entry, r: Result<Uuid, LineageError>) {
    match r
    case Ok(root) => exists n :: ReachesRoot(g, e, n, root)
    case Err(Incomplete) => exists n :: MissesParent(g, e, n)
    case Err(CrossScope) => exists n :: LeavesScope(g, e, n)
    case Err(Cycle) => exists i: nat, j: nat :: Loops(g, e, i, j)
  }

  /** `seen` holds the ids of the first `n` entries of the chain. */
  ghost predicate SeenBelow(g: Index, e: Entry, n: nat, seen: set<Uuid>)
    requires ScopedTo(g, e, n)
  {
    && (forall i: nat :: i < n ==> Up(g, e, i).value.id in seen)
    && (forall id :: id in seen ==> exists i: nat :: i < n && Up(g, e, i).value.id == id)
  }

  /** An id seen before closes a loop. */
  lemma SeenLoops(g: Index, e: Entry, current: Entry, seen: set<Uuid>, n: nat)
    requires Listed(g, e) && ScopedTo(g, e, n) && Up(g, e, n) == Some(current)
    requires SeenBelow(g, e, n, seen) && current.id in seen
    ensures exists i: nat :: Loops(g, e, i, n)
  {
    var i: nat :| i < n && Up(g, e, i).value.id == current.id;
    UpListed(g, e, i);
    UpListed(g, e, n);
    assert Loops(g, e, i, n);
  }

  /** One link further inside the scope. */
  lemma SeenNext(g: Index, e: Entry, current: Entry, seen: set<Uuid>, n: nat)
    requires ScopedTo(g, e, n) && Up(g, e, n) == Some(current) && SeenBelow(g, e, n, seen)
    requires Up(g, e, n + 1).Some? && SameScope(Up(g, e, n + 1).value, e)
    ensures ScopedTo(g, e, n + 1) && SeenBelow(g, e, n + 1, seen + {current.id})
  {
    hide Up;
  }

  lemma {:induction false} WalkOutcome(g: Index, e: Entry, current: Entry, seen: set<Uuid>, n: nat)
    requires Listed(g, e)
    requires ScopedTo(g, e, n) && Up(g, e, n) == Some(current)
    requires SeenBelow(g, e, n, seen)
    ensures Outcome(g, e, Walk(g, e, current, seen))
    decreases if current.id in g then 0 else 1, |g.Keys - seen|
  {
    if current.supersedes.None? {
      assert ReachesRoot(g, e, n, current.id);
    } else if current.id in seen {
      SeenLoops(g, e, current, seen, n);
    } else if current.supersedes.value !in g {
      assert MissesParent(g, e, n);
    } else {
      var parent := g[current.supersedes.value];
      UpNext(g, e, n);
      if !SameScope(parent, e) {
        assert LeavesScope(g, e, n + 1);
      } else {
        var grown := seen + {current.id};
        SeenNext(g, e, current, seen, n);
        if current.id in g {
          assert current.id in g.Keys - seen;
          Fewer(g.Keys - grown, g.Keys - seen);
        }
        WalkOutcome(g, e, parent, grown, n + 1);
      }
    }
  }

  /** A chain that comes back to itself never ends and never leaves the scope. */
  lemma {:induction false} LoopForever(g: Index, e: Entry, i: nat, j: nat, k: nat)
    requires Loops(g, e, i, j)
    ensures Up(g, e, k).Some? && SameScope(Up(g, e, k).value, e)
    decreases k
  {
    if k > j {
      var shorter := k - (j - i);
      LoopForever(g, e, i, j, shorter);
      UpPlus(g, e, j, k - j);
      UpPlus(g, e, i, k - j);
      assert i + (k - j) == shorter;
    }
  }

  /** At most one of the four outcomes describes an entry. */
  lemma OutcomeIsUnique(g: Index, e: Entry, r: Result<Uuid, LineageError>, s: Result<Uuid, LineageError>)
    requires Listed(g, e) && Outcome(g, e, r) && Outcome(g, e, s)
    ensures r == s
  {
    if r == Err(Cycle) && s != Err(Cycle) {
      LoopExcludesRest(g, e, s);
    } else if s == Err(Cycle) && r != Err(Cycle) {
      LoopExcludesRest(g, e, r);
    } else if r != Err(Cycle) {
      var m := Last(g, e, r);
      var n := Last(g, e, s);
      UpNext(g, e, m);
      UpNext(g, e, n);
    }
  }

  /** The last link inside the scope, for the three outcomes that end the chain. */
  ghost function Last(g: Index, e: Entry, r: Result<Uuid, LineageError>): (n: nat)
    requires Outcome(g, e, r) && r != Err(Cycle)
    ensures ScopedTo(g, e, n)
    ensures match r
            case Ok(root) => ReachesRoot(g, e, n, root)
            case Err(Incomplete) => MissesParent(g, e, n)
            case Err(CrossScope) => LeavesScope(g, e, n + 1)
            case Err(Cycle) => true
  {
    if r.Ok? then var n: nat :| ReachesRoot(g, e, n, r.value); n
    else if r.error == Incomplete then var n: nat :| MissesParent(g, e, n); n
    else var n: nat :| LeavesScope(g, e, n); n - 1
  }

  lemma LoopExcludesRest(g: Index, e: Entry, s: Result<Uuid, LineageError>)
    requires Outcome(g, e, Err(Cycle)) && s != Err(Cycle)
    ensures !Outcome(g, e, s)
  {
    var i: nat, j: nat :| Loops(g, e, i, j);
    if Outcome(g, e, s) {
      var n := Last(g, e, s);
      LoopForever(g, e, i, j, n + 1);
      UpNext(g, e, n);
    }
  }

  /**
   The walk answers Ok exactly when the entry has a parentless ancestor and the way to it stays in
   the index and in one scope; that ancestor is then unique. Otherwise it reports which one of the
   three obstacles the chain meets.
   */
  lemma LineageRootMeaning(g: Index, e: Entry)
    requires Listed(g, e)
    ensures RootOf(g, e).Ok? <==> exists n, root :: ReachesRoot(g, e, n, root)
    ensures forall n, root :: ReachesRoot(g, e, n, root) ==> RootOf(g, e) == Ok(root)
    ensures RootOf(g, e) == Err(Incomplete) <==> exists n :: MissesParent(g, e, n)
    ensures RootOf(g, e) == Err(CrossScope) <==> exists n :: LeavesScope(g, e, n)
    ensures RootOf(g, e) == Err(Cycle) <==> exists i: nat, j: nat :: Loops(g, e, i, j)
  {
    var r := RootOf(g, e);
    WalkOutcome(g, e, e, {}, 0);
    forall n, root | ReachesRoot(g, e, n, root)
      ensures r == Ok(root)
    {
      assert Outcome(g, e, Ok(root));
      OutcomeIsUnique(g, e, r, Ok(root));
    }
    if exists n :: MissesParent(g, e, n) { OutcomeIsUnique(g, e, r, Err(Incomplete)); }
    if exists n :: LeavesScope(g, e, n) { OutcomeIsUnique(g, e, r, Err(CrossScope)); }
    if exists i: nat, j: nat :: Loops(g, e, i, j) { OutcomeIsUnique(g, e, r, Err(Cycle)); }
  }

  // ---------------------------------------------------------------- well-formed graphs

  ghost predicate Complete(g: Index) {
    forall id :: id in g && g[id].supersedes.Some? ==> g[id].supersedes.value in g
  }

  ghost predicate ScopeConsistent(g: Index) {
    forall id :: id in g && g[id].supersedes.Some? && g[id].supersedes.value in g ==>
      SameScope(g[g[id].supersedes.value], g[id])
  }

  /** No entry is its own proper ancestor. */
  ghost predicate Acyclic(g: Index) {
    forall id, n: nat :: id in g && n > 0 ==> Up(g, g[id], n) != Some(g[id])
  }

  ghost predicate Sound(g: Index) {
    Complete(g) && ScopeConsistent(g) && Acyclic(g)
  }

  /** No two entries replace the same one. */
  ghost predicate NoFork(g: Index) {
    forall a, b :: a in g && b in g && g[a].supersedes.Some? && g[a].supersedes == g[b].supersedes ==> a == b
  }

  lemma {:induction false} ChainKeepsScope(g: Index, e: Entry, n: nat)
    requires Listed(g, e) && ScopeConsistent(g)
    ensures Up(g, e, n).Some? ==> SameScope(Up(g, e, n).value, e)
    decreases n
  {
    if n != 0 && e.supersedes.Some? && e.supersedes.value in g {
      ChainKeepsScope(g, g[e.supersedes.value], n - 1);
    }
  }

  /** In a complete, scope-consistent, acyclic graph every entry has a root. */
  lemma SoundHasRoot(g: Index, e: Entry) returns (n: nat)
    requires Sound(g) && Listed(g, e)
    ensures RootOf(g, e).Ok?
    ensures ReachesRoot(g, e, n, RootOf(g, e).value)
    ensures RootOf(g, e).value in g && g[RootOf(g, e).value].supersedes.None?
    ensures Up(g, e, n) == Some(g[RootOf(g, e).value])
  {
    LineageRootMeaning(g, e);
    match RootOf(g, e) {
      case Ok(root) =>
        var k, w :| ReachesRoot(g, e, k, w);
        n := k;
        UpListed(g, e, n);
      case Err(Incomplete) =>
        var k :| MissesParent(g, e, k);
        UpListed(g, e, k);
        assert false;
      case Err(CrossScope) =>
        var k :| LeavesScope(g, e, k);
        ChainKeepsScope(g, e, k);
        assert false;
      case Err(Cycle) =>
        var i: nat, j: nat :| Loops(g, e, i, j);
        UpListed(g, e, i);
        UpPlus(g, e, i, j - i);
        assert false;
    }
  }
}
