/**
 Partition of a fetched listing into current documents, keyed by the root of their lineage, and
 retained history.
 */
module Checkout {
  import opened Prelude
  import opened Memory
  import opened Lineage

  /** Directories to write: `current/KEY` and `history/ID`. */
  datatype Plan = Plan(current: map<Uuid, Entry>, history: map<Uuid, Entry>)

  datatype CheckoutError = BadLineage(reason: LineageError) | Competing

  /** A listing with the two tables built from it before the partition. */
  datatype Listing = Listing(entries: seq<Entry>, index: Index, replaced: set<Uuid>)

  /** Entries by id; a later entry of the listing wins. */
  function ById(entries: seq<Entry>): Index {
    if entries == [] then map[]
    else
      var last := entries[|entries| - 1];
      ById(entries[..|entries| - 1])[last.id := last]
  }

  function Replaced(entries: seq<Entry>): set<Uuid> {
    set i | 0 <= i < |entries| && entries[i].supersedes.Some? :: entries[i].supersedes.value
  }

  function Read(entries: seq<Entry>): Listing {
    Listing(entries, ById(entries), Replaced(entries))
  }

  /** The tables say about the listing what they are meant to say. */
  ghost predicate Faithful(l: Listing) {
    && UniqueIds(l.entries)
    && (forall e :: e in l.entries <==> Listed(l.index, e))
    && (forall e :: e in l.entries && e.supersedes.Some? ==> e.supersedes.value in l.replaced)
    && (forall id :: id in l.replaced ==> exists e :: e in l.entries && e.supersedes == Some(id))
  }

  lemma {:induction false} ByIdListed(entries: seq<Entry>, e: Entry)
    requires UniqueIds(entries)
    ensures e in entries <==> Listed(ById(entries), e)
  {
    if entries != [] {
      var n := |entries| - 1;
      var rest := entries[..n];
      assert UniqueIds(rest);
      ByIdListed(rest, e);
      assert e in entries <==> e in rest || e == entries[n];
      if e in rest {
        var i :| 0 <= i < n && entries[i] == e;
        assert e.id != entries[n].id;
      }
    }
  }

  lemma ReadFaithful(entries: seq<Entry>)
    requires UniqueIds(entries)
    ensures Faithful(Read(entries))
  {
    forall e
      ensures e in entries <==> Listed(ById(entries), e)
    {
      ByIdListed(entries, e);
    }
    forall id | id in Replaced(entries)
      ensures exists e :: e in entries && e.supersedes == Some(id)
    {
      var i :| 0 <= i < |entries| && entries[i].supersedes.Some? && entries[i].supersedes.value == id;
      assert entries[i] in entries;
    }
  }

  /** The plan after the first `n` entries. */
  function PlanPrefix(l: Listing, history: bool, n: nat): Result<Plan, CheckoutError>
    requires n <= |l.entries|
  {
    if n == 0 then Ok(Plan(map[], map[]))
    else match PlanPrefix(l, history, n - 1)
      case Err(e) => Err(e)
      case Ok(p) => PlanEntry(l, history, p, l.entries[n - 1])
  }

  /** The effect of one entry. */
  function PlanEntry(l: Listing, history: bool, p: Plan, e: Entry): Result<Plan, CheckoutError> {
    if e.id in l.replaced then
      Ok(if history then p.(history := p.history[e.id := e]) else p)
    else match RootOf(l.index, e)
      case Err(reason) => Err(BadLineage(reason))
      case Ok(key) => if key in p.current then Err(Competing) else Ok(p.(current := p.current[key := e]))
  }

  function PlanOf(l: Listing, history: bool): Result<Plan, CheckoutError> {
    PlanPrefix(l, history, |l.entries|)
  }

  lemma {:induction false} ErrorsPersist(l: Listing, history: bool, m: nat, n: nat)
    requires m <= n <= |l.entries| && PlanPrefix(l, history, m).Err?
    ensures PlanPrefix(l, history, n) == PlanPrefix(l, history, m)
    decreases n
  {
    if m < n { ErrorsPersist(l, history, m, n - 1); }
  }

  lemma NothingPlanned(l: Listing, history: bool)
    ensures PlanPrefix(l, history, 0) == Ok(Plan(map[], map[]))
  {
  }

  lemma PlanStep(l: Listing, history: bool, i: nat, p: Plan)
    requires i < |l.entries| && PlanPrefix(l, history, i) == Ok(p)
    ensures PlanPrefix(l, history, i + 1) == PlanEntry(l, history, p, l.entries[i])
    ensures PlanEntry(l, history, p, l.entries[i]).Err? ==> PlanOf(l, history) == PlanEntry(l, history, p, l.entries[i])
  {
    hide Walk, PlanEntry;
    if PlanPrefix(l, history, i + 1).Err? {
      ErrorsPersist(l, history, i + 1, |l.entries|);
    }
  }

  method Partition(entries: seq<Entry>, history: bool) returns (r: Result<Plan, CheckoutError>)
    ensures r == PlanOf(Read(entries), history)
  {
    hide Walk, RootOf, ById, Replaced, PlanPrefix;
    var byId := ById(entries);
    var replaced := Replaced(entries);
    ghost var l := Read(entries);
    var keys: set<Uuid> := {};
    var current: map<Uuid, Entry> := map[];
    var retired: map<Uuid, Entry> := map[];
    NothingPlanned(l, history);
    for i := 0 to |entries|
      invariant keys == current.Keys
      invariant PlanPrefix(l, history, i) == Ok(Plan(current, retired))
    {
      var entry := entries[i];
      PlanStep(l, history, i, Plan(current, retired));
      if entry.id in replaced {
        if history {
          retired := retired[entry.id := entry];
        }
      } else {
        var root := LineageRoot(entry, byId);
        if root.Err? {
          return Err(BadLineage(root.error));
        }
        var key := root.value;
        if key in keys {
          return Err(Competing);
        }
        keys := keys + {key};
        current := current[key := entry];
      }
    }
    return Ok(Plan(current, retired));
  }

  /** Whether a listing can be planned does not depend on whether history is asked for. */
  lemma {:induction false} HistoryDoesNotMatter(l: Listing, n: nat)
    requires n <= |l.entries|
    ensures PlanPrefix(l, true, n).Ok? <==> PlanPrefix(l, false, n).Ok?
    ensures PlanPrefix(l, true, n).Ok? ==> PlanPrefix(l, true, n).value.current == PlanPrefix(l, false, n).value.current
    decreases n
  {
    hide RootOf;
    if n > 0 {
      HistoryDoesNotMatter(l, n - 1);
    }
  }

  /** The first entry that cannot be placed: unreplaced, without a root, or with that of an earlier one. */
  ghost predicate FailsAt(l: Listing, i: nat, e: CheckoutError)
    requires i < |l.entries|
  {
    var root := RootOf(l.index, l.entries[i]);
    && l.entries[i].id !in l.replaced
    && (match e
        case BadLineage(reason) => root == Err(reason)
        case Competing => root.Ok? && exists j :: 0 <= j < i && l.entries[j].id !in l.replaced
                                                  && RootOf(l.index, l.entries[j]) == root)
  }

  /** A failing checkout reports what is wrong with the first entry at fault. */
  lemma {:induction false} PlanErrorMeaning(l: Listing, history: bool, n: nat) returns (i: nat)
    requires n <= |l.entries| && PlanPrefix(l, history, n).Err?
    ensures i < n && PlanPrefix(l, history, i).Ok? && FailsAt(l, i, PlanPrefix(l, history, n).error)
    decreases n
  {
    hide RootOf;
    if PlanPrefix(l, history, n - 1).Err? {
      i := PlanErrorMeaning(l, history, n - 1);
    } else {
      i := n - 1;
      PlanHoldsCurrent(l, history, i);
      var p := PlanPrefix(l, history, i).value;
      var root := RootOf(l.index, l.entries[i]);
      if root.Ok? {
        var j := FromPrefix(l, history, i, root.value);
        assert IsDocument(l, root.value, p.current[root.value]);
      }
    }
  }

  // ---------------------------------------------------------------- what a plan holds

  function Roots(g: Index): set<Uuid> {
    set id | id in g && g[id].supersedes.None?
  }

  ghost predicate SitsUnderRoot(l: Listing, p: Plan, e: Entry) {
    var root := RootOf(l.index, e);
    root.Ok? && root.value in p.current && p.current[root.value] == e
  }

  ghost predicate IsDocument(l: Listing, key: Uuid, e: Entry) {
    e in l.entries && e.id !in l.replaced && RootOf(l.index, e) == Ok(key)
  }

  /** Every unreplaced entry read so far sits under its own root, and nothing else does. */
  ghost predicate HoldsCurrent(l: Listing, n: nat, p: Plan)
    requires n <= |l.entries|
  {
    && (forall i :: 0 <= i < n && l.entries[i].id !in l.replaced ==> SitsUnderRoot(l, p, l.entries[i]))
    && (forall key :: key in p.current ==> IsDocument(l, key, p.current[key]))
  }

  /** Every replaced entry read so far is kept when history was asked for, and nothing else is. */
  ghost predicate HoldsHistory(l: Listing, history: bool, n: nat, p: Plan)
    requires n <= |l.entries|
  {
    && (forall i :: 0 <= i < n && l.entries[i].id in l.replaced && history ==>
          l.entries[i].id in p.history && p.history[l.entries[i].id] == l.entries[i])
    && (forall id :: id in p.history ==>
          history && id in l.replaced && p.history[id] in l.entries && p.history[id].id == id)
  }

  lemma {:induction false} PlanHoldsCurrent(l: Listing, history: bool, n: nat)
    requires n <= |l.entries| && PlanPrefix(l, history, n).Ok?
    ensures HoldsCurrent(l, n, PlanPrefix(l, history, n).value)
    decreases n
  {
    hide Walk;
    if n > 0 {
      PlanHoldsCurrent(l, history, n - 1);
      var e := l.entries[n - 1];
      var before := PlanPrefix(l, history, n - 1).value;
      var after := PlanPrefix(l, history, n).value;
      assert PlanEntry(l, history, before, e) == Ok(after);
      forall i | 0 <= i < n && l.entries[i].id !in l.replaced
        ensures SitsUnderRoot(l, after, l.entries[i])
      {
        assert i < n - 1 ==> SitsUnderRoot(l, before, l.entries[i]);
      }
      forall key | key in after.current
        ensures IsDocument(l, key, after.current[key])
      {
        assert key in before.current ==> IsDocument(l, key, before.current[key]);
      }
    }
  }

  lemma {:induction false} PlanHoldsHistory(l: Listing, history: bool, n: nat)
    requires n <= |l.entries| && UniqueIds(l.entries) && PlanPrefix(l, history, n).Ok?
    ensures HoldsHistory(l, history, n, PlanPrefix(l, history, n).value)
    decreases n
  {
    hide PlanEntry, HoldsHistory;
    if n > 0 {
      PlanHoldsHistory(l, history, n - 1);
      EntryKeepsHistory(l, history, n - 1, PlanPrefix(l, history, n - 1).value);
    } else {
      NothingHeld(l, history);
    }
  }

  lemma NothingHeld(l: Listing, history: bool)
    ensures HoldsHistory(l, history, 0, Plan(map[], map[]))
  {
  }

  lemma EntryKeepsHistory(l: Listing, history: bool, i: nat, p: Plan)
    requires i < |l.entries| && UniqueIds(l.entries) && HoldsHistory(l, history, i, p)
    ensures var r := PlanEntry(l, history, p, l.entries[i]);
            r.Ok? ==> HoldsHistory(l, history, i + 1, r.value)
  {
    hide RootOf;
    assert l.entries[i] in l.entries;
    assert forall k :: 0 <= k < i ==> l.entries[k].id != l.entries[i].id;
  }

  // ---------------------------------------------------------------- forests and paths

  /** Without forks, two chains that end in one root coincide from the root down. */
  lemma {:induction false} AlignedChains(g: Index, a: Entry, n: nat, b: Entry, m: nat, root: Entry)
    requires NoFork(g) && Listed(g, a) && Listed(g, b)
    requires root.supersedes.None? && n <= m
    requires Up(g, a, n) == Some(root) && Up(g, b, m) == Some(root)
    ensures Up(g, b, m - n) == Some(a)
    decreases n
  {
    if n > 0 {
      var parent := g[a.supersedes.value];
      AlignedChains(g, parent, n - 1, b, m, root);
      UpPrefix(g, b, m - n, m);
      UpNext(g, b, m - n);
      UpListed(g, b, m - n);
      var child := Up(g, b, m - n).value;
      assert g[child.supersedes.value] == parent;
      assert g[child.id].supersedes == g[a.id].supersedes;
    }
  }

  /** An unreplaced entry is nobody's ancestor but its own. */
  lemma UnreplacedIsLast(l: Listing, a: Entry, b: Entry, k: nat)
    requires Faithful(l) && b in l.entries && a.id !in l.replaced
    requires Up(l.index, b, k) == Some(a)
    ensures k == 0
  {
    if k > 0 {
      UpPrefix(l.index, b, k - 1, k);
      UpNext(l.index, b, k - 1);
      UpListed(l.index, b, k - 1);
    }
  }

  lemma ListedRoot(l: Listing, a: Entry) returns (n: nat)
    requires Faithful(l) && Sound(l.index) && a in l.entries
    ensures Listed(l.index, a)
    ensures RootOf(l.index, a).Ok? && RootOf(l.index, a).value in l.index
    ensures l.index[RootOf(l.index, a).value].supersedes.None?
    ensures Up(l.index, a, n) == Some(l.index[RootOf(l.index, a).value])
  {
    hide Sound;
    assert Listed(l.index, a);
    n := SoundHasRoot(l.index, a);
  }

  lemma PathsHaveOneEnd(l: Listing, a: Entry, b: Entry)
    requires Faithful(l) && Sound(l.index) && NoFork(l.index)
    requires a in l.entries && b in l.entries && a.id !in l.replaced && b.id !in l.replaced
    requires RootOf(l.index, a) == RootOf(l.index, b)
    ensures a == b
  {
    hide *;
    var n := ListedRoot(l, a);
    var m := ListedRoot(l, b);
    var root := l.index[RootOf(l.index, a).value];
    if n <= m {
      AlignedChains(l.index, a, n, b, m, root);
      UnreplacedIsLast(l, a, b, m - n);
      UpZero(l.index, b);
    } else {
      AlignedChains(l.index, b, m, a, n, root);
      UnreplacedIsLast(l, b, a, n - m);
      UpZero(l.index, a);
    }
  }

  lemma UpZero(g: Index, e: Entry)
    ensures Up(g, e, 0) == Some(e)
  {
  }

  lemma {:induction false} FromPrefix(l: Listing, history: bool, n: nat, key: Uuid) returns (i: nat)
    requires n <= |l.entries| && PlanPrefix(l, history, n).Ok?
    requires key in PlanPrefix(l, history, n).value.current
    ensures i < n && l.entries[i] == PlanPrefix(l, history, n).value.current[key]
    decreases n
  {
    hide Walk;
    var before := PlanPrefix(l, history, n - 1).value;
    assert PlanEntry(l, history, before, l.entries[n - 1]) == PlanPrefix(l, history, n);
    if key in before.current {
      i := FromPrefix(l, history, n - 1, key);
    } else {
      i := n - 1;
    }
  }

  /** Without forks the partition cannot fail. */
  lemma {:induction false} NoForkPlans(l: Listing, history: bool, n: nat)
    requires Faithful(l) && Sound(l.index) && NoFork(l.index) && n <= |l.entries|
    ensures PlanPrefix(l, history, n).Ok?
    decreases n
  {
    hide Walk, Sound, NoFork;
    if n > 0 {
      NoForkPlans(l, history, n - 1);
      PlanHoldsCurrent(l, history, n - 1);
      var e := l.entries[n - 1];
      var p := PlanPrefix(l, history, n - 1).value;
      assert e in l.entries;
      if e.id !in l.replaced {
        var k := ListedRoot(l, e);
        var key := RootOf(l.index, e).value;
        if key in p.current {
          assert IsDocument(l, key, p.current[key]);
          var i := FromPrefix(l, history, n - 1, key);
          PathsHaveOneEnd(l, e, p.current[key]);
          assert false;
        }
      }
    }
  }

  // ---------------------------------------------------------------- counting

  /** Who replaces whom. */
  function ParentMap(g: Index): map<Uuid, Uuid> {
    map id | id in g && g[id].supersedes.Some? :: g[id].supersedes.value
  }

  function CurrentIds(l: Listing, n: nat): set<Uuid>
    requires n <= |l.entries|
  {
    set i | 0 <= i < n && l.entries[i].id !in l.replaced :: l.entries[i].id
  }

  lemma AddedKey(m: map<Uuid, Entry>, key: Uuid, e: Entry)
    requires key !in m
    ensures |m[key := e]| == |m| + 1
  {
    assert m[key := e].Keys == m.Keys + {key};
    assert |m.Keys| == |m| && |m[key := e].Keys| == |m[key := e]|;
  }

  lemma {:induction false} PlanCounts(l: Listing, history: bool, n: nat)
    requires n <= |l.entries| && UniqueIds(l.entries) && PlanPrefix(l, history, n).Ok?
    ensures |PlanPrefix(l, history, n).value.current| == |CurrentIds(l, n)|
    decreases n
  {
    hide PlanEntry;
    if n > 0 {
      PlanCounts(l, history, n - 1);
      EntryCounts(l, history, n - 1, PlanPrefix(l, history, n - 1).value);
    }
  }

  /** An entry adds a document exactly when it adds an unreplaced id. */
  lemma EntryCounts(l: Listing, history: bool, i: nat, p: Plan)
    requires i < |l.entries| && UniqueIds(l.entries)
    ensures var r := PlanEntry(l, history, p, l.entries[i]);
            r.Ok? ==> |r.value.current| - |p.current| == |CurrentIds(l, i + 1)| - |CurrentIds(l, i)|
  {
    hide RootOf, CurrentIds;
    var e := l.entries[i];
    NextId(l, i);
    var r := PlanEntry(l, history, p, e);
    if e.id !in l.replaced && r.Ok? {
      AddedKey(p.current, RootOf(l.index, e).value, e);
    }
  }

  lemma NextId(l: Listing, i: nat)
    requires i < |l.entries| && UniqueIds(l.entries)
    ensures var e := l.entries[i];
            CurrentIds(l, i + 1) == CurrentIds(l, i) + (if e.id in l.replaced then {} else {e.id})
            && e.id !in CurrentIds(l, i)
  {
  }

  /** The replaced ids are the values of the parent map; the rest of the ids are the current ones. */
  lemma Tables(l: Listing)
    requires Faithful(l)
    ensures ParentMap(l.index).Values == l.replaced
    ensures CurrentIds(l, |l.entries|) == l.index.Keys - l.replaced
  {
    var parents := ParentMap(l.index);
    forall id | id in l.replaced
      ensures id in parents.Values
    {
      var e :| e in l.entries && e.supersedes == Some(id);
      assert Listed(l.index, e);
      assert e.id in parents && parents[e.id] == id;
    }
    forall id | id in parents.Values
      ensures id in l.replaced
    {
      var child :| child in parents && parents[child] == id;
      assert Listed(l.index, l.index[child]);
    }
    forall id | id in l.index.Keys - l.replaced
      ensures id in CurrentIds(l, |l.entries|)
    {
      assert Listed(l.index, l.index[id]);
      var i :| 0 <= i < |l.entries| && l.entries[i] == l.index[id];
      assert l.entries[i].id !in l.replaced;
    }
    forall id | id in CurrentIds(l, |l.entries|)
      ensures id in l.index.Keys - l.replaced
    {
      var i :| 0 <= i < |l.entries| && l.entries[i].id !in l.replaced && l.entries[i].id == id;
      assert l.entries[i] in l.entries;
    }
  }

  lemma PlannedKeysAreRoots(l: Listing, history: bool)
    requires Faithful(l) && Sound(l.index) && PlanOf(l, history).Ok?
    ensures PlanOf(l, history).value.current.Keys <= Roots(l.index)
  {
    PlanHoldsCurrent(l, history, |l.entries|);
    var p := PlanOf(l, history).value;
    forall key | key in p.current
      ensures key in Roots(l.index)
    {
      assert IsDocument(l, key, p.current[key]);
      var n := SoundHasRoot(l.index, p.current[key]);
    }
  }

  /**
   A planned listing has as many current documents as roots, so replacement is injective and every
   root names a document.
   */
  lemma PlannedHasNoFork(l: Listing, history: bool)
    requires Faithful(l) && Sound(l.index) && PlanOf(l, history).Ok?
    ensures NoFork(l.index)
    ensures PlanOf(l, history).value.current.Keys == Roots(l.index)
  {
    hide *;
    KeyCount(l, history);
    ParentsListed(l);
    var ids, parents := l.index.Keys, ParentMap(l.index);
    var keys := PlanOf(l, history).value.current.Keys;
    // The keys are among the ids without a parent and as many as the ids that are nobody's parent.
    ValuesOfMap(parents);
    assert |parents.Keys| == |parents|;
    assert |ids - parents.Values| == |ids| - |parents.Values|;
    assert |ids - parents.Keys| == |ids| - |parents.Keys|;
    SubsetCardinality(keys, ids - parents.Keys);
    InjectiveHasNoFork(l.index);
  }

  lemma KeyCount(l: Listing, history: bool)
    requires Faithful(l) && Sound(l.index) && PlanOf(l, history).Ok?
    ensures var keys := PlanOf(l, history).value.current.Keys;
            keys <= Roots(l.index) && |keys| == |l.index.Keys - ParentMap(l.index).Values|
  {
    hide Walk, Sound, CurrentIds, ParentMap, PlanPrefix;
    Tables(l);
    PlanCounts(l, history, |l.entries|);
    PlannedKeysAreRoots(l, history);
  }

  lemma InjectiveHasNoFork(g: Index)
    requires Injective(ParentMap(g))
    ensures NoFork(g)
  {
    forall a, b | a in g && b in g && g[a].supersedes.Some? && g[a].supersedes == g[b].supersedes
      ensures a == b
    {
      assert ParentMap(g)[a] == ParentMap(g)[b];
    }
  }

  lemma ParentsListed(l: Listing)
    requires Sound(l.index)
    ensures ParentMap(l.index).Keys <= l.index.Keys && ParentMap(l.index).Values <= l.index.Keys
    ensures Roots(l.index) == l.index.Keys - ParentMap(l.index).Keys
  {
  }

  /** The partition succeeds exactly when no two entries replace the same one. */
  lemma CheckoutSucceedsIff(entries: seq<Entry>, history: bool)
    requires UniqueIds(entries) && Sound(ById(entries))
    ensures PlanOf(Read(entries), history).Ok? <==> NoFork(ById(entries))
  {
    var l := Read(entries);
    ReadFaithful(entries);
    if PlanOf(l, history).Ok? {
      PlannedHasNoFork(l, history);
    } else if NoFork(ById(entries)) {
      NoForkPlans(l, history, |entries|);
    }
  }

  /** `a` is an ancestor of `b`, or `b` itself. */
  ghost predicate OnChain(g: Index, a: Entry, b: Entry) {
    exists n: nat :: Up(g, b, n) == Some(a)
  }

  /** Entries of one lineage lie on one path. */
  ghost predicate SinglePaths(l: Listing) {
    forall a, b :: a in l.entries && b in l.entries && RootOf(l.index, a) == RootOf(l.index, b) ==>
      OnChain(l.index, a, b) || OnChain(l.index, b, a)
  }

  /** Each document is the last revision of the lineage it is named after. */
  ghost predicate KeysNameLineages(l: Listing, p: Plan) {
    && p.current.Keys == Roots(l.index)
    && (forall key :: key in p.current ==>
          IsDocument(l, key, p.current[key]) && OnChain(l.index, l.index[key], p.current[key]))
  }

  /** Each entry is one current document or, when asked for, one history file; nothing else is written. */
  ghost predicate CoversOnce(l: Listing, history: bool, p: Plan) {
    && (forall e :: e in l.entries ==>
          && (e.id in l.replaced ==> forall key :: key in p.current ==> p.current[key] != e)
          && (e.id !in l.replaced ==> SitsUnderRoot(l, p, e))
          && (e.id in p.history <==> history && e.id in l.replaced)
          && (e.id in p.history ==> p.history[e.id] == e))
    && (forall id :: id in p.history ==> p.history[id] in l.entries && p.history[id].id == id)
  }

  /**
   On success the documents are in bijection with the lineage roots, every lineage is a single
   path, and each entry is in exactly one place.
   */
  lemma CheckoutPartition(entries: seq<Entry>, history: bool)
    requires UniqueIds(entries) && Sound(ById(entries)) && PlanOf(Read(entries), history).Ok?
    ensures KeysNameLineages(Read(entries), PlanOf(Read(entries), history).value)
    ensures SinglePaths(Read(entries))
    ensures CoversOnce(Read(entries), history, PlanOf(Read(entries), history).value)
  {
    var l := Read(entries);
    var p := PlanOf(l, history).value;
    ReadFaithful(entries);
    PlannedHasNoFork(l, history);
    PlanHoldsCurrent(l, history, |entries|);
    PlanHoldsHistory(l, history, |entries|);
    forall key | key in p.current
      ensures OnChain(l.index, l.index[key], p.current[key])
    {
      var n := SoundHasRoot(l.index, p.current[key]);
    }
    PathsWithoutForks(l);
  }

  lemma PathsWithoutForks(l: Listing)
    requires Faithful(l) && Sound(l.index) && NoFork(l.index)
    ensures SinglePaths(l)
  {
    forall a, b | a in l.entries && b in l.entries && RootOf(l.index, a) == RootOf(l.index, b)
      ensures OnChain(l.index, a, b) || OnChain(l.index, b, a)
    {
      var n := SoundHasRoot(l.index, a);
      var m := SoundHasRoot(l.index, b);
      if n <= m {
        AlignedChains(l.index, a, n, b, m, l.index[RootOf(l.index, a).value]);
      } else {
        AlignedChains(l.index, b, m, a, n, l.index[RootOf(l.index, a).value]);
      }
    }
  }

  /** A document and its revision, checked out before and after the revision was made. */
  lemma TwoRevisions(original: Entry, revision: Entry, history: bool)
    requires original.id != revision.id && original.supersedes == None && revision.supersedes == Some(original.id)
    requires SameScope(original, revision)
    ensures PlanOf(Read([original]), history) == Ok(Plan(map[original.id := original], map[]))
    ensures PlanOf(Read([original, revision]), history)
            == Ok(Plan(map[original.id := revision], if history then map[original.id := original] else map[]))
  {
    hide ById;
    var l, m := Read([original]), Read([original, revision]);
    assert UniqueIds([original]) && UniqueIds([original, revision]);
    ReadFaithful([original]);
    ReadFaithful([original, revision]);
    assert original in [original] && original in [original, revision] && revision in [original, revision];
    assert l.replaced == {} && m.replaced == {original.id};
    RootOfRevision(l.index, original, original);
    RootOfRevision(m.index, original, revision);
    hide RootOf, Replaced;
    PlanOne(l, history);
    PlanOne(m, history);
    PlanTwo(m, history);
  }

  lemma PlanOne(l: Listing, history: bool)
    requires |l.entries| > 0
    ensures PlanPrefix(l, history, 1) == PlanEntry(l, history, Plan(map[], map[]), l.entries[0])
  {
    hide PlanEntry;
    assert PlanPrefix(l, history, 0) == Ok(Plan(map[], map[]));
  }

  lemma PlanTwo(l: Listing, history: bool)
    requires |l.entries| > 1 && PlanPrefix(l, history, 1).Ok?
    ensures PlanPrefix(l, history, 2) == PlanEntry(l, history, PlanPrefix(l, history, 1).value, l.entries[1])
  {
    hide PlanEntry;
  }

  lemma RootOfRevision(g: Index, original: Entry, e: Entry)
    requires Listed(g, original) && original.supersedes == None && SameScope(original, e)
    requires e == original || (e.supersedes == Some(original.id) && e.id != original.id)
    ensures RootOf(g, e) == Ok(original.id)
  {
    var seen: set<Uuid> := {};
    assert Walk(g, e, original, seen + {e.id}) == Ok(original.id);
  }

  // ---------------------------------------------------------------- cycles

  /** Some document is this entry or a later revision of it. */
  ghost predicate Represented(l: Listing, p: Plan, e: Entry) {
    exists key :: key in p.current && OnChain(l.index, e, p.current[key])
  }

  /** An entry that is its own ancestor gives whoever descends from it a cycle and no root. */
  lemma CycleHasNoRoot(g: Index, x: Entry, k: nat, e: Entry, n: nat)
    requires Listed(g, x) && ScopeConsistent(g) && n > 0
    requires Up(g, x, k) == Some(e) && Up(g, e, n) == Some(e)
    ensures RootOf(g, x) == Err(Cycle)
  {
    UpPlus(g, x, k, n);
    forall i: nat | i <= k + n
      ensures Up(g, x, i).Some? && SameScope(Up(g, x, i).value, x)
    {
      UpPrefix(g, x, i, k + n);
      ChainKeepsScope(g, x, i);
    }
    assert Loops(g, x, k, k + n);
    LineageRootMeaning(g, x);
  }

  lemma AcyclicRepresents(entries: seq<Entry>, history: bool, e: Entry)
    requires UniqueIds(entries) && Sound(ById(entries)) && PlanOf(Read(entries), history).Ok? && e in entries
    ensures Represented(Read(entries), PlanOf(Read(entries), history).value, e)
  {
    hide Walk, Up, RootOf, PlanPrefix;
    var l := Read(entries);
    var p := PlanOf(l, history).value;
    ReadFaithful(entries);
    CheckoutPartition(entries, history);
    var n := ListedRoot(l, e);
    var key := RootOf(l.index, e).value;
    assert key in p.current && IsDocument(l, key, p.current[key]);
    LastRevision(l, e, p.current[key]);
  }

  /**
   A successful checkout shows every lineage exactly when no entry is its own ancestor: the members
   of a cycle all count as replaced, so nothing reports them.
   */
  lemma EverythingShownIff(entries: seq<Entry>, history: bool)
    requires UniqueIds(entries) && Complete(ById(entries)) && ScopeConsistent(ById(entries))
    requires PlanOf(Read(entries), history).Ok?
    ensures (forall e :: e in entries ==> Represented(Read(entries), PlanOf(Read(entries), history).value, e))
            <==> Acyclic(ById(entries))
  {
    hide Walk, Up, PlanPrefix, RootOf;
    var l := Read(entries);
    var p := PlanOf(l, history).value;
    ReadFaithful(entries);
    if Acyclic(ById(entries)) {
      forall e | e in entries
        ensures Represented(l, p, e)
      {
        AcyclicRepresents(entries, history, e);
      }
    } else {
      var id, n: nat :| id in l.index && n > 0 && Up(l.index, l.index[id], n) == Some(l.index[id]);
      var e := l.index[id];
      assert Listed(l.index, e);
      PlanHoldsCurrent(l, history, |entries|);
      forall key | key in p.current
        ensures !OnChain(l.index, e, p.current[key])
      {
        assert IsDocument(l, key, p.current[key]);
        if OnChain(l.index, e, p.current[key]) {
          var k: nat :| Up(l.index, p.current[key], k) == Some(e);
          CycleHasNoRoot(l.index, p.current[key], k, e, n);
        }
      }
    }
  }

  /** Two entries that replace each other are checked out without complaint, as nothing at all. */
  lemma CycleIsSilent(a: Entry, b: Entry)
    requires a.id != b.id && a.supersedes == Some(b.id) && b.supersedes == Some(a.id)
    ensures PlanOf(Read([a, b]), false) == Ok(Plan(map[], map[]))
  {
    hide Walk, ById;
    var l := Read([a, b]);
    assert l.entries[0].supersedes == Some(b.id) && l.entries[1].supersedes == Some(a.id);
    assert PlanPrefix(l, false, 1) == PlanEntry(l, false, Plan(map[], map[]), a);
    assert PlanPrefix(l, false, 2) == PlanEntry(l, false, Plan(map[], map[]), b);
  }

  // ---------------------------------------------------------------- refresh

  /** Every entry of the old listing is still listed, unchanged. */
  ghost predicate Extends(older: Index, newer: Index) {
    forall id :: id in older ==> id in newer && newer[id] == older[id]
  }

  lemma {:induction false} UpExtends(older: Index, newer: Index, e: Entry, n: nat)
    requires Extends(older, newer) && Listed(older, e) && Complete(older)
    ensures Up(newer, e, n) == Up(older, e, n)
    decreases n
  {
    if n > 0 && e.supersedes.Some? {
      UpExtends(older, newer, older[e.supersedes.value], n - 1);
    }
  }

  /** An entry keeps its root. */
  lemma RootExtends(older: Index, newer: Index, e: Entry)
    requires Extends(older, newer) && Sound(older) && Sound(newer) && Listed(older, e)
    ensures RootOf(newer, e) == RootOf(older, e)
  {
    var n := SoundHasRoot(older, e);
    var root := RootOf(older, e).value;
    LineageRootMeaning(newer, e);
    forall i: nat | i <= n
      ensures Up(newer, e, i).Some? && SameScope(Up(newer, e, i).value, e)
    {
      UpExtends(older, newer, e, i);
      UpPrefix(older, e, i, n);
      ChainKeepsScope(older, e, i);
    }
    UpExtends(older, newer, e, n);
    assert ReachesRoot(newer, e, n, root);
  }

  /** Two plans that share the document directories of the first. */
  ghost predicate KeepsIdentity(newer: Listing, p: Plan, q: Plan) {
    && p.current.Keys <= q.current.Keys
    && (forall key :: key in p.current ==>
          && OnChain(newer.index, p.current[key], q.current[key])
          && (q.current[key] == p.current[key] <==> p.current[key].id !in newer.replaced))
  }

  /**
   A refresh keeps every document directory. A document changes exactly when its current revision
   has been replaced, and then it holds a descendant of that revision.
   */
  lemma RefreshKeepsIdentity(older: seq<Entry>, newer: seq<Entry>, h: bool, h': bool)
    requires UniqueIds(older) && Sound(ById(older)) && PlanOf(Read(older), h).Ok?
    requires UniqueIds(newer) && Sound(ById(newer)) && PlanOf(Read(newer), h').Ok?
    requires Extends(ById(older), ById(newer))
    ensures KeepsIdentity(Read(newer), PlanOf(Read(older), h).value, PlanOf(Read(newer), h').value)
  {
    var l, l' := Read(older), Read(newer);
    var p, q := PlanOf(l, h).value, PlanOf(l', h').value;
    CheckoutPartition(older, h);
    CheckoutPartition(newer, h');
    ReadFaithful(older);
    ReadFaithful(newer);
    assert p.current.Keys <= q.current.Keys;
    forall key | key in p.current
      ensures OnChain(l'.index, p.current[key], q.current[key])
      ensures q.current[key] == p.current[key] <==> p.current[key].id !in l'.replaced
    {
      var a, b := p.current[key], q.current[key];
      RootExtends(l.index, l'.index, a);
      assert Listed(l'.index, a);
      LastRevision(l', a, b);
    }
  }

  /** The unreplaced end of a lineage descends from each of its entries. */
  lemma LastRevision(l: Listing, a: Entry, b: Entry)
    requires Faithful(l) && SinglePaths(l) && a in l.entries && b in l.entries && b.id !in l.replaced
    requires RootOf(l.index, a) == RootOf(l.index, b)
    ensures OnChain(l.index, a, b)
    ensures a == b <==> a.id !in l.replaced
  {
    if OnChain(l.index, b, a) {
      var k: nat :| Up(l.index, a, k) == Some(b);
      UnreplacedIsLast(l, b, a, k);
      assert Up(l.index, b, 0) == Some(a);
    }
    if a.id !in l.replaced {
      var k: nat :| Up(l.index, b, k) == Some(a);
      UnreplacedIsLast(l, a, b, k);
    }
  }

  /**
   The extension a server makes: new entries start a document or replace a current revision in its
   own scope, no two of them the same one.
   */
  ghost predicate Revises(older: Listing, newer: Listing) {
    var g, g' := older.index, newer.index;
    && Extends(g, g')
    && (forall id :: id in g' && id !in g && g'[id].supersedes.Some? ==>
          var parent := g'[id].supersedes.value;
          parent in g && parent !in older.replaced && SameScope(g[parent], g'[id]))
    && (forall a, b :: (a in g' && b in g' && a !in g && b !in g
                        && g'[a].supersedes.Some? && g'[a].supersedes == g'[b].supersedes) ==> a == b)
  }

  lemma RevisionSound(older: Listing, newer: Listing)
    requires Sound(older.index) && Revises(older, newer)
    ensures Sound(newer.index)
  {
    hide Walk, Up, Acyclic;
    var g, g' := older.index, newer.index;
    assert Acyclic(g') by {
      forall id, n: nat | id in g' && n > 0
        ensures Up(g', g'[id], n) != Some(g'[id])
      {
        RevisionOffChain(older, newer, id, n);
      }
      AcyclicFrom(g');
    }
  }

  lemma AcyclicFrom(g: Index)
    requires forall id, n: nat :: id in g && n > 0 ==> Up(g, g[id], n) != Some(g[id])
    ensures Acyclic(g)
  {
  }

  /** An old entry keeps its ancestors; a new one has only old ancestors. */
  lemma RevisionOffChain(older: Listing, newer: Listing, id: Uuid, n: nat)
    requires Complete(older.index) && Acyclic(older.index) && Revises(older, newer) && id in newer.index && n > 0
    ensures Up(newer.index, newer.index[id], n) != Some(newer.index[id])
  {
    var g, g' := older.index, newer.index;
    if id in g {
      UpExtends(g, g', g[id], n);
    } else if g'[id].supersedes.Some? {
      NewOffChain(g, g', g'[id], n);
    } else {
      assert Up(g', g'[id], n).None?;
    }
  }

  lemma NewOffChain(g: Index, g': Index, e: Entry, n: nat)
    requires Extends(g, g') && Complete(g) && e.id !in g && n > 0
    requires e.supersedes.Some? && e.supersedes.value in g
    ensures Up(g', e, n) != Some(e)
  {
    var parent := g[e.supersedes.value];
    UpFirst(g', e, n);
    hide Up, Walk;
    UpExtends(g, g', parent, n - 1);
    UpListed(g, parent, n - 1);
  }

  lemma UpFirst(g: Index, e: Entry, n: nat)
    requires n > 0 && e.supersedes.Some? && e.supersedes.value in g
    ensures Up(g, e, n) == Up(g, g[e.supersedes.value], n - 1)
  {
  }

  lemma ParentReplaced(l: Listing, id: Uuid)
    requires Faithful(l) && id in l.index && l.index[id].supersedes.Some?
    ensures l.index[id].supersedes.value in l.replaced
  {
    assert Listed(l.index, l.index[id]);
  }

  lemma RevisionHasNoFork(older: Listing, newer: Listing)
    requires Faithful(older) && NoFork(older.index) && Revises(older, newer)
    ensures NoFork(newer.index)
  {
    var g, g' := older.index, newer.index;
    forall a, b | a in g' && b in g' && g'[a].supersedes.Some? && g'[a].supersedes == g'[b].supersedes
      ensures a == b
    {
      if a in g { ParentReplaced(older, a); }
      if b in g { ParentReplaced(older, b); }
    }
  }

  /** Such an extension of a listing that could be checked out can be checked out too. */
  lemma RefreshSucceeds(older: seq<Entry>, newer: seq<Entry>, h: bool, h': bool)
    requires UniqueIds(older) && Sound(ById(older)) && PlanOf(Read(older), h).Ok?
    requires UniqueIds(newer) && Revises(Read(older), Read(newer))
    ensures Sound(ById(newer)) && PlanOf(Read(newer), h').Ok?
  {
    ReadFaithful(older);
    PlannedHasNoFork(Read(older), h);
    RevisionSound(Read(older), Read(newer));
    RevisionHasNoFork(Read(older), Read(newer));
    CheckoutSucceedsIff(newer, h');
  }

  ghost predicate SameEntries(one: seq<Entry>, two: seq<Entry>) {
    UniqueIds(one) && UniqueIds(two) && forall e :: e in one <==> e in two
  }

  /** A listing whose reordering can be checked out can be checked out as far as any of its entries. */
  lemma {:induction false} PlansToo(one: Listing, two: Listing, history: bool, n: nat)
    requires Faithful(one) && Faithful(two) && one.index == two.index && one.replaced == two.replaced
    requires PlanOf(one, history).Ok? && n <= |two.entries|
    ensures PlanPrefix(two, history, n).Ok?
    decreases n
  {
    hide PlanEntry, HoldsCurrent, Faithful;
    if n > 0 {
      PlansToo(one, two, history, n - 1);
      PlanHoldsCurrent(two, history, n - 1);
      PlanHoldsCurrent(one, history, |one.entries|);
      NoneAhead(two, history, n - 1);
      EntryPlans(one, two, history, n - 1, PlanPrefix(two, history, n - 1).value, PlanOf(one, history).value);
    }
  }

  /** The documents of a prefix are not the next entry. */
  lemma NoneAhead(l: Listing, history: bool, n: nat)
    requires Faithful(l) && n < |l.entries| && PlanPrefix(l, history, n).Ok?
    ensures forall key :: key in PlanPrefix(l, history, n).value.current ==>
              PlanPrefix(l, history, n).value.current[key] != l.entries[n]
  {
    hide PlanPrefix;
    forall key | key in PlanPrefix(l, history, n).value.current
      ensures PlanPrefix(l, history, n).value.current[key] != l.entries[n]
    {
      var i := FromPrefix(l, history, n, key);
    }
  }

  lemma EntryPlans(one: Listing, two: Listing, history: bool, i: nat, p: Plan, whole: Plan)
    requires Faithful(one) && Faithful(two) && one.index == two.index && one.replaced == two.replaced
    requires i < |two.entries| && HoldsCurrent(two, i, p) && HoldsCurrent(one, |one.entries|, whole)
    requires forall key :: key in p.current ==> p.current[key] != two.entries[i]
    ensures PlanEntry(two, history, p, two.entries[i]).Ok?
  {
    hide RootOf;
    var e := two.entries[i];
    assert e in two.entries && Listed(two.index, e);
    if e.id !in two.replaced {
      InWhole(one, whole, e);
      var key := RootOf(one.index, e).value;
      if key in p.current {
        assert IsDocument(two, key, p.current[key]) && Listed(two.index, p.current[key]);
        InWhole(one, whole, p.current[key]);
      }
    }
  }

  lemma InWhole(l: Listing, p: Plan, e: Entry)
    requires Faithful(l) && HoldsCurrent(l, |l.entries|, p) && Listed(l.index, e) && e.id !in l.replaced
    ensures SitsUnderRoot(l, p, e)
  {
    assert e in l.entries;
    var i :| 0 <= i < |l.entries| && l.entries[i] == e;
  }

  /** The order of the listing does not matter: on any graph reordered entries give the same files. */
  lemma PlanIgnoresOrder(one: seq<Entry>, two: seq<Entry>, history: bool)
    requires SameEntries(one, two)
    ensures PlanOf(Read(one), history).Ok? <==> PlanOf(Read(two), history).Ok?
    ensures PlanOf(Read(one), history).Ok? ==> PlanOf(Read(one), history) == PlanOf(Read(two), history)
  {
    hide PlanPrefix, Walk, ById, Replaced;
    var l, m := Read(one), Read(two);
    ReadFaithful(one);
    ReadFaithful(two);
    SameTables(l, m);
    if PlanOf(l, history).Ok? {
      PlansToo(l, m, history, |two|);
    }
    if PlanOf(m, history).Ok? {
      PlansToo(m, l, history, |one|);
      PlanHoldsCurrent(l, history, |one|);
      PlanHoldsCurrent(m, history, |two|);
      PlanHoldsHistory(l, history, |one|);
      PlanHoldsHistory(m, history, |two|);
      SamePlan(l, m, history, PlanOf(l, history).value, PlanOf(m, history).value);
    }
  }

  lemma SameTables(one: Listing, two: Listing)
    requires Faithful(one) && Faithful(two)
    requires forall e :: e in one.entries <==> e in two.entries
    ensures one.index == two.index && one.replaced == two.replaced
  {
    forall id | id in one.index
      ensures id in two.index && two.index[id] == one.index[id]
    {
      assert Listed(one.index, one.index[id]);
      assert Listed(two.index, one.index[id]);
    }
    forall id | id in two.index
      ensures id in one.index
    {
      assert Listed(two.index, two.index[id]);
      assert Listed(one.index, two.index[id]);
    }
  }

  lemma SamePlan(one: Listing, two: Listing, history: bool, p: Plan, q: Plan)
    requires Faithful(one) && Faithful(two) && one.index == two.index && one.replaced == two.replaced
    requires HoldsCurrent(one, |one.entries|, p) && HoldsCurrent(two, |two.entries|, q)
    requires HoldsHistory(one, history, |one.entries|, p) && HoldsHistory(two, history, |two.entries|, q)
    ensures p == q
  {
    hide HoldsCurrent, HoldsHistory, Faithful;
    CurrentIn(one, two, p, q);
    CurrentIn(two, one, q, p);
    HistoryIn(one, two, history, p, q);
    HistoryIn(two, one, history, q, p);
    assert p.current == q.current && p.history == q.history;
  }

  lemma CurrentIn(one: Listing, two: Listing, p: Plan, q: Plan)
    requires Faithful(one) && Faithful(two) && one.index == two.index && one.replaced == two.replaced
    requires HoldsCurrent(one, |one.entries|, p) && HoldsCurrent(two, |two.entries|, q)
    ensures forall key :: key in p.current ==> key in q.current && q.current[key] == p.current[key]
  {
    hide RootOf;
    forall key | key in p.current
      ensures key in q.current && q.current[key] == p.current[key]
    {
      assert IsDocument(one, key, p.current[key]);
      assert Listed(one.index, p.current[key]);
      InWhole(two, q, p.current[key]);
    }
  }

  lemma HistoryIn(one: Listing, two: Listing, history: bool, p: Plan, q: Plan)
    requires Faithful(one) && Faithful(two) && one.index == two.index && one.replaced == two.replaced
    requires HoldsHistory(one, history, |one.entries|, p) && HoldsHistory(two, history, |two.entries|, q)
    ensures forall id :: id in p.history ==> id in q.history && q.history[id] == p.history[id]
  {
    forall id | id in p.history
      ensures id in q.history && q.history[id] == p.history[id]
    {
      assert Listed(one.index, p.history[id]);
      hide HoldsHistory, Faithful;
      InKept(two, history, q, p.history[id]);
    }
  }

  lemma InKept(l: Listing, history: bool, p: Plan, e: Entry)
    requires Faithful(l) && HoldsHistory(l, history, |l.entries|, p) && Listed(l.index, e)
    requires e.id in l.replaced && history
    ensures e.id in p.history && p.history[e.id] == e
  {
    assert e in l.entries;
    var i :| 0 <= i < |l.entries| && l.entries[i] == e;
  }
}
