/** Repeated checkouts of one project: which invocations go ahead and what becomes of the history flag. */
module Refresh {
  import opened Prelude
  import opened Memory
  import opened Lineage
  import opened Checkout
  import opened Worktree

  /** A worktree found on disk: what Git says about it, and the tree of its HEAD. */
  datatype Existing = Existing(sameRepository: bool, clean: bool, head: Tree)

  /** The command's arguments and the listing it has fetched. */
  datatype Invocation = Invocation(
    endpoint: string,
    project: Uuid,
    projectData: Json,
    entries: seq<Entry>,
    history: bool,
    refresh: bool)

  datatype Refusal =
    | CheckoutExists
    | NoCheckout
    | OtherRepository
    | LocalChanges
    | Unreadable(reason: ReadError)
    | OtherCheckout
    | NoPlan(why: CheckoutError)

  /** The checks before an import, and the flag it then uses: as asked, or as the worktree already has it. */
  function HistoryFlag(codec: Codec, dir: Option<Existing>, i: Invocation): Result<bool, Refusal> {
    match dir
    case None => if i.refresh then Err(NoCheckout) else Ok(i.history)
    case Some(found) =>
      if !i.refresh then Err(CheckoutExists)
      else if !found.sameRepository then Err(OtherRepository)
      else if !found.clean then Err(LocalChanges)
      else match ShowJson(codec, found.head, ProjectFile)
        case Err(e) => Err(Unreadable(e))
        case Ok(saved) =>
          if Get(saved, "endpoint") != Str(i.endpoint) || Get(Get(saved, "project"), "id") != Str(i.project)
          then Err(OtherCheckout)
          else Ok(i.history || Get(saved, "includes_history") == Bool(true))
  }

  /** What an invocation imports, or why it does not. */
  function Import(codec: Codec, dir: Option<Existing>, i: Invocation): Result<Snapshot, Refusal> {
    match HistoryFlag(codec, dir, i)
    case Err(e) => Err(e)
    case Ok(history) =>
      match PlanOf(Read(i.entries), history)
      case Err(e) => Err(NoPlan(e))
      case Ok(plan) => Ok(Snapshot(i.endpoint, i.project, i.projectData, history, plan))
  }

  // ---------------------------------------------------------------- when an import goes ahead

  /** A worktree of this repository, without local changes, whose HEAD belongs to this endpoint and project. */
  ghost predicate Refreshable(codec: Codec, found: Existing, i: Invocation, saved: Json) {
    && found.sameRepository && found.clean
    && JsonAt(codec, found.head, ProjectFile, saved)
    && Get(saved, "endpoint") == Str(i.endpoint) && Get(Get(saved, "project"), "id") == Str(i.project)
  }

  ghost predicate MayStart(codec: Codec, dir: Option<Existing>, i: Invocation) {
    if i.refresh then dir.Some? && exists saved :: Refreshable(codec, dir.value, i, saved) else dir.None?
  }

  lemma FlagOkIff(codec: Codec, dir: Option<Existing>, i: Invocation)
    ensures HistoryFlag(codec, dir, i).Ok? <==> MayStart(codec, dir, i)
  {
    if dir.Some? {
      var shown := ShowJson(codec, dir.value.head, ProjectFile);
      if shown.Ok? {
        ShowJsonAt(codec, dir.value.head, ProjectFile, shown.value);
        if HistoryFlag(codec, dir, i).Ok? {
          assert Refreshable(codec, dir.value, i, shown.value);
        }
      }
    }
  }

  /**
   An import goes ahead exactly when its listing can be planned and there is no worktree yet, or it
   is a refresh of a clean worktree of this repository whose HEAD belongs to the same endpoint and
   project; it then records the invocation's own endpoint, project and listing.
   */
  lemma ImportOkIff(codec: Codec, dir: Option<Existing>, i: Invocation)
    ensures Import(codec, dir, i).Ok? <==> MayStart(codec, dir, i) && PlanOf(Read(i.entries), i.history).Ok?
    ensures Import(codec, dir, i).Ok? ==>
              var s := Import(codec, dir, i).value;
              && s.endpoint == i.endpoint && s.project == i.project && s.projectData == i.projectData
              && PlanOf(Read(i.entries), s.includesHistory) == Ok(s.plan)
              && (i.history ==> s.includesHistory)
  {
    hide PlanPrefix, ById, Replaced;
    FlagOkIff(codec, dir, i);
    HistoryDoesNotMatter(Read(i.entries), |i.entries|);
  }

  /** Why an import is refused, in the order in which it is checked. */
  lemma RefusalMeaning(codec: Codec, dir: Option<Existing>, i: Invocation)
    ensures Import(codec, dir, i) == Err(NoCheckout) <==> dir.None? && i.refresh
    ensures Import(codec, dir, i) == Err(CheckoutExists) <==> dir.Some? && !i.refresh
    ensures Import(codec, dir, i) == Err(OtherRepository) <==> dir.Some? && i.refresh && !dir.value.sameRepository
    ensures Import(codec, dir, i) == Err(LocalChanges) <==>
              dir.Some? && i.refresh && dir.value.sameRepository && !dir.value.clean
    ensures Import(codec, dir, i).Err? && Import(codec, dir, i).error.NoPlan? ==> MayStart(codec, dir, i)
  {
    hide PlanPrefix, ById, Replaced;
    FlagOkIff(codec, dir, i);
  }

  // ---------------------------------------------------------------- any sequence of invocations

  /**
   An invocation, the worktree it finds, and what becomes of the import it commits: `landed` when the
   merge into the worktree completes, at once or by hand, and not when it is aborted or the first
   worktree cannot be made.
   */
  datatype Attempt = Attempt(dir: Option<Existing>, call: Invocation, landed: bool)

  /** What an attempt imports, or why it does not. */
  function Imports(codec: Codec, a: Attempt): Result<Snapshot, Refusal> {
    Import(codec, a.dir, a.call)
  }

  /** The import that the worktree holds after the first `n` attempts; others leave it alone. */
  function Last(codec: Codec, attempts: seq<Attempt>, n: nat): Option<Snapshot>
    requires n <= |attempts|
  {
    if n == 0 then None
    else
      var a := attempts[n - 1];
      var r := Imports(codec, a);
      if r.Ok? && a.landed then Some(r.value) else Last(codec, attempts, n - 1)
  }

  /**
   Between attempts anybody may commit anything except to the project file, which stays as the last
   merged import wrote it.
   */
  predicate Keeps(codec: Codec, last: Option<Snapshot>, dir: Option<Existing>) {
    match last
    case None => dir.None?
    case Some(s) =>
      dir.Some? && ProjectFile in dir.value.head && dir.value.head[ProjectFile] == codec.render(ProjectJson(s))
  }

  ghost predicate OneWorktree(codec: Codec, attempts: seq<Attempt>) {
    forall k :: 0 <= k < |attempts| ==> Keeps(codec, Last(codec, attempts, k), attempts[k].dir)
  }

  /** Attempt `k` had been asked for history, imported, and was merged. */
  predicate Asked(codec: Codec, attempts: seq<Attempt>, k: nat)
    requires k < |attempts|
  {
    attempts[k].call.history && Imports(codec, attempts[k]).Ok? && attempts[k].landed
  }

  ghost predicate AskedBefore(codec: Codec, attempts: seq<Attempt>, n: nat)
    requires n <= |attempts|
  {
    exists k :: 0 <= k < n && Asked(codec, attempts, k)
  }

  /** An import's flag is its own argument or the flag the worktree holds. */
  lemma FlagFromWorktree(codec: Codec, last: Option<Snapshot>, a: Attempt)
    requires RoundTrips(codec) && Keeps(codec, last, a.dir)
    ensures Imports(codec, a).Ok? ==>
              Imports(codec, a).value.includesHistory == (a.call.history || (last.Some? && last.value.includesHistory))
  {
    hide PlanOf, Read;
    if last.Some? {
      assert ShowJson(codec, a.dir.value.head, ProjectFile) == Ok(ProjectJson(last.value));
      assert Get(ProjectJson(last.value), "includes_history") == Bool(last.value.includesHistory);
    }
  }

  /**
   Over any sequence of first checkouts, refreshes, refusals and aborted merges the flag of the
   worktree is on exactly when some merged import had been asked for history, so it never goes off.
   */
  lemma {:induction false} HistoryNeverDrops(codec: Codec, attempts: seq<Attempt>, n: nat)
    requires RoundTrips(codec) && OneWorktree(codec, attempts) && n <= |attempts|
    ensures AskedBefore(codec, attempts, n) <==>
            Last(codec, attempts, n).Some? && Last(codec, attempts, n).value.includesHistory
    decreases n
  {
    hide Imports, Keeps;
    if n > 0 {
      HistoryNeverDrops(codec, attempts, n - 1);
      var a := attempts[n - 1];
      assert Keeps(codec, Last(codec, attempts, n - 1), a.dir);
      FlagFromWorktree(codec, Last(codec, attempts, n - 1), a);
      assert Asked(codec, attempts, n - 1) <==> a.call.history && Imports(codec, a).Ok? && a.landed;
    }
  }

  // ---------------------------------------------------------------- which imports write history

  /** Every replaced entry of the listing is in the history directory. */
  ghost predicate WritesHistory(s: Snapshot, entries: seq<Entry>) {
    forall e :: e in entries && e.id in Replaced(entries) ==> e.id in s.plan.history && s.plan.history[e.id] == e
  }

  lemma HistoryWritten(codec: Codec, a: Attempt)
    requires Imports(codec, a).Ok? && UniqueIds(a.call.entries)
    ensures var s := Imports(codec, a).value;
            if s.includesHistory then WritesHistory(s, a.call.entries) else s.plan.history == map[]
  {
    var s, l := Imports(codec, a).value, Read(a.call.entries);
    assert PlanOf(l, s.includesHistory) == Ok(s.plan);
    hide Import, PlanPrefix, RootOf, ById;
    PlanHoldsHistory(l, s.includesHistory, |l.entries|);
    forall e | e in a.call.entries && e.id in Replaced(a.call.entries) && s.includesHistory
      ensures e.id in s.plan.history && s.plan.history[e.id] == e
    {
      var i :| 0 <= i < |l.entries| && l.entries[i] == e;
    }
    assert !s.includesHistory ==> forall id :: id !in s.plan.history;
  }

  /** An import has the history flag exactly when it is asked to or some import merged before it was. */
  lemma HistoryFlagIff(codec: Codec, attempts: seq<Attempt>, n: nat)
    requires RoundTrips(codec) && OneWorktree(codec, attempts) && n < |attempts|
    requires Imports(codec, attempts[n]).Ok?
    ensures Imports(codec, attempts[n]).value.includesHistory <==>
            attempts[n].call.history || AskedBefore(codec, attempts, n)
  {
    hide Imports;
    HistoryNeverDrops(codec, attempts, n);
    assert Keeps(codec, Last(codec, attempts, n), attempts[n].dir);
    FlagFromWorktree(codec, Last(codec, attempts, n), attempts[n]);
  }

  /** It then writes every replaced entry of its listing, and otherwise no history at all. */
  lemma HistoryWrittenIff(codec: Codec, attempts: seq<Attempt>, n: nat)
    requires RoundTrips(codec) && OneWorktree(codec, attempts) && n < |attempts|
    requires Imports(codec, attempts[n]).Ok? && UniqueIds(attempts[n].call.entries)
    ensures var s, call := Imports(codec, attempts[n]).value, attempts[n].call;
            if call.history || AskedBefore(codec, attempts, n)
            then WritesHistory(s, call.entries) else s.plan.history == map[]
  {
    hide Imports, WritesHistory;
    HistoryFlagIff(codec, attempts, n);
    HistoryWritten(codec, attempts[n]);
  }

  /**
   After an import that wrote history, the next one that does not ask for it still writes it exactly
   when the first was merged or the worktree had history already.
   */
  lemma NextKeepsHistoryIff(codec: Codec, attempts: seq<Attempt>, n: nat)
    requires RoundTrips(codec) && OneWorktree(codec, attempts) && n + 1 < |attempts|
    requires Imports(codec, attempts[n]).Ok? && Imports(codec, attempts[n]).value.includesHistory
    requires Imports(codec, attempts[n + 1]).Ok? && !attempts[n + 1].call.history
    ensures Imports(codec, attempts[n + 1]).value.includesHistory <==>
            attempts[n].landed || AskedBefore(codec, attempts, n)
  {
    hide Imports;
    HistoryFlagIff(codec, attempts, n);
    HistoryFlagIff(codec, attempts, n + 1);
    assert Asked(codec, attempts, n) <==> attempts[n].call.history && attempts[n].landed;
  }

  /** Once an import with history has been merged, every later import writes every replaced entry. */
  lemma HistoryStaysMaterialized(codec: Codec, attempts: seq<Attempt>, k: nat, n: nat)
    requires RoundTrips(codec) && OneWorktree(codec, attempts)
    requires k < n < |attempts| && Asked(codec, attempts, k)
    requires Imports(codec, attempts[n]).Ok? && UniqueIds(attempts[n].call.entries)
    ensures WritesHistory(Imports(codec, attempts[n]).value, attempts[n].call.entries)
  {
    HistoryWrittenIff(codec, attempts, n);
  }

  /** A file that both sides have changed since `base`, and differently. */
  predicate BothChanged(base: Tree, ours: Tree, theirs: Tree, path: TreePath) {
    path in base && path in ours && path in theirs
    && base[path] != ours[path] && base[path] != theirs[path] && ours[path] != theirs[path]
  }

  /**
   An import that wrote history but whose merge is aborted is forgotten. After a checkout a person
   retitles a document that somebody else revises and retitles as well, so that the merge of a
   refresh with history stops at the title; it is aborted, and a plain refresh writes no history.
   */
  lemma AbortedMergeForgetsHistory(codec: Codec, first: Invocation, original: Entry, revision: Entry, title: string)
    returns (attempts: seq<Attempt>)
    requires RoundTrips(codec) && !first.refresh && !first.history && first.entries == [original]
    requires Get(first.projectData, "id") == Str(first.project)
    requires original.id != revision.id && original.supersedes == None && revision.supersedes == Some(original.id)
    requires SameScope(original, revision)
    requires original.title != revision.title && title != original.title && title != revision.title
    ensures |attempts| == 3 && OneWorktree(codec, attempts)
    ensures var plain := first.(entries := [original, revision], refresh := true);
            && attempts[0].call == first && attempts[0].landed
            && attempts[1].call == plain.(history := true) && !attempts[1].landed
            && attempts[2].call == plain
    ensures Imports(codec, attempts[0]).Ok? && Imports(codec, attempts[1]).Ok? && Imports(codec, attempts[2]).Ok?
    ensures attempts[1].dir.Some? && attempts[1].dir == attempts[2].dir
    ensures BothChanged(TreeOf(codec, Imports(codec, attempts[0]).value), attempts[1].dir.value.head,
                        TreeOf(codec, Imports(codec, attempts[1]).value), Doc(Current, original.id, Title))
    ensures Imports(codec, attempts[1]).value.plan.history == map[original.id := original]
    ensures Imports(codec, attempts[2]).value.plan.history == map[]
  {
    hide *;
    TwoRevisions(original, revision, false);
    TwoRevisions(original, revision, true);
    var plain := first.(entries := [original, revision], refresh := true);
    var start := Attempt(None, first, true);
    Started(codec, start);
    var s := Imports(codec, start).value;
    var head := Edited(codec, TreeOf(codec, s), original.id, title, original.content);
    EditKeepsProject(codec, s, original.id, title, original.content);
    var found := Some(Existing(true, true, head));
    var aborted := Attempt(found, plain.(history := true), false);
    var last := Attempt(found, plain, true);
    attempts := [start, aborted, last];
    Accepted(codec, s, aborted);
    Accepted(codec, s, last);
    Holds(codec, attempts, s);
    ImportPlans(codec, start);
    ImportPlans(codec, aborted);
    ImportPlans(codec, last);
    FlagFromWorktree(codec, Some(s), aborted);
    FlagFromWorktree(codec, Some(s), last);
    TitlesDiffer(codec, s, Imports(codec, aborted).value, original, revision, title);
  }

  lemma EditKeepsProject(codec: Codec, s: Snapshot, key: Uuid, title: string, content: Json)
    ensures var head := Edited(codec, TreeOf(codec, s), key, title, content);
            ProjectFile in head && head[ProjectFile] == codec.render(ProjectJson(s))
  {
  }

  lemma TitlesDiffer(codec: Codec, s: Snapshot, t: Snapshot, original: Entry, revision: Entry, title: string)
    requires s.plan.current == map[original.id := original] && t.plan.current == map[original.id := revision]
    requires original.title != revision.title && title != original.title && title != revision.title
    ensures BothChanged(TreeOf(codec, s), Edited(codec, TreeOf(codec, s), original.id, title, original.content),
                        TreeOf(codec, t), Doc(Current, original.id, Title))
  {
    TreeHasDoc(codec, s, Current, original.id, Title);
    TreeHasDoc(codec, t, Current, original.id, Title);
  }

  lemma ImportPlans(codec: Codec, a: Attempt)
    requires Imports(codec, a).Ok?
    ensures var s := Imports(codec, a).value;
            PlanOf(Read(a.call.entries), s.includesHistory) == Ok(s.plan)
  {
  }

  /** The worktree keeps its first import through an aborted merge. */
  lemma Holds(codec: Codec, attempts: seq<Attempt>, s: Snapshot)
    requires |attempts| == 3 && Imports(codec, attempts[0]) == Ok(s)
    requires attempts[0].landed && !attempts[1].landed && attempts[0].dir == None
    requires Keeps(codec, Some(s), attempts[1].dir) && Keeps(codec, Some(s), attempts[2].dir)
    ensures OneWorktree(codec, attempts)
  {
    hide Imports;
    assert Last(codec, attempts, 0) == None;
    assert Last(codec, attempts, 1) == Some(s);
    assert Last(codec, attempts, 2) == Some(s);
  }

  /** Without a worktree a first checkout goes ahead. */
  lemma Started(codec: Codec, a: Attempt)
    requires a.dir == None && !a.call.refresh && PlanOf(Read(a.call.entries), a.call.history).Ok?
    ensures Imports(codec, a).Ok?
    ensures var s := Imports(codec, a).value;
            s.endpoint == a.call.endpoint && s.projectData == a.call.projectData && s.includesHistory == a.call.history
  {
    hide PlanOf, Read;
  }

  /** A clean worktree that holds an import of the same project lets a refresh go ahead. */
  lemma Accepted(codec: Codec, s: Snapshot, a: Attempt)
    requires RoundTrips(codec) && a.dir.Some? && a.dir.value.sameRepository && a.dir.value.clean && a.call.refresh
    requires ProjectFile in a.dir.value.head && a.dir.value.head[ProjectFile] == codec.render(ProjectJson(s))
    requires s.endpoint == a.call.endpoint && Get(s.projectData, "id") == Str(a.call.project)
    requires PlanOf(Read(a.call.entries), true).Ok? && PlanOf(Read(a.call.entries), false).Ok?
    ensures Imports(codec, a).Ok? && Keeps(codec, Some(s), a.dir)
  {
    hide PlanOf, Read;
    assert ShowJson(codec, a.dir.value.head, ProjectFile) == Ok(ProjectJson(s));
    assert Get(ProjectJson(s), "endpoint") == Str(s.endpoint);
    assert Get(ProjectJson(s), "project") == s.projectData;
  }
}
