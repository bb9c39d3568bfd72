/**
 Git as the CLI uses it: content-addressed commits, import refs moved by compare-and-swap, and
 the merge base of a local commit with a project's imports.
 */
module GitGraph {
  import opened Prelude
  import opened Worktree

  datatype Author = Importer | Person(name: string)

  datatype Message = ImportOf(project: Uuid) | Note(text: string)

  /** A commit is its content, so equal contents are one commit. */
  datatype Commit = Commit(tree: Tree, parents: seq<Commit>, author: Author, message: Message, time: nat)

  /** `a` is `b` or one of its ancestors. */
  ghost predicate Reaches(a: Commit, b: Commit)
    decreases b
  {
    a == b || exists i :: 0 <= i < |b.parents| && Reaches(a, b.parents[i])
  }

  /** Generations below the farthest root. */
  ghost function Height(c: Commit): nat
    decreases c, 1
  {
    1 + Highest(c.parents)
  }

  ghost function Highest(cs: seq<Commit>): nat
    decreases cs, 0
  {
    if cs == [] then 0
    else
      var head, rest := Height(cs[0]), Highest(cs[1..]);
      if head > rest then head else rest
  }

  lemma {:induction false} HighestBounds(cs: seq<Commit>, i: nat)
    requires i < |cs|
    ensures Height(cs[i]) <= Highest(cs)
    decreases |cs|
  {
    if i > 0 { HighestBounds(cs[1..], i - 1); }
  }

  lemma {:induction false} ReachesHeight(a: Commit, b: Commit)
    requires Reaches(a, b)
    ensures a == b || Height(a) < Height(b)
    decreases b
  {
    if a != b {
      var i :| 0 <= i < |b.parents| && Reaches(a, b.parents[i]);
      ReachesHeight(a, b.parents[i]);
      HighestBounds(b.parents, i);
    }
  }

  lemma ReachesAntisymmetric(a: Commit, b: Commit)
    requires Reaches(a, b) && Reaches(b, a)
    ensures a == b
  {
    ReachesHeight(a, b);
    ReachesHeight(b, a);
  }

  lemma {:induction false} ReachesTrans(a: Commit, b: Commit, c: Commit)
    requires Reaches(a, b) && Reaches(b, c)
    ensures Reaches(a, c)
    decreases c
  {
    if b != c {
      var i :| 0 <= i < |c.parents| && Reaches(b, c.parents[i]);
      ReachesTrans(a, b, c.parents[i]);
    }
  }

  /** A best common ancestor, as `git merge-base` reports. */
  ghost predicate IsMergeBase(m: Commit, a: Commit, b: Commit) {
    && Reaches(m, a) && Reaches(m, b)
    && forall x :: Reaches(x, a) && Reaches(x, b) && Reaches(m, x) ==> x == m
  }

  // ---------------------------------------------------------------- import commits

  /** Merge commits have two parents and people's commits another author. */
  predicate IsImportOf(project: Uuid, c: Commit) {
    c.author.Importer? && c.message == ImportOf(project) && |c.parents| <= 1
  }

  /** Which trees an import of a project may have. */
  type Genuine = (Uuid, Tree) -> bool

  /** A chain of imports of one project, each different from the one before. */
  ghost predicate LinearImports(genuine: Genuine, project: Uuid, c: Commit)
    decreases c
  {
    && IsImportOf(project, c)
    && genuine(project, c.tree)
    && (|c.parents| == 1 ==> c.parents[0].tree != c.tree && LinearImports(genuine, project, c.parents[0]))
  }

  datatype ImportError = RefMoved

  /** The import refs, one per project. */
  type Refs = map<Uuid, Commit>

  function Tip(refs: Refs, project: Uuid): Option<Commit> {
    if project in refs then Some(refs[project]) else None
  }

  function ImportedCommit(project: Uuid, before: Option<Commit>, tree: Tree, now: nat): Commit {
    Commit(tree, if before.Some? then [before.value] else [], Importer, ImportOf(project), now)
  }

  /** Outcome of an import that read `before` from the ref earlier, at the moment of its compare-and-swap. */
  function ImportResult(refs: Refs, project: Uuid, before: Option<Commit>, tree: Tree, now: nat)
    : Result<Commit, ImportError>
  {
    if before.Some? && before.value.tree == tree then Ok(before.value)
    else if Tip(refs, project) != before then Err(RefMoved)
    else Ok(ImportedCommit(project, before, tree, now))
  }

  function ImportRefs(refs: Refs, project: Uuid, before: Option<Commit>, tree: Tree, now: nat): Refs {
    if (before.Some? && before.value.tree == tree) || Tip(refs, project) != before then refs
    else refs[project := ImportedCommit(project, before, tree, now)]
  }

  /** The shared bare repository. */
  class Bare {
    var refs: Refs

    constructor ()
      ensures refs == map[]
    {
      refs := map[];
    }

    /** `git update-ref REF NEW OLD`: moves the ref only from the expected value. */
    method UpdateRef(project: Uuid, next: Commit, expected: Option<Commit>) returns (moved: bool)
      modifies this
      ensures moved <==> Tip(old(refs), project) == expected
      ensures refs == if moved then old(refs)[project := next] else old(refs)
    {
      var tip := Tip(refs, project);
      moved := tip == expected;
      if moved {
        refs := refs[project := next];
      }
    }

    method ImportCommit(project: Uuid, before: Option<Commit>, tree: Tree, now: nat)
      returns (r: Result<Commit, ImportError>)
      modifies this
      ensures r == ImportResult(old(refs), project, before, tree, now)
      ensures refs == ImportRefs(old(refs), project, before, tree, now)
    {
      if before.Some? {
        if before.value.tree == tree {
          return Ok(before.value);
        }
      }
      var parents := if before.Some? then [before.value] else [];
      var id := Commit(tree, parents, Importer, ImportOf(project), now);
      var moved := UpdateRef(project, id, before);
      if !moved {
        return Err(RefMoved);
      }
      return Ok(id);
    }
  }

  // ---------------------------------------------------------------- every interleaving

  /** An import under way: what its process read from the ref. */
  datatype Pending = Pending(project: Uuid, before: Option<Commit>)

  /**
   The import refs, the commits that anybody can build on (ref tips, import results, local commits)
   and the imports under way.
   */
  datatype Repo = Repo(refs: Refs, known: set<Commit>, pending: map<nat, Pending>)

  datatype Event =
    | ReadRef(process: nat, project: Uuid)
    | FinishImport(process: nat, tree: Tree, now: nat)
    | NewCommit(commit: Commit)

  function Init(): Repo {
    Repo(map[], {}, map[])
  }

  /** Any process may take any step at any time; commits other than imports build on known ones. */
  ghost predicate Enabled(genuine: Genuine, r: Repo, e: Event) {
    match e
    case ReadRef(process, project) => true
    case FinishImport(process, tree, now) =>
      process in r.pending && genuine(r.pending[process].project, tree)
    case NewCommit(c) =>
      && (forall i :: 0 <= i < |c.parents| ==> c.parents[i] in r.known)
      && (c.author.Person? || |c.parents| >= 2)
  }

  function Apply(r: Repo, e: Event): Repo {
    match e
    case ReadRef(process, project) => r.(pending := r.pending[process := Pending(project, Tip(r.refs, project))])
    case FinishImport(process, tree, now) =>
      if process !in r.pending then r
      else
        var p := r.pending[process];
        var result := ImportResult(r.refs, p.project, p.before, tree, now);
        Repo(ImportRefs(r.refs, p.project, p.before, tree, now),
             if result.Ok? then r.known + {result.value} else r.known,
             r.pending - {process})
    case NewCommit(c) => r.(known := r.known + {c})
  }

  /** Imports of `project` among the ancestors of `c` lie on the project's chain. */
  ghost predicate Covered(r: Repo, project: Uuid, c: Commit) {
    forall a :: Reaches(a, c) && IsImportOf(project, a) ==>
      project in r.refs && Reaches(a, r.refs[project])
  }

  ghost predicate Inv(genuine: Genuine, r: Repo) {
    && (forall p :: p in r.refs ==> LinearImports(genuine, p, r.refs[p]))
    && (forall i :: i in r.pending && r.pending[i].before.Some? ==>
          r.pending[i].project in r.refs && Reaches(r.pending[i].before.value, r.refs[r.pending[i].project]))
    && (forall p, c :: c in r.known ==> Covered(r, p, c))
  }

  /** A commit with at most one parent adds only itself to the ancestors of that parent. */
  lemma ReachesLine(a: Commit, b: Commit)
    requires |b.parents| <= 1
    ensures Reaches(a, b) <==> a == b || (|b.parents| == 1 && Reaches(a, b.parents[0]))
  {
  }

  lemma {:induction false} ChainOfImports(genuine: Genuine, project: Uuid, tip: Commit, a: Commit)
    requires LinearImports(genuine, project, tip) && Reaches(a, tip)
    ensures LinearImports(genuine, project, a)
    decreases tip
  {
    hide Reaches;
    if a != tip {
      ReachesLine(a, tip);
      ChainOfImports(genuine, project, tip.parents[0], a);
    }
  }

  /** A ref either stays or moves to a commit whose only parent is the old tip and whose tree differs. */
  ghost predicate Advances(r: Repo, r': Repo, project: Uuid) {
    project in r.refs ==>
      && project in r'.refs
      && (r'.refs[project] == r.refs[project]
          || (r'.refs[project].parents == [r.refs[project]] && r'.refs[project].tree != r.refs[project].tree))
  }

  lemma StepAdvances(genuine: Genuine, r: Repo, e: Event, project: Uuid)
    requires Enabled(genuine, r, e)
    ensures Advances(r, Apply(r, e), project)
  {
  }

  lemma AdvanceReaches(r: Repo, r': Repo, project: Uuid, a: Commit)
    requires Advances(r, r', project) && project in r.refs && Reaches(a, r.refs[project])
    ensures Reaches(a, r'.refs[project])
  {
    if r'.refs[project] != r.refs[project] {
      assert r'.refs[project].parents[0] == r.refs[project];
    }
  }

  lemma KeepsCovered(genuine: Genuine, r: Repo, e: Event, project: Uuid, c: Commit)
    requires Enabled(genuine, r, e) && Covered(r, project, c)
    ensures Covered(Apply(r, e), project, c)
  {
    StepAdvances(genuine, r, e, project);
    forall a | Reaches(a, c) && IsImportOf(project, a)
      ensures project in Apply(r, e).refs && Reaches(a, Apply(r, e).refs[project])
    {
      AdvanceReaches(r, Apply(r, e), project, a);
    }
  }

  /** What an import returns is covered, for every project. */
  lemma ImportCovered(genuine: Genuine, r: Repo, e: Event, project: Uuid)
    requires Inv(genuine, r) && Enabled(genuine, r, e) && e.FinishImport?
    requires var p := r.pending[e.process]; ImportResult(r.refs, p.project, p.before, e.tree, e.now).Ok?
    ensures var p := r.pending[e.process];
            Covered(Apply(r, e), project, ImportResult(r.refs, p.project, p.before, e.tree, e.now).value)
  {
    var p := r.pending[e.process];
    var c := ImportResult(r.refs, p.project, p.before, e.tree, e.now).value;
    var r' := Apply(r, e);
    StepAdvances(genuine, r, e, p.project);
    assert LinearImports(genuine, p.project, r'.refs[p.project]) by { FinishKeepsLinear(genuine, r, e, p.project); }
    assert Reaches(c, r'.refs[p.project]) by {
      if p.before == Some(c) {
        AdvanceReaches(r, r', p.project, c);
      }
    }
    forall a | Reaches(a, c) && IsImportOf(project, a)
      ensures project in r'.refs && Reaches(a, r'.refs[project])
    {
      ReachesTrans(a, c, r'.refs[p.project]);
      ChainOfImports(genuine, p.project, r'.refs[p.project], a);
    }
  }

  lemma FinishKeepsLinear(genuine: Genuine, r: Repo, e: Event, project: Uuid)
    requires Inv(genuine, r) && Enabled(genuine, r, e) && project in Apply(r, e).refs
    ensures LinearImports(genuine, project, Apply(r, e).refs[project])
  {
  }

  lemma NewCommitCovered(genuine: Genuine, r: Repo, c: Commit, project: Uuid)
    requires Inv(genuine, r) && Enabled(genuine, r, NewCommit(c))
    ensures Covered(Apply(r, NewCommit(c)), project, c)
  {
    forall a | Reaches(a, c) && IsImportOf(project, a)
      ensures project in r.refs && Reaches(a, r.refs[project])
    {
      var i :| 0 <= i < |c.parents| && Reaches(a, c.parents[i]);
      assert Covered(r, project, c.parents[i]);
    }
  }

  lemma StepKeepsInv(genuine: Genuine, r: Repo, e: Event)
    requires Inv(genuine, r) && Enabled(genuine, r, e)
    ensures Inv(genuine, Apply(r, e))
  {
    var r' := Apply(r, e);
    forall p | p in r'.refs
      ensures LinearImports(genuine, p, r'.refs[p])
    {
      FinishKeepsLinear(genuine, r, e, p);
    }
    forall i | i in r'.pending && r'.pending[i].before.Some?
      ensures r'.pending[i].project in r'.refs && Reaches(r'.pending[i].before.value, r'.refs[r'.pending[i].project])
    {
      if e.ReadRef? && e.process == i {
      } else {
        StepAdvances(genuine, r, e, r'.pending[i].project);
        AdvanceReaches(r, r', r'.pending[i].project, r'.pending[i].before.value);
      }
    }
    forall p, c | c in r'.known
      ensures Covered(r', p, c)
    {
      if c in r.known {
        KeepsCovered(genuine, r, e, p, c);
      } else if e.NewCommit? {
        NewCommitCovered(genuine, r, c, p);
      } else {
        ImportCovered(genuine, r, e, p);
      }
    }
  }

  /** States of a run: each comes from the one before by a step of some process or person. */
  ghost predicate Run(genuine: Genuine, states: seq<Repo>) {
    |states| > 0 && forall i :: 0 <= i < |states| - 1 ==> Steps(genuine, states[i], states[i + 1])
  }

  ghost predicate Steps(genuine: Genuine, r: Repo, r': Repo) {
    exists e :: Enabled(genuine, r, e) && r' == Apply(r, e)
  }

  lemma {:induction false} RunKeepsInv(genuine: Genuine, states: seq<Repo>, n: nat)
    requires Run(genuine, states) && Inv(genuine, states[0]) && n < |states|
    ensures Inv(genuine, states[n])
    decreases n
  {
    if n > 0 {
      RunKeepsInv(genuine, states, n - 1);
      assert Steps(genuine, states[n - 1], states[n]);
      var e :| Enabled(genuine, states[n - 1], e) && states[n] == Apply(states[n - 1], e);
      StepKeepsInv(genuine, states[n - 1], e);
    }
  }

  /**
   In every run from an empty repository each project's import ref is a line of import commits of
   that project with differing neighbours, and no commit is an ancestor of two projects' refs.
   */
  lemma ImportsAreLinearAndIsolated(genuine: Genuine, states: seq<Repo>, n: nat)
    requires Run(genuine, states) && states[0] == Init() && n < |states|
    ensures forall p :: p in states[n].refs ==> LinearImports(genuine, p, states[n].refs[p])
    ensures forall p, q, a ::
              (p in states[n].refs && q in states[n].refs
               && Reaches(a, states[n].refs[p]) && Reaches(a, states[n].refs[q])) ==> p == q
  {
    RunKeepsInv(genuine, states, n);
    var refs := states[n].refs;
    forall p, q, a | p in refs && q in refs && Reaches(a, refs[p]) && Reaches(a, refs[q])
      ensures p == q
    {
      ChainOfImports(genuine, p, refs[p], a);
      ChainOfImports(genuine, q, refs[q], a);
    }
  }

  /**
   A finished import returns a commit of the ref's chain: the tip it had read, when the tree is
   unchanged, or one commit on top of the tip it found. A ref that has moved is left alone, and so
   are the refs of other projects.
   */
  lemma ImportExtendsOrKeeps(genuine: Genuine, r: Repo, process: nat, tree: Tree, now: nat)
    requires Inv(genuine, r) && Enabled(genuine, r, FinishImport(process, tree, now))
    ensures var p := r.pending[process]; var r' := Apply(r, FinishImport(process, tree, now));
            var result := ImportResult(r.refs, p.project, p.before, tree, now);
            && (result.Ok? ==>
                  p.project in r'.refs && Reaches(result.value, r'.refs[p.project]) && result.value.tree == tree)
            && (result.Ok? && r'.refs != r.refs ==>
                  r'.refs[p.project] == result.value
                  && result.value.parents == (if p.project in r.refs then [r.refs[p.project]] else []))
            && (p.before.Some? && p.before.value.tree == tree ==> result == Ok(p.before.value) && r'.refs == r.refs)
            && (result.Ok? && r'.refs != r.refs ==> IsImportOf(p.project, result.value) && result.value.time == now)
            && (result.Err? <==> Tip(r.refs, p.project) != p.before && !(p.before.Some? && p.before.value.tree == tree))
            && (result.Err? ==> r'.refs == r.refs)
            && (forall q :: q != p.project ==> Tip(r'.refs, q) == Tip(r.refs, q))
  {
    hide LinearImports, Covered;
    var e := FinishImport(process, tree, now);
    var p := r.pending[process];
    StepAdvances(genuine, r, e, p.project);
    var result := ImportResult(r.refs, p.project, p.before, tree, now);
    if result.Ok? {
      if p.before == Some(result.value) {
        AdvanceReaches(r, Apply(r, e), p.project, result.value);
      }
      ReachesSelf(result.value);
    }
  }

  // ---------------------------------------------------------------- merge bases

  /** The latest commit of the chain below `tip` that `c` contains. */
  ghost function ImportBase(c: Commit, tip: Commit): Option<Commit>
    decreases tip
  {
    if Reaches(tip, c) then Some(tip)
    else if |tip.parents| == 1 then ImportBase(c, tip.parents[0])
    else None
  }

  lemma {:induction false} ImportBaseIsBest(genuine: Genuine, project: Uuid, c: Commit, tip: Commit)
    requires LinearImports(genuine, project, tip)
    ensures match ImportBase(c, tip)
            case Some(m) => Reaches(m, c) && Reaches(m, tip) && LinearImports(genuine, project, m)
                            && forall a :: Reaches(a, c) && Reaches(a, tip) ==> Reaches(a, m)
            case None => forall a :: Reaches(a, c) ==> !Reaches(a, tip)
    decreases tip
  {
    hide Reaches;
    if Reaches(tip, c) {
      ReachesSelf(tip);
    } else {
      forall a
        ensures Reaches(a, tip) <==> a == tip || (|tip.parents| == 1 && Reaches(a, tip.parents[0]))
      {
        ReachesLine(a, tip);
      }
      if |tip.parents| == 1 {
        ImportBaseIsBest(genuine, project, c, tip.parents[0]);
      }
    }
  }

  lemma ReachesSelf(c: Commit)
    ensures Reaches(c, c)
  {
  }

  lemma LinearIsImport(genuine: Genuine, project: Uuid, c: Commit)
    requires LinearImports(genuine, project, c)
    ensures IsImportOf(project, c)
  {
  }

  /**
   For any commit anybody has made, the merge base with a project's import ref is unique: it is the
   latest import of the project merged into the commit.
   */
  lemma MergeBaseIsLatestImport(genuine: Genuine, r: Repo, project: Uuid, c: Commit)
    requires Inv(genuine, r) && c in r.known && project in r.refs
    ensures match ImportBase(c, r.refs[project])
            case Some(m) =>
              && IsImportOf(project, m) && Reaches(m, c)
              && (forall a :: Reaches(a, c) && IsImportOf(project, a) ==> Reaches(a, m))
              && (forall x :: IsMergeBase(x, c, r.refs[project]) <==> x == m)
            case None =>
              && (forall a :: Reaches(a, c) ==> !IsImportOf(project, a))
              && (forall x :: !IsMergeBase(x, c, r.refs[project]))
  {
    hide Reaches, LinearImports, ImportBase;
    var tip := r.refs[project];
    ImportBaseIsBest(genuine, project, c, tip);
    assert Covered(r, project, c);
    match ImportBase(c, tip) {
      case Some(m) =>
        LinearIsImport(genuine, project, m);
        forall x | Reaches(x, c) && Reaches(x, tip) && Reaches(m, x)
          ensures x == m
        {
          ReachesAntisymmetric(m, x);
        }
        assert IsMergeBase(m, c, tip);
      case None =>
    }
  }

  /** Steps after a commit was made do not move its merge base. */
  lemma StepKeepsBase(genuine: Genuine, r: Repo, r': Repo, project: Uuid, c: Commit)
    requires Inv(genuine, r) && Steps(genuine, r, r') && c in r.known && project in r.refs
    ensures c in r'.known && project in r'.refs
    ensures ImportBase(c, r'.refs[project]) == ImportBase(c, r.refs[project])
  {
    hide Reaches, LinearImports;
    var e :| Enabled(genuine, r, e) && r' == Apply(r, e);
    StepAdvances(genuine, r, e, project);
    var tip, next := r.refs[project], r'.refs[project];
    if next != tip {
      assert Covered(r, project, c);
      ReachesLine(tip, next);
      ReachesSelf(tip);
      if Reaches(next, c) {
        ReachesAntisymmetric(next, tip);
        assert false;
      }
    }
  }

  /** So a retry at any later time finds the base that the first try found. */
  lemma {:induction false} MergeBaseNeverMoves(genuine: Genuine, states: seq<Repo>, project: Uuid, c: Commit, n: nat)
    requires Run(genuine, states) && Inv(genuine, states[0]) && n < |states|
    requires c in states[0].known && project in states[0].refs
    ensures c in states[n].known && project in states[n].refs
    ensures ImportBase(c, states[n].refs[project]) == ImportBase(c, states[0].refs[project])
    decreases n
  {
    hide Reaches, ImportBase, Inv, Steps;
    if n > 0 {
      MergeBaseNeverMoves(genuine, states, project, c, n - 1);
      RunKeepsInv(genuine, states, n - 1);
      assert Steps(genuine, states[n - 1], states[n]);
      StepKeepsBase(genuine, states[n - 1], states[n], project, c);
    }
  }
}
