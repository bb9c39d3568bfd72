/** Publication of one committed document, built from immutable commits only. */
module Publish {
  import opened Prelude
  import opened Memory
  import opened Lineage
  import opened Checkout
  import opened Worktree
  import opened GitGraph

  /** The command's arguments other than the commit and the document. */
  datatype Arguments = Arguments(
    task: Uuid,
    contextRevision: Uuid,
    basis: string,
    verificationStatus: string,
    artifacts: seq<Uuid>,
    decisions: seq<Uuid>,
    key: Uuid)

  datatype Request = Request(
    baseCommit: Option<string>,
    task: Uuid,
    idempotencyKey: string,
    newMemory: Option<Uuid>,
    expectedProject: Option<Uuid>,
    title: string,
    content: Json,
    verificationStatus: string,
    basis: string,
    contextRevision: Uuid,
    artifacts: seq<Uuid>,
    decisions: seq<Uuid>,
    supersedes: Option<Uuid>)

  datatype PublishError =
    | Unreadable(reason: ReadError)
    | NotAnId
    | NoMergeBase
    | DraftMustBeBare
    | MetadataChanged
    | NotPublishable
    | ContentFiles
    | OtherEndpoint

  function IdOf(value: Json): Result<Uuid, PublishError> {
    if value.Str? then Ok(value.text) else Err(NotAnId)
  }

  /** The text of a JSON string, if it is one. */
  function TextOf(value: Json): Option<string> {
    if value.Str? then Some(value.text) else None
  }

  function Draft(): Json {
    Obj(map["draft" := Bool(true)])
  }

  /** The metadata must be that of the import, or a bare draft for a document the import lacks. */
  function CheckMetadata(codec: Codec, base: Tree, memory: Uuid, metadata: Json): Result<(), PublishError> {
    var path := Doc(Current, memory, Metadata);
    if path !in base then
      if metadata == Draft() then Ok(()) else Err(DraftMustBeBare)
    else match ShowJson(codec, base, path)
      case Err(e) => Err(Unreadable(e))
      case Ok(imported) => if metadata == imported then Ok(()) else Err(MetadataChanged)
  }

  function Supersedes(project: Uuid, metadata: Json): Result<Option<Uuid>, PublishError> {
    if Get(metadata, "draft") == Bool(true) then Ok(None)
    else if Get(metadata, "scope_type") == Str("project") && Get(metadata, "project_id") == Str(project)
            && Get(metadata, "visibility") == Str("shared") then
      match IdOf(Get(metadata, "id"))
      case Err(e) => Err(e)
      case Ok(id) => Ok(Some(id))
    else Err(NotPublishable)
  }

  function Content(codec: Codec, tree: Tree, memory: Uuid): Result<Json, PublishError> {
    if (Doc(Current, memory, Markdown) in tree) == (Doc(Current, memory, Structured) in tree) then Err(ContentFiles)
    else match DocContent(codec, tree, memory)
      case Err(e) => Err(Unreadable(e))
      case Ok(value) => Ok(value)
  }

  /** The request for document `memory` of commit `c`, given the import refs of the moment. */
  ghost function Publish(codec: Codec, refs: Refs, c: Commit, memory: Uuid, args: Arguments, endpoint: string)
    : Result<Request, PublishError>
  {
    match ShowJson(codec, c.tree, ProjectFile)
    case Err(e) => Err(Unreadable(e))
    case Ok(projectData) =>
    match IdOf(Get(Get(projectData, "project"), "id"))
    case Err(e) => Err(e)
    case Ok(project) =>
    match ShowJson(codec, c.tree, Doc(Current, memory, Metadata))
    case Err(e) => Err(Unreadable(e))
    case Ok(metadata) =>
    match (if project in refs then ImportBase(c, refs[project]) else None)
    case None => Err(NoMergeBase)
    case Some(base) =>
    match CheckMetadata(codec, base.tree, memory, metadata)
    case Err(e) => Err(e)
    case Ok(_) =>
    match Supersedes(project, metadata)
    case Err(e) => Err(e)
    case Ok(supersedes) =>
    match Content(codec, c.tree, memory)
    case Err(e) => Err(e)
    case Ok(content) =>
    match Show(c.tree, Doc(Current, memory, Title))
    case Err(e) => Err(Unreadable(e))
    case Ok(title) =>
      if Get(projectData, "endpoint") != Str(endpoint) then Err(OtherEndpoint)
      else Ok(Request(
        TextOf(Get(Get(projectData, "project"), "memory_head")),
        args.task, args.key,
        if supersedes.None? then Some(memory) else None,
        Some(project), title, content, args.verificationStatus, args.basis, args.contextRevision,
        args.artifacts, args.decisions, supersedes))
  }

  // ---------------------------------------------------------------- properties

  /** The project a commit says it belongs to. */
  function ProjectOf(codec: Codec, c: Commit): Option<Uuid> {
    match ShowJson(codec, c.tree, ProjectFile)
    case Err(_) => None
    case Ok(data) => TextOf(Get(Get(data, "project"), "id"))
  }

  /** Genuine imports have the trees that `checkout` writes. */
  ghost predicate FromCheckouts(codec: Codec, genuine: Genuine) {
    forall p, t {:trigger Imported(codec, p, t)} :: genuine(p, t) ==> Imported(codec, p, t)
  }

  /** The revision that the import `base` recorded for document `memory`. */
  ghost predicate Recorded(codec: Codec, project: Uuid, base: Commit, memory: Uuid, revision: Entry) {
    exists s, entries ::
      && IsImport(codec, project, base.tree, s, entries)
      && memory in s.plan.current && s.plan.current[memory] == revision
      && revision in entries && RootOf(ById(entries), revision) == Ok(memory)
  }

  lemma SupersedesImported(project: Uuid, e: Entry)
    ensures Supersedes(project, MetadataOf(e)) ==
              if e.scope == "project" && e.project == Some(project) && e.visibility == "shared"
              then Ok(Some(e.id)) else Err(NotPublishable)
  {
    var m := MetadataOf(e);
    assert Get(m, "draft") == Null;
    assert Get(m, "scope_type") == Str(e.scope) && Get(m, "visibility") == Str(e.visibility);
    assert Get(m, "project_id") == OrNull(e.project) && Get(m, "id") == Str(e.id);
  }

  lemma SupersedesDraft(project: Uuid)
    ensures Supersedes(project, Draft()) == Ok(None)
  {
    assert Get(Draft(), "draft") == Bool(true);
  }

  /** What a built request owes to the metadata and to the merge base. */
  lemma PublishedFrom(
    codec: Codec, refs: Refs, project: Uuid, c: Commit, memory: Uuid, args: Arguments, endpoint: string)
    requires ProjectOf(codec, c) == Some(project)
    requires Publish(codec, refs, c, memory, args, endpoint).Ok?
    ensures project in refs && ImportBase(c, refs[project]).Some?
    ensures var q := Publish(codec, refs, c, memory, args, endpoint).value;
            var metadata := ShowJson(codec, c.tree, Doc(Current, memory, Metadata));
            && metadata.Ok?
            && CheckMetadata(codec, ImportBase(c, refs[project]).value.tree, memory, metadata.value).Ok?
            && Supersedes(project, metadata.value) == Ok(q.supersedes)
            && q.newMemory == (if q.supersedes.None? then Some(memory) else None)
            && q.expectedProject == Some(project)
  {
    hide CheckMetadata, Supersedes, Content, Show, ShowJson, ImportBase, Get;
  }

  // ---------------------------------------------------------------- when publication is refused

  /** A whole document directory: a title, and exactly one content file, which can be read. */
  ghost predicate HasDocument(codec: Codec, tree: Tree, memory: Uuid) {
    var markdown, structured := Doc(Current, memory, Markdown), Doc(Current, memory, Structured);
    && Doc(Current, memory, Title) in tree
    && (markdown in tree <==> structured !in tree)
    && (structured in tree ==> exists value :: JsonAt(codec, tree, structured, value))
  }

  /** The metadata is the import's, unchanged, or a bare draft where the import has no such document. */
  ghost predicate SourceUnchanged(codec: Codec, base: Tree, memory: Uuid, metadata: Json) {
    var path := Doc(Current, memory, Metadata);
    if path in base then JsonAt(codec, base, path, metadata) else metadata == Obj(map["draft" := Bool(true)])
  }

  /** A draft, or a revision that is shared within this project and has an id. */
  ghost predicate MayBePublished(project: Uuid, metadata: Json) {
    Get(metadata, "draft") == Bool(true)
    || (Get(metadata, "scope_type") == Str("project") && Get(metadata, "project_id") == Str(project)
        && Get(metadata, "visibility") == Str("shared") && Get(metadata, "id").Str?)
  }

  ghost predicate Publishable(
    codec: Codec, refs: Refs, c: Commit, memory: Uuid, endpoint: string, project: Uuid, data: Json, metadata: Json)
  {
    && JsonAt(codec, c.tree, ProjectFile, data)
    && Get(data, "endpoint") == Str(endpoint) && Get(Get(data, "project"), "id") == Str(project)
    && JsonAt(codec, c.tree, Doc(Current, memory, Metadata), metadata)
    && project in refs && ImportBase(c, refs[project]).Some?
    && SourceUnchanged(codec, ImportBase(c, refs[project]).value.tree, memory, metadata)
    && MayBePublished(project, metadata)
    && HasDocument(codec, c.tree, memory)
  }

  lemma MetadataAccepted(codec: Codec, base: Tree, memory: Uuid, metadata: Json)
    ensures CheckMetadata(codec, base, memory, metadata).Ok? <==> SourceUnchanged(codec, base, memory, metadata)
  {
  }

  lemma RevisionAccepted(project: Uuid, metadata: Json)
    ensures Supersedes(project, metadata).Ok? <==> MayBePublished(project, metadata)
  {
  }

  lemma ContentAccepted(codec: Codec, tree: Tree, memory: Uuid)
    ensures Content(codec, tree, memory).Ok? && Doc(Current, memory, Title) in tree <==>
            HasDocument(codec, tree, memory)
    ensures Content(codec, tree, memory).Ok? ==>
              var markdown, structured := Doc(Current, memory, Markdown), Doc(Current, memory, Structured);
              var content := Content(codec, tree, memory).value;
              && (markdown in tree ==> content == Str(tree[markdown]))
              && (structured in tree ==> JsonAt(codec, tree, structured, content))
  {
    var structured := Doc(Current, memory, Structured);
    if structured in tree && codec.parse(tree[structured]).Some? {
      assert JsonAt(codec, tree, structured, codec.parse(tree[structured]).value);
    }
  }

  /** What is read of a publishable commit is what it says. */
  lemma PublishableReads(
    codec: Codec, refs: Refs, c: Commit, memory: Uuid, endpoint: string, project: Uuid, data: Json, metadata: Json,
    args: Arguments)
    requires Publishable(codec, refs, c, memory, endpoint, project, data, metadata)
    ensures Publish(codec, refs, c, memory, args, endpoint).Ok?
  {
    hide CheckMetadata, Supersedes, Content, ShowJson, JsonAt, ImportBase, Get;
    hide HasDocument, SourceUnchanged, MayBePublished;
    ShowJsonAt(codec, c.tree, ProjectFile, data);
    ShowJsonAt(codec, c.tree, Doc(Current, memory, Metadata), metadata);
    MetadataAccepted(codec, ImportBase(c, refs[project]).value.tree, memory, metadata);
    RevisionAccepted(project, metadata);
    ContentAccepted(codec, c.tree, memory);
    TitleThere(codec, c.tree, memory);
  }

  lemma TitleThere(codec: Codec, tree: Tree, memory: Uuid)
    requires HasDocument(codec, tree, memory)
    ensures Doc(Current, memory, Title) in tree
  {
  }

  /** And a request is built of nothing else. */
  lemma PublishedIsPublishable(codec: Codec, refs: Refs, c: Commit, memory: Uuid, args: Arguments, endpoint: string)
    returns (project: Uuid, data: Json, metadata: Json)
    requires Publish(codec, refs, c, memory, args, endpoint).Ok?
    ensures Publishable(codec, refs, c, memory, endpoint, project, data, metadata)
    ensures Requests(codec, c, memory, args, data, Publish(codec, refs, c, memory, args, endpoint).value)
  {
    hide CheckMetadata, Supersedes, Content, ShowJson, JsonAt, ImportBase, Get;
    hide HasDocument, SourceUnchanged, MayBePublished;
    data := ShowJson(codec, c.tree, ProjectFile).value;
    metadata := ShowJson(codec, c.tree, Doc(Current, memory, Metadata)).value;
    project := Get(Get(data, "project"), "id").text;
    ShowJsonAt(codec, c.tree, ProjectFile, data);
    ShowJsonAt(codec, c.tree, Doc(Current, memory, Metadata), metadata);
    MetadataAccepted(codec, ImportBase(c, refs[project]).value.tree, memory, metadata);
    RevisionAccepted(project, metadata);
    ContentAccepted(codec, c.tree, memory);
  }

  /** The request carries the commit's own title, content and imported head, and the arguments. */
  ghost predicate Requests(codec: Codec, c: Commit, memory: Uuid, args: Arguments, data: Json, q: Request) {
    var title, markdown := Doc(Current, memory, Title), Doc(Current, memory, Markdown);
    var structured := Doc(Current, memory, Structured);
    var head := Get(Get(data, "project"), "memory_head");
    && title in c.tree && q.title == c.tree[title]
    && (markdown in c.tree ==> q.content == Str(c.tree[markdown]))
    && (structured in c.tree ==> JsonAt(codec, c.tree, structured, q.content))
    && q.baseCommit == (if head.Str? then Some(head.text) else None)
    && q.task == args.task && q.idempotencyKey == args.key && q.contextRevision == args.contextRevision
    && q.verificationStatus == args.verificationStatus && q.basis == args.basis
    && q.artifacts == args.artifacts && q.decisions == args.decisions
  }

  /**
   A commit is published exactly when its project file names this endpoint and a project, an import
   of that project is merged into it, the document's metadata is the import's or a bare draft of a
   document the import lacks, it may be published, and title and content are there; the request then
   carries what the commit holds.
   */
  lemma PublishOkIff(codec: Codec, refs: Refs, c: Commit, memory: Uuid, args: Arguments, endpoint: string)
    ensures Publish(codec, refs, c, memory, args, endpoint).Ok? <==>
            exists project, data, metadata ::
              Publishable(codec, refs, c, memory, endpoint, project, data, metadata)
    ensures Publish(codec, refs, c, memory, args, endpoint).Ok? ==>
              var q := Publish(codec, refs, c, memory, args, endpoint).value;
              forall data :: JsonAt(codec, c.tree, ProjectFile, data) ==> Requests(codec, c, memory, args, data, q)
  {
    hide Publish, ImportBase, Get, HasDocument, SourceUnchanged, MayBePublished, Requests;
    if Publish(codec, refs, c, memory, args, endpoint).Ok? {
      var project, data, metadata := PublishedIsPublishable(codec, refs, c, memory, args, endpoint);
    }
    if exists project, data, metadata :: Publishable(codec, refs, c, memory, endpoint, project, data, metadata) {
      var project, data, metadata :| Publishable(codec, refs, c, memory, endpoint, project, data, metadata);
      PublishableReads(codec, refs, c, memory, endpoint, project, data, metadata, args);
    }
  }

  /** A commit that was checked out from another server is never published. */
  lemma OtherEndpointRefused(
    codec: Codec, refs: Refs, c: Commit, memory: Uuid, args: Arguments, endpoint: string, data: Json)
    requires JsonAt(codec, c.tree, ProjectFile, data) && Get(data, "endpoint") != Str(endpoint)
    ensures Publish(codec, refs, c, memory, args, endpoint).Err?
  {
    hide Publish;
    PublishOkIff(codec, refs, c, memory, args, endpoint);
  }

  // ---------------------------------------------------------------- publication and imports

  lemma ImportedDocument(codec: Codec, project: Uuid, base: Commit, memory: Uuid) returns (revision: Entry)
    requires RoundTrips(codec) && Imported(codec, project, base.tree)
    requires Doc(Current, memory, Metadata) in base.tree
    ensures Recorded(codec, project, base, memory, revision)
    ensures ShowJson(codec, base.tree, Doc(Current, memory, Metadata)) == Ok(MetadataOf(revision))
  {
    var s, entries :| IsImport(codec, project, base.tree, s, entries);
    TreeHasDoc(codec, s, Current, memory, Metadata);
    revision := s.plan.current[memory];
    ImportKeepsEntries(codec, s, memory);
    PlanHoldsCurrent(Read(entries), s.includesHistory, |entries|);
    assert IsDocument(Read(entries), memory, revision);
  }

  /**
   A request sets exactly one of the new document's id and the superseded revision. It supersedes
   exactly when the latest import merged into the commit has the document, and then it names the
   revision recorded in that import, whose lineage the document is.
   */
  lemma PublishNamesTheImportedRevision(
    codec: Codec, genuine: Genuine, r: Repo, project: Uuid, c: Commit, memory: Uuid, args: Arguments, endpoint: string)
    requires RoundTrips(codec) && FromCheckouts(codec, genuine) && Inv(genuine, r) && c in r.known
    requires ProjectOf(codec, c) == Some(project)
    requires Publish(codec, r.refs, c, memory, args, endpoint).Ok?
    ensures project in r.refs && ImportBase(c, r.refs[project]).Some?
    ensures var q := Publish(codec, r.refs, c, memory, args, endpoint).value;
            var base := ImportBase(c, r.refs[project]).value;
            var path := Doc(Current, memory, Metadata);
            && q.expectedProject == Some(project)
            && (q.newMemory.Some? <==> q.supersedes.None?)
            && (q.newMemory.Some? ==> q.newMemory.value == memory)
            && (q.supersedes.Some? <==> path in base.tree)
            && (q.supersedes.Some? ==>
                  exists revision :: Recorded(codec, project, base, memory, revision)
                                     && revision.id == q.supersedes.value
                                     && revision.scope == "project" && revision.project == Some(project)
                                     && revision.visibility == "shared")
  {
    hide Inv, ImportBase, Reaches, IsImport, Imported, Recorded, Publish, ProjectOf, MetadataOf, Supersedes;
    PublishedFrom(codec, r.refs, project, c, memory, args, endpoint);
    BaseIsImport(codec, genuine, r, project, c);
    var base := ImportBase(c, r.refs[project]).value;
    if Doc(Current, memory, Metadata) in base.tree {
      var revision := ImportedDocument(codec, project, base, memory);
      SupersedesImported(project, revision);
    } else {
      SupersedesDraft(project);
    }
  }

  lemma BaseIsImport(codec: Codec, genuine: Genuine, r: Repo, project: Uuid, c: Commit)
    requires FromCheckouts(codec, genuine)
    requires Inv(genuine, r) && c in r.known && project in r.refs && ImportBase(c, r.refs[project]).Some?
    ensures Imported(codec, project, ImportBase(c, r.refs[project]).value.tree)
  {
    hide Reaches, Imported, ImportBase;
    ImportBaseIsBest(genuine, project, c, r.refs[project]);
  }

  /**
   Retrying a commit later, however far the imports have moved on meanwhile, builds the same
   request.
   */
  lemma PublishRetryIsIdentical(
    codec: Codec, genuine: Genuine, states: seq<Repo>, project: Uuid, c: Commit, n: nat, memory: Uuid,
    args: Arguments, endpoint: string)
    requires Run(genuine, states) && Inv(genuine, states[0]) && n < |states|
    requires c in states[0].known && project in states[0].refs && ProjectOf(codec, c) == Some(project)
    ensures Publish(codec, states[n].refs, c, memory, args, endpoint)
            == Publish(codec, states[0].refs, c, memory, args, endpoint)
  {
    hide ImportBase, Run, Inv, CheckMetadata, Supersedes, Content;
    MergeBaseNeverMoves(genuine, states, project, c, n);
  }

  /**
   Publishing an untouched import reproduces the server's entry: same title and content, and it
   supersedes exactly the current revision of the lineage the directory is named after.
   */
  lemma CheckoutThenPublish(
    codec: Codec, genuine: Genuine, r: Repo, project: Uuid, c: Commit, s: Snapshot, memory: Uuid, args: Arguments)
    requires RoundTrips(codec) && Inv(genuine, r) && c in r.known
    requires project in r.refs && Reaches(c, r.refs[project])
    requires c.tree == TreeOf(codec, s) && Get(s.projectData, "id") == Str(project) && memory in s.plan.current
    requires var e := s.plan.current[memory];
             e.scope == "project" && e.project == Some(project) && e.visibility == "shared"
    ensures var e := s.plan.current[memory];
            Publish(codec, r.refs, c, memory, args, s.endpoint) == Ok(Request(
              TextOf(Get(s.projectData, "memory_head")), args.task, args.key, None, Some(project),
              e.title, e.content, args.verificationStatus, args.basis, args.contextRevision,
              args.artifacts, args.decisions, Some(e.id)))
  {
    hide Inv, Reaches, TreeOf, ImportBase, MetadataOf, ProjectJson, Supersedes, IsDocument, Show, ShowJson, DocContent;
    OwnBase(genuine, r, project, c);
    ImportKeepsEntries(codec, s, memory);
    ProjectFacts(codec, s);
    SupersedesImported(project, s.plan.current[memory]);
    HasFiles(codec, s, memory);
  }

  // ---------------------------------------------------------------- edits

  lemma EditedFiles(codec: Codec, tree: Tree, memory: Uuid, title: string, content: Json)
    requires RoundTrips(codec)
    ensures var t := Edited(codec, tree, memory, title, content);
            && Show(t, Doc(Current, memory, Title)) == Ok(title)
            && Content(codec, t, memory) == Ok(content)
            && ShowJson(codec, t, ProjectFile) == ShowJson(codec, tree, ProjectFile)
            && ShowJson(codec, t, Doc(Current, memory, Metadata))
               == ShowJson(codec, tree, Doc(Current, memory, Metadata))
  {
  }

  /**
   Publishing an edit: a commit that rewrites one imported document is published with its own title
   and content, over the head of its import, and supersedes the revision that import recorded.
   */
  lemma EditThenPublish(
    codec: Codec, refs: Refs, project: Uuid, c: Commit, base: Commit, s: Snapshot, memory: Uuid,
    title: string, content: Json, args: Arguments)
    requires RoundTrips(codec) && project in refs && ImportBase(c, refs[project]) == Some(base)
    requires base.tree == TreeOf(codec, s) && Get(s.projectData, "id") == Str(project)
    requires c.tree == Edited(codec, base.tree, memory, title, content) && memory in s.plan.current
    requires var e := s.plan.current[memory];
             e.scope == "project" && e.project == Some(project) && e.visibility == "shared"
    ensures Publish(codec, refs, c, memory, args, s.endpoint) == Ok(Request(
              TextOf(Get(s.projectData, "memory_head")), args.task, args.key, None, Some(project),
              title, content, args.verificationStatus, args.basis, args.contextRevision,
              args.artifacts, args.decisions, Some(s.plan.current[memory].id)))
  {
    hide TreeOf, ImportBase, MetadataOf, ProjectJson, Supersedes, Show, ShowJson, Content, Edited;
    EditedFiles(codec, base.tree, memory, title, content);
    ImportKeepsEntries(codec, s, memory);
    ProjectFacts(codec, s);
    SupersedesImported(project, s.plan.current[memory]);
    HasFiles(codec, s, memory);
  }

  /**
   Publishing a new document: a commit that adds a directory with a bare draft is published under
   the directory's own id and supersedes nothing.
   */
  lemma DraftThenPublish(
    codec: Codec, refs: Refs, project: Uuid, c: Commit, base: Commit, s: Snapshot, memory: Uuid,
    title: string, content: Json, args: Arguments)
    requires RoundTrips(codec) && project in refs && ImportBase(c, refs[project]) == Some(base)
    requires base.tree == TreeOf(codec, s) && Get(s.projectData, "id") == Str(project) && memory !in s.plan.current
    requires var drafted := base.tree[Doc(Current, memory, Metadata) := codec.render(Draft())];
             c.tree == Edited(codec, drafted, memory, title, content)
    ensures Publish(codec, refs, c, memory, args, s.endpoint) == Ok(Request(
              TextOf(Get(s.projectData, "memory_head")), args.task, args.key, Some(memory), Some(project),
              title, content, args.verificationStatus, args.basis, args.contextRevision,
              args.artifacts, args.decisions, None))
  {
    hide TreeOf, ImportBase, MetadataOf, ProjectJson, Supersedes, Content, Edited, Draft;
    var drafted := base.tree[Doc(Current, memory, Metadata) := codec.render(Draft())];
    EditedFiles(codec, drafted, memory, title, content);
    assert ShowJson(codec, drafted, Doc(Current, memory, Metadata)) == Ok(Draft());
    assert ShowJson(codec, drafted, ProjectFile) == ShowJson(codec, base.tree, ProjectFile);
    hide Show, ShowJson;
    TreeHasDoc(codec, s, Current, memory, Metadata);
    ProjectFacts(codec, s);
    SupersedesDraft(project);
  }

  lemma HasFiles(codec: Codec, s: Snapshot, memory: Uuid)
    requires memory in s.plan.current
    ensures Doc(Current, memory, Metadata) in TreeOf(codec, s)
  {
    TreeHasDoc(codec, s, Current, memory, Metadata);
  }

  lemma ProjectFacts(codec: Codec, s: Snapshot)
    requires RoundTrips(codec)
    ensures ShowJson(codec, TreeOf(codec, s), ProjectFile) == Ok(ProjectJson(s))
    ensures Get(ProjectJson(s), "project") == s.projectData && Get(ProjectJson(s), "endpoint") == Str(s.endpoint)
  {
    TreeHasProject(codec, s);
    assert Get(ProjectJson(s), "project") == s.projectData;
  }

  /** A commit of the import chain is its own merge base with the ref. */
  lemma OwnBase(genuine: Genuine, r: Repo, project: Uuid, c: Commit)
    requires Inv(genuine, r) && project in r.refs && Reaches(c, r.refs[project])
    ensures ImportBase(c, r.refs[project]) == Some(c)
  {
    hide Imported, ImportBase;
    ImportBaseIsBest(genuine, project, c, r.refs[project]);
    ReachesSelf(c);
    var m := ImportBase(c, r.refs[project]).value;
    ReachesAntisymmetric(c, m);
  }
}
