/** The files of a checkout: what an import writes for a project and how a file is read back. */
module Worktree {
  import opened Prelude
  import opened Memory
  import opened Lineage
  import opened Checkout

  datatype Area = Current | History

  datatype File = Title | Metadata | Markdown | Structured

  datatype TreePath = ProjectFile | Readme | Doc(area: Area, key: Uuid, file: File)

  /** Committed regular files with their text. */
  type Tree = map<TreePath, string>

  const README_TEXT := "# Morrows native memory worktree"

  /** Everything an import writes down. */
  datatype Snapshot = Snapshot(
    endpoint: string,
    project: Uuid,
    projectData: Json,
    includesHistory: bool,
    plan: Plan)

  function ProjectJson(s: Snapshot): Json {
    Obj(map[
      "format_version" := Number("1"),
      "endpoint" := Str(s.endpoint),
      "project" := s.projectData,
      "includes_history" := Bool(s.includesHistory)])
  }

  /** The entry's record without its content. */
  function MetadataOf(e: Entry): Json {
    Obj(map[
      "id" := Str(e.id),
      "scope_type" := Str(e.scope),
      "project_id" := OrNull(e.project),
      "agent_instance_id" := OrNull(e.agent),
      "task_id" := OrNull(e.task),
      "title" := Str(e.title),
      "source_kind" := Str(e.sourceKind),
      "source_ref" := OrNull(e.sourceRef),
      "visibility" := Str(e.visibility),
      "supersedes_memory_id" := OrNull(e.supersedes),
      "created_at" := Str(e.createdAt),
      "updated_at" := Str(e.updatedAt),
      "provenance" := if e.provenance.Some? then e.provenance.value else Null])
  }

  /** The files that `write_entry` leaves in a document directory. */
  function EntryFiles(e: Entry): set<File> {
    {Title, Metadata, if e.content.Str? then Markdown else Structured}
  }

  function EntryText(codec: Codec, e: Entry, file: File): string {
    match file
    case Title => e.title
    case Metadata => codec.render(MetadataOf(e))
    case Markdown => if e.content.Str? then e.content.text else ""
    case Structured => codec.render(e.content)
  }

  function Holder(plan: Plan, area: Area): map<Uuid, Entry> {
    if area.Current? then plan.current else plan.history
  }

  function Paths(plan: Plan): set<TreePath> {
    {ProjectFile, Readme}
    + (set key, file | key in plan.current && file in EntryFiles(plan.current[key]) :: Doc(Current, key, file))
    + (set key, file | key in plan.history && file in EntryFiles(plan.history[key]) :: Doc(History, key, file))
  }

  /** The tree of an import. */
  function TreeOf(codec: Codec, s: Snapshot): Tree {
    map path | path in Paths(s.plan) ::
      match path
      case ProjectFile => codec.render(ProjectJson(s))
      case Readme => README_TEXT
      case Doc(area, key, file) =>
        var held := Holder(s.plan, area);
        if key in held then EntryText(codec, held[key], file) else ""
  }

  /** A tree that `checkout` writes for `project`: its documents are a planned listing. */
  ghost predicate IsImport(codec: Codec, project: Uuid, tree: Tree, s: Snapshot, entries: seq<Entry>) {
    && s.project == project
    && Get(s.projectData, "id") == Str(project)
    && UniqueIds(entries)
    && PlanOf(Read(entries), s.includesHistory) == Ok(s.plan)
    && tree == TreeOf(codec, s)
  }

  ghost predicate Imported(codec: Codec, project: Uuid, tree: Tree) {
    exists s, entries :: IsImport(codec, project, tree, s, entries)
  }

  // ---------------------------------------------------------------- reading back

  datatype ReadError = Missing(path: TreePath) | NotJson(path: TreePath)

  function Show(tree: Tree, path: TreePath): Result<string, ReadError> {
    if path in tree then Ok(tree[path]) else Err(Missing(path))
  }

  function ShowJson(codec: Codec, tree: Tree, path: TreePath): Result<Json, ReadError> {
    match Show(tree, path)
    case Err(e) => Err(e)
    case Ok(text) =>
      match codec.parse(text)
      case None => Err(NotJson(path))
      case Some(value) => Ok(value)
  }

  /** The file is there and holds this JSON document. */
  ghost predicate JsonAt(codec: Codec, tree: Tree, path: TreePath, value: Json) {
    path in tree && codec.parse(tree[path]) == Some(value)
  }

  lemma ShowJsonAt(codec: Codec, tree: Tree, path: TreePath, value: Json)
    ensures ShowJson(codec, tree, path) == Ok(value) <==> JsonAt(codec, tree, path, value)
  {
  }

  /** A document directory of an import holds exactly the files of the entry under its key. */
  lemma TreeHasDoc(codec: Codec, s: Snapshot, area: Area, key: Uuid, file: File)
    ensures Doc(area, key, file) in TreeOf(codec, s) <==>
              key in Holder(s.plan, area) && file in EntryFiles(Holder(s.plan, area)[key])
    ensures Doc(area, key, file) in TreeOf(codec, s) ==>
              TreeOf(codec, s)[Doc(area, key, file)] == EntryText(codec, Holder(s.plan, area)[key], file)
  {
  }

  lemma TreeHasProject(codec: Codec, s: Snapshot)
    requires RoundTrips(codec)
    ensures ShowJson(codec, TreeOf(codec, s), ProjectFile) == Ok(ProjectJson(s))
  {
  }

  /** Content read from an imported document is the entry's, and only one of the two forms is there. */
  function DocContent(codec: Codec, tree: Tree, key: Uuid): Result<Json, ReadError>
  {
    if Doc(Current, key, Markdown) in tree then Ok(Str(tree[Doc(Current, key, Markdown)]))
    else ShowJson(codec, tree, Doc(Current, key, Structured))
  }

  /** Checking out a listing loses nothing: title, metadata and content come back from the files. */
  lemma ImportKeepsEntries(codec: Codec, s: Snapshot, key: Uuid)
    requires RoundTrips(codec) && key in s.plan.current
    ensures var tree := TreeOf(codec, s); var e := s.plan.current[key];
            && Show(tree, Doc(Current, key, Title)) == Ok(e.title)
            && ShowJson(codec, tree, Doc(Current, key, Metadata)) == Ok(MetadataOf(e))
            && DocContent(codec, tree, key) == Ok(e.content)
            && (Doc(Current, key, Markdown) in tree <==> Doc(Current, key, Structured) !in tree)
  {
    TreeHasDoc(codec, s, Current, key, Title);
    TreeHasDoc(codec, s, Current, key, Metadata);
    TreeHasDoc(codec, s, Current, key, Markdown);
    TreeHasDoc(codec, s, Current, key, Structured);
  }

  lemma OwnFields(e: Entry)
    ensures var m := MetadataOf(e);
            && Get(m, "id") == Str(e.id) && Get(m, "scope_type") == Str(e.scope)
            && Get(m, "project_id") == OrNull(e.project)
  {
  }

  lemma MakerFields(e: Entry)
    ensures var m := MetadataOf(e);
            && Get(m, "agent_instance_id") == OrNull(e.agent)
            && Get(m, "task_id") == OrNull(e.task) && Get(m, "title") == Str(e.title)
  {
  }

  lemma OriginFields(e: Entry)
    ensures var m := MetadataOf(e);
            && Get(m, "source_kind") == Str(e.sourceKind) && Get(m, "source_ref") == OrNull(e.sourceRef)
            && Get(m, "visibility") == Str(e.visibility) && Get(m, "supersedes_memory_id") == OrNull(e.supersedes)
            && Get(m, "created_at") == Str(e.createdAt) && Get(m, "updated_at") == Str(e.updatedAt)
            && Get(m, "provenance") == (if e.provenance.Some? then e.provenance.value else Null)
  {
  }

  /** Equal metadata means equal records, apart from the content, which has its own file. */
  lemma MetadataIsFaithful(a: Entry, b: Entry)
    requires MetadataOf(a) == MetadataOf(b) && a.provenance != Some(Null) && b.provenance != Some(Null)
    ensures a == b.(content := a.content)
  {
    hide MetadataOf, Get;
    OwnFields(a);
    OwnFields(b);
    MakerFields(a);
    MakerFields(b);
    OriginFields(a);
    OriginFields(b);
  }

  /** A tree after a person has rewritten title and content of one document. */
  function Edited(codec: Codec, tree: Tree, memory: Uuid, title: string, content: Json): Tree {
    var markdown, structured := Doc(Current, memory, Markdown), Doc(Current, memory, Structured);
    var kept := (tree - {markdown, structured})[Doc(Current, memory, Title) := title];
    if content.Str? then kept[markdown := content.text] else kept[structured := codec.render(content)]
  }
}
