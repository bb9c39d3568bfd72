/** The shared-knowledge entry that the server lists and the CLI writes to disk. */
module Memory {
  import opened Prelude

  datatype Entry = Entry(
    id: Uuid,
    scope: string,
    project: Option<Uuid>,
    agent: Option<Uuid>,
    task: Option<Uuid>,
    title: string,
    content: Json,
    sourceKind: string,
    sourceRef: Option<string>,
    visibility: string,
    supersedes: Option<Uuid>,
    createdAt: string,
    updatedAt: string,
    provenance: Option<Json>)

  predicate SameScope(a: Entry, b: Entry) {
    a.scope == b.scope && a.project == b.project
  }

  ghost predicate UniqueIds(entries: seq<Entry>) {
    forall i, j :: 0 <= i < j < |entries| ==> entries[i].id != entries[j].id
  }
}
