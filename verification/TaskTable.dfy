/** The console's task table: status of a row, counts, and the filtered and sorted view. */
module TaskTable {
  import opened Prelude

  datatype Row = Row(
    id: string,
    state: string,
    latestRun: Option<string>,
    assignment: Option<string>,
    title: string,
    priority: int)

  datatype Status = Unclaimed | Assigned | Running | Review | Blocked | Done | Cancelled

  const RUNNING_STATES: set<string> :=
    {"running", "starting", "awaiting_agent", "interrupted", "cleanup_pending", "cancelling"}

  function StatusOf(row: Row): Status {
    if row.state == "done" then Done
    else if row.state == "cancelled" then Cancelled
    else if row.state == "blocked" then Blocked
    else if row.state == "review" then Review
    else if row.state == "in_progress" || (row.latestRun.Some? && row.latestRun.value in RUNNING_STATES) then Running
    else if row.assignment == Some("active") then Assigned
    else Unclaimed
  }

  /** A final, blocked or review state wins; then anything that runs; then an active assignment. */
  lemma StatusMeaning(row: Row)
    ensures StatusOf(row) == Done <==> row.state == "done"
    ensures StatusOf(row) == Cancelled <==> row.state == "cancelled"
    ensures StatusOf(row) == Blocked <==> row.state == "blocked"
    ensures StatusOf(row) == Review <==> row.state == "review"
    ensures var pending := row.state != "done" && row.state != "cancelled"
                           && row.state != "blocked" && row.state != "review";
            var runs := row.state == "in_progress"
                        || row.latestRun == Some("running") || row.latestRun == Some("starting")
                        || row.latestRun == Some("awaiting_agent") || row.latestRun == Some("interrupted")
                        || row.latestRun == Some("cleanup_pending") || row.latestRun == Some("cancelling");
            && (StatusOf(row) == Running <==> pending && runs)
            && (StatusOf(row) == Assigned <==> pending && !runs && row.assignment == Some("active"))
            && (StatusOf(row) == Unclaimed <==> pending && !runs && row.assignment != Some("active"))
  {
    LatestRuns(row.latestRun);
  }

  lemma LatestRuns(run: Option<string>)
    ensures run.Some? && run.value in RUNNING_STATES <==>
            (run == Some("running") || run == Some("starting") || run == Some("awaiting_agent")
             || run == Some("interrupted") || run == Some("cleanup_pending") || run == Some("cancelling"))
  {
  }

  /** A column's value: a number, a text, or nothing. */
  datatype Value = Num(n: int) | Text(s: string)

  type Column = Row -> Option<Value>

  /** Locale comparison of texts: negative, zero or positive. */
  type Collation = (string, string) -> int

  /** What `Intl` collation guarantees: a total preorder. */
  ghost predicate Lawful(c: Collation) {
    && (forall a, b :: c(a, b) < 0 <==> c(b, a) > 0)
    && (forall a, b, d :: c(a, b) <= 0 && c(b, d) <= 0 ==> c(a, d) <= 0)
  }

  /** A column holds numbers only or texts only; dates are valid and so compare as numbers. */
  ghost predicate Homogeneous(column: Column) {
    (forall r :: column(r).Some? ==> column(r).value.Num?) || (forall r :: column(r).Some? ==> column(r).value.Text?)
  }

  datatype Entry = Entry(row: Row, source: nat)

  datatype View = View(column: Column, collate: Collation, ascending: bool)

  function CompareValues(v: View, a: Value, b: Value): int {
    if a.Num? && b.Num? then a.n - b.n
    else if a.Text? && b.Text? then v.collate(a.s, b.s)
    else 0
  }

  function Compare(v: View, a: Entry, b: Entry): int {
    var left, right := v.column(a.row), v.column(b.row);
    if left.None? && right.None? then a.source - b.source
    else if left.None? then 1
    else if right.None? then -1
    else
      var compared := CompareValues(v, left.value, right.value);
      if compared != 0 then (if v.ascending then compared else -compared) else a.source - b.source
  }

  ghost predicate WellFormed(v: View) {
    Lawful(v.collate) && Homogeneous(v.column)
  }

  /** The comparator is a strict total order: it separates rows of different places and is transitive. */
  lemma CompareIsStrictTotal(v: View, a: Entry, b: Entry, c: Entry)
    requires WellFormed(v)
    ensures Compare(v, a, b) < 0 <==> Compare(v, b, a) > 0
    ensures Compare(v, a, b) == 0 ==> a.source == b.source
    ensures Compare(v, a, b) < 0 && Compare(v, b, c) < 0 ==> Compare(v, a, c) < 0
  {
    var x, y, z := v.column(a.row), v.column(b.row), v.column(c.row);
    if x.Some? && y.Some? && z.Some? && x.value.Text? && y.value.Text? && z.value.Text? {
      var p, q, r := x.value.s, y.value.s, z.value.s;
      assert v.collate(p, q) < 0 <==> v.collate(q, p) > 0;
      assert v.collate(q, r) < 0 <==> v.collate(r, q) > 0;
      assert v.collate(p, r) < 0 <==> v.collate(r, p) > 0;
      assert v.collate(r, q) <= 0 && v.collate(q, p) <= 0 ==> v.collate(r, p) <= 0;
      assert v.collate(r, p) <= 0 && v.collate(p, q) <= 0 ==> v.collate(r, q) <= 0;
      assert v.collate(q, r) <= 0 && v.collate(r, p) <= 0 ==> v.collate(q, p) <= 0;
      assert v.collate(p, q) <= 0 && v.collate(q, r) <= 0 ==> v.collate(p, r) <= 0;
      assert v.collate(p, r) <= 0 && v.collate(r, q) <= 0 ==> v.collate(p, q) <= 0;
      assert v.collate(q, p) <= 0 && v.collate(p, r) <= 0 ==> v.collate(q, r) <= 0;
    }
  }

  // ---------------------------------------------------------------- filtered and sorted

  /** A status to keep, or None for all, and a search that an empty query passes. */
  datatype Query = Query(status: Option<Status>, matches: Option<Row -> bool>)

  predicate Keeps(q: Query, row: Row) {
    (q.status.None? || StatusOf(row) == q.status.value) && (q.matches.None? || q.matches.value(row))
  }

  /** The kept rows with their places, in source order. */
  function Kept(rows: seq<Row>, q: Query): seq<Entry> {
    if rows == [] then []
    else
      var n := |rows| - 1;
      Kept(rows[..n], q) + (if Keeps(q, rows[n]) then [Entry(rows[n], n)] else [])
  }

  ghost predicate Sorted(v: View, s: seq<Entry>) {
    forall i, j :: 0 <= i < j < |s| ==> Compare(v, s[i], s[j]) < 0
  }

  function Insert(v: View, e: Entry, s: seq<Entry>): seq<Entry> {
    if s == [] || Compare(v, e, s[0]) < 0 then [e] + s else [s[0]] + Insert(v, e, s[1..])
  }

  function Sort(v: View, s: seq<Entry>): seq<Entry> {
    if s == [] then [] else Insert(v, s[0], Sort(v, s[1..]))
  }

  ghost predicate DistinctPlaces(s: seq<Entry>) {
    forall i, j :: 0 <= i < j < |s| ==> s[i].source != s[j].source
  }

  lemma {:induction false} InsertKeeps(v: View, e: Entry, s: seq<Entry>)
    ensures multiset(Insert(v, e, s)) == multiset(s) + multiset{e}
    decreases |s|
  {
    if s != [] && Compare(v, e, s[0]) >= 0 {
      InsertKeeps(v, e, s[1..]);
      assert s == [s[0]] + s[1..];
    }
  }

  lemma FirstStaysFirst(v: View, e: Entry, s: seq<Entry>, rest: seq<Entry>)
    requires Sorted(v, s) && s != [] && Compare(v, s[0], e) < 0
    requires multiset(rest) == multiset(s[1..]) + multiset{e} && Sorted(v, rest)
    ensures Sorted(v, [s[0]] + rest)
  {
    hide Compare;
    forall j | 0 <= j < |rest|
      ensures Compare(v, s[0], rest[j]) < 0
    {
      assert rest[j] in multiset(rest);
      if rest[j] != e {
        var k :| 0 <= k < |s[1..]| && s[1..][k] == rest[j];
        assert s[1..][k] == s[k + 1];
      }
    }
  }

  lemma {:induction false} InsertSorts(v: View, e: Entry, s: seq<Entry>)
    requires WellFormed(v) && Sorted(v, s) && forall i :: 0 <= i < |s| ==> s[i].source != e.source
    ensures Sorted(v, Insert(v, e, s))
    decreases |s|
  {
    hide Compare, WellFormed;
    if s == [] {
    } else if Compare(v, e, s[0]) < 0 {
      forall j | 0 <= j < |s|
        ensures Compare(v, e, s[j]) < 0
      {
        CompareIsStrictTotal(v, e, s[0], s[j]);
      }
    } else {
      InsertSorts(v, e, s[1..]);
      InsertKeeps(v, e, s[1..]);
      CompareIsStrictTotal(v, s[0], e, e);
      CompareIsStrictTotal(v, e, s[0], e);
      FirstStaysFirst(v, e, s, Insert(v, e, s[1..]));
    }
  }

  lemma {:induction false} SortSorts(v: View, s: seq<Entry>)
    requires WellFormed(v) && DistinctPlaces(s)
    ensures Sorted(v, Sort(v, s)) && multiset(Sort(v, s)) == multiset(s)
    decreases |s|
  {
    hide Compare, WellFormed, Insert;
    if s != [] {
      SortSorts(v, s[1..]);
      var rest := Sort(v, s[1..]);
      assert s == [s[0]] + s[1..];
      forall i | 0 <= i < |rest|
        ensures rest[i].source != s[0].source
      {
        assert rest[i] in multiset(s[1..]);
        var k :| 0 <= k < |s[1..]| && s[1..][k] == rest[i];
        assert s[1..][k] == s[k + 1];
      }
      InsertSorts(v, s[0], rest);
      InsertKeeps(v, s[0], rest);
    }
  }

  lemma SameHead(v: View, a: seq<Entry>, b: seq<Entry>)
    requires WellFormed(v) && Sorted(v, a) && Sorted(v, b) && multiset(a) == multiset(b) && a != [] && b != []
    ensures a[0] == b[0]
  {
    hide WellFormed, Compare;
    assert a[0] in multiset(b) && b[0] in multiset(a);
    var i :| 0 <= i < |b| && b[i] == a[0];
    var j :| 0 <= j < |a| && a[j] == b[0];
    if i != 0 && j != 0 {
      assert Compare(v, b[0], b[i]) < 0 && Compare(v, a[0], a[j]) < 0;
      CompareIsStrictTotal(v, a[0], b[0], a[0]);
    }
  }

  lemma SortedTail(v: View, s: seq<Entry>)
    requires Sorted(v, s) && s != []
    ensures Sorted(v, s[1..])
    ensures multiset(s[1..]) == multiset(s) - multiset{s[0]}
  {
    assert s == [s[0]] + s[1..];
  }

  /** A strict total order leaves only one sorted arrangement, so any correct sort returns this one. */
  lemma {:induction false} SortedIsUnique(v: View, a: seq<Entry>, b: seq<Entry>)
    requires WellFormed(v) && Sorted(v, a) && Sorted(v, b) && multiset(a) == multiset(b)
    ensures a == b
    decreases |a|
  {
    hide *;
    assert |a| == |multiset(a)| == |multiset(b)| == |b|;
    if a != [] {
      SameHead(v, a, b);
      SortedTail(v, a);
      SortedTail(v, b);
      SortedIsUnique(v, a[1..], b[1..]);
      assert a == [a[0]] + a[1..] && b == [b[0]] + b[1..];
    }
  }

  lemma {:induction false} KeptPlaces(rows: seq<Row>, q: Query)
    ensures forall i :: 0 <= i < |Kept(rows, q)| ==>
              var e := Kept(rows, q)[i]; e.source < |rows| && rows[e.source] == e.row && Keeps(q, e.row)
    ensures forall p :: 0 <= p < |rows| && Keeps(q, rows[p]) ==> Entry(rows[p], p) in Kept(rows, q)
    ensures forall i, j :: 0 <= i < j < |Kept(rows, q)| ==> Kept(rows, q)[i].source < Kept(rows, q)[j].source
    decreases |rows|
  {
    if rows != [] {
      KeptPlaces(rows[..|rows| - 1], q);
    }
  }

  /** How a column's values may follow each other in the chosen direction; texts by the collation. */
  ghost predicate InDirection(v: View, left: Value, right: Value) {
    match (left, right)
    case (Num(m), Num(n)) => if v.ascending then m <= n else m >= n
    case (Text(s), Text(t)) => if v.ascending then v.collate(s, t) <= 0 else v.collate(s, t) >= 0
    case _ => true
  }

  ghost predicate SameRank(v: View, left: Option<Value>, right: Option<Value>) {
    (left.None? && right.None?)
    || (left.Some? && right.Some? && InDirection(v, left.value, right.value) && InDirection(v, right.value, left.value))
  }

  /**
   Values follow each other in the chosen direction, rows without one come last in both directions,
   and rows of the same rank stay in source order.
   */
  ghost predicate Arranged(v: View, s: seq<Entry>) {
    forall i, j :: 0 <= i < j < |s| ==> Follows(v, s[i], s[j])
  }

  ghost predicate Follows(v: View, a: Entry, b: Entry) {
    var left, right := v.column(a.row), v.column(b.row);
    && (left.None? ==> right.None?)
    && (left.Some? && right.Some? ==> InDirection(v, left.value, right.value))
    && (SameRank(v, left, right) ==> a.source < b.source)
  }

  lemma LessFollows(v: View, a: Entry, b: Entry)
    requires WellFormed(v) && Compare(v, a, b) < 0
    ensures Follows(v, a, b)
  {
    var left, right := v.column(a.row), v.column(b.row);
    if left.Some? && right.Some? && left.value.Text? && right.value.Text? {
      var s, t := left.value.s, right.value.s;
      assert v.collate(s, t) < 0 <==> v.collate(t, s) > 0;
      assert v.collate(t, s) < 0 <==> v.collate(s, t) > 0;
    }
  }

  /** The row is in the table, has the wanted status and matches the search. */
  ghost predicate Shown(rows: seq<Row>, q: Query, e: Entry) {
    && e.source < |rows| && rows[e.source] == e.row
    && (q.status.Some? ==> StatusOf(e.row) == q.status.value)
    && (q.matches.Some? ==> q.matches.value(e.row))
  }

  lemma KeptShows(rows: seq<Row>, q: Query, e: Entry)
    ensures e in Kept(rows, q) <==> Shown(rows, q, e)
  {
    KeptPlaces(rows, q);
  }

  lemma SortedArranged(v: View, s: seq<Entry>)
    requires WellFormed(v) && Sorted(v, s)
    ensures Arranged(v, s)
  {
    hide WellFormed, Compare, Follows;
    forall i, j | 0 <= i < j < |s|
      ensures Follows(v, s[i], s[j])
    {
      LessFollows(v, s[i], s[j]);
    }
  }

  /** Rows of a sorted view are all different. */
  lemma SortedDistinct(v: View, rows: seq<Row>, q: Query, s: seq<Entry>)
    requires WellFormed(v) && Sorted(v, s) && forall e :: e in s ==> Shown(rows, q, e)
    ensures DistinctPlaces(s)
  {
    forall i, j | 0 <= i < j < |s|
      ensures s[i].source != s[j].source
    {
      assert Shown(rows, q, s[i]) && Shown(rows, q, s[j]);
      hide Shown, WellFormed, Compare;
      NotLess(v, s[i]);
    }
  }

  lemma NotLess(v: View, e: Entry)
    requires WellFormed(v)
    ensures Compare(v, e, e) >= 0
  {
    CompareIsStrictTotal(v, e, e, e);
  }

  /**
   The view is the only arrangement of exactly the matching rows that the comparator sorts. It shows
   each matching row once and no other, in the chosen direction, rows without a value last and ties
   in source order.
   */
  lemma ViewIsUnique(v: View, rows: seq<Row>, q: Query, view: seq<Entry>)
    requires WellFormed(v)
    ensures Sorted(v, view) && multiset(view) == multiset(Kept(rows, q)) <==> view == Sort(v, Kept(rows, q))
    ensures forall e :: e in Sort(v, Kept(rows, q)) <==> Shown(rows, q, e)
    ensures DistinctPlaces(Sort(v, Kept(rows, q))) && Arranged(v, Sort(v, Kept(rows, q)))
  {
    hide WellFormed, Compare, Sort, Kept, Shown, Arranged, Sorted;
    var kept := Kept(rows, q);
    KeptDistinct(rows, q);
    SortSorts(v, kept);
    var sorted := Sort(v, kept);
    if Sorted(v, view) && multiset(view) == multiset(kept) {
      SortedIsUnique(v, view, sorted);
    }
    forall e
      ensures e in sorted <==> Shown(rows, q, e)
    {
      KeptShows(rows, q, e);
      assert e in sorted <==> e in multiset(sorted);
      assert e in kept <==> e in multiset(kept);
    }
    SortedArranged(v, sorted);
    SortedDistinct(v, rows, q, sorted);
  }

  lemma KeptDistinct(rows: seq<Row>, q: Query)
    ensures DistinctPlaces(Kept(rows, q))
  {
    KeptPlaces(rows, q);
  }

  // ---------------------------------------------------------------- counts

  datatype Counts = Counts(all: nat, each: map<Status, nat>)

  ghost predicate Total(each: map<Status, nat>) {
    forall s: Status :: s in each
  }

  ghost function Sum(each: map<Status, nat>): nat
    requires Total(each)
  {
    each[Unclaimed] + each[Assigned] + each[Running] + each[Review] + each[Blocked] + each[Done] + each[Cancelled]
  }

  ghost predicate CountsFor(each: map<Status, nat>, rows: seq<Row>) {
    Total(each) && Sum(each) == |rows| && forall s: Status :: each[s] == |Kept(rows, Query(Some(s), None))|
  }

  /** The counter loop: each status counts the rows its filter shows, and the seven add up to all. */
  method CountRows(rows: seq<Row>) returns (counts: Counts)
    ensures Total(counts.each) && counts.all == |rows| == Sum(counts.each)
    ensures forall s: Status :: counts.each[s] == |Kept(rows, Query(Some(s), None))|
  {
    var each: map<Status, nat> := map[
      Unclaimed := 0, Assigned := 0, Running := 0, Review := 0, Blocked := 0, Done := 0, Cancelled := 0];
    assert rows[..0] == [];
    forall s: Status
      ensures s in each && each[s] == 0
    {
      match s
      case Unclaimed => case Assigned => case Running => case Review => case Blocked => case Done => case Cancelled =>
    }
    assert CountsFor(each, rows[..0]);
    for i := 0 to |rows|
      invariant CountsFor(each, rows[..i])
    {
      hide *;
      CountStep(each, rows, i);
      var status := StatusOf(rows[i]);
      each := each[status := each[status] + 1];
    }
    assert rows[..|rows|] == rows;
    counts := Counts(|rows|, each);
  }

  /** One more row adds one to the rows its own status keeps and none to the others. */
  lemma CountStep(each: map<Status, nat>, rows: seq<Row>, i: nat)
    requires i < |rows| && CountsFor(each, rows[..i])
    ensures var status := StatusOf(rows[i]);
            status in each && CountsFor(each[status := each[status] + 1], rows[..i + 1])
  {
    hide StatusOf, Kept, Sum;
    KeptStep(rows, i);
    SumStep(each, StatusOf(rows[i]));
  }

  lemma SumStep(each: map<Status, nat>, s: Status)
    requires Total(each)
    ensures Total(each[s := each[s] + 1]) && Sum(each[s := each[s] + 1]) == Sum(each) + 1
  {
  }

  lemma KeptStep(rows: seq<Row>, i: nat)
    requires i < |rows|
    ensures forall s: Status :: |Kept(rows[..i + 1], Query(Some(s), None))|
                                == |Kept(rows[..i], Query(Some(s), None))| + (if StatusOf(rows[i]) == s then 1 else 0)
  {
    assert rows[..i + 1][..i] == rows[..i];
  }
}
