/**
 Paged read of a project's shared knowledge while writers run: the server's page and head
 re-check, the client's loop, and when the pages it collects are one snapshot.
 */
module Fetch {
  import opened Prelude
  import opened Memory
  import opened Discovery

  const PAGE_LIMIT: nat := 100
  const U64_LIMIT: int := 0x1_0000_0000_0000_0000

  // ---------------------------------------------------------------- the server's side

  /**
   What a reader can see at one moment: the project's head, its rows and the organization's rows.
   The head is null while the project is still served from SQL.
   */
  datatype World = World(head: Option<string>, projectRows: set<Entry>, organizationRows: set<Entry>)

  /** The stores over time. */
  type History = nat -> World

  /** The fixed ORDER BY of the listing query. */
  type Ordering = (set<Entry>, set<Entry>) -> seq<Entry>

  function Listing(order: Ordering, w: World): seq<Entry> {
    order(w.projectRows, w.organizationRows)
  }

  /** When one `project_get` reads the project, reads the page and reads the head again. */
  datatype Moment = Moment(project: nat, page: nat, recheck: nat)

  datatype Reply = Reply(project: Uuid, head: Option<string>, memory: Page<Entry>)

  datatype Call = Failed | Answer(reply: Reply)

  /** What the `k`-th call gets when it asks for an offset. */
  type Calls = (nat, nat) -> Call

  /** When the `k`-th call reads. */
  type Times = nat -> Moment

  function ProjectGet(h: History, order: Ordering, at: Moment, project: Uuid, offset: nat): Call {
    var head := h(at.project).head;
    var page := PageAt(Listing(order, h(at.page)), PAGE_LIMIT, offset);
    if h(at.recheck).head != head then Failed else Answer(Reply(project, head, page))
  }

  // ---------------------------------------------------------------- the client's loop

  datatype FetchError =
    | CallFailed
    | UnexpectedProject
    | HeadChanged
    | UnexpectedScope
    | MemoryChanged
    | InvalidOffset

  datatype Fetched = Fetched(head: Option<string>, entries: seq<Entry>)

  predicate Expected(project: Uuid, e: Entry) {
    e.visibility == "shared"
    && (e.scope == "organization" || (e.scope == "project" && e.project == Some(project)))
  }

  function Ids(entries: seq<Entry>): set<Uuid> {
    set i | 0 <= i < |entries| :: entries[i].id
  }

  /** The accepted entries of a page, in order, up to the first one that is out of scope or repeated. */
  function Accept(project: Uuid, entries: seq<Entry>, page: seq<Entry>): Result<seq<Entry>, FetchError>
    decreases |page|
  {
    if page == [] then Ok(entries)
    else if !Expected(project, page[0]) then Err(UnexpectedScope)
    else if page[0].id in Ids(entries) then Err(MemoryChanged)
    else Accept(project, entries + [page[0]], page[1..])
  }

  /** A JSON number read as an unsigned 64-bit integer. */
  function AsU64(n: Option<nat>): Option<nat> {
    match n
    case Some(v) => if v < U64_LIMIT then Some(v) else None
    case None => None
  }

  /** What the loop still computes after `k` calls, asking next for `offset`. */
  function FetchFrom(project: Uuid, calls: Calls, k: nat, offset: nat, pin: Option<Option<string>>, entries: seq<Entry>)
    : Result<Fetched, FetchError>
    decreases U64_LIMIT - offset
  {
    match calls(k, offset)
    case Failed => Err(CallFailed)
    case Answer(reply) =>
      if reply.project != project then Err(UnexpectedProject)
      else if pin.Some? && pin.value != reply.head then Err(HeadChanged)
      else match Accept(project, entries, reply.memory.items)
        case Err(e) => Err(e)
        case Ok(grown) =>
          match AsU64(reply.memory.nextOffset)
          case None => Ok(Fetched(reply.head, grown))
          case Some(next) =>
            if next <= offset then Err(InvalidOffset)
            else FetchFrom(project, calls, k + 1, next, Some(reply.head), grown)
  }

  /** The client's loop over a server that may answer anything. */
  method FetchProject(project: Uuid, calls: Calls) returns (r: Result<Fetched, FetchError>)
    ensures r == FetchFrom(project, calls, 0, 0, None, [])
    ensures r.Ok? ==> UniqueIds(r.value.entries) && forall e :: e in r.value.entries ==> Expected(project, e)
  {
    var k: nat := 0;
    var offset: nat := 0;
    var entries: seq<Entry> := [];
    var seen: set<Uuid> := {};
    var pin: Option<Option<string>> := None;
    while true
      invariant seen == Ids(entries)
      invariant UniqueIds(entries) && forall e :: e in entries ==> Expected(project, e)
      invariant FetchFrom(project, calls, k, offset, pin, entries) == FetchFrom(project, calls, 0, 0, None, [])
      decreases U64_LIMIT - offset
    {
      var response := calls(k, offset);
      if response.Failed? {
        return Err(CallFailed);
      }
      var reply := response.reply;
      if reply.project != project {
        return Err(UnexpectedProject);
      }
      if pin.Some? {
        if pin.value != reply.head {
          return Err(HeadChanged);
        }
      }
      ghost var asked := pin;
      ghost var read := entries;
      if pin.None? {
        pin := Some(reply.head);
      }
      var page := reply.memory.items;
      for i := 0 to |page|
        invariant seen == Ids(entries)
        invariant UniqueIds(entries) && forall e :: e in entries ==> Expected(project, e)
        invariant Accept(project, entries, page[i..]) == Accept(project, read, page)
      {
        var entry := page[i];
        assert page[i..][0] == entry && page[i..][1..] == page[i + 1..];
        if entry.visibility != "shared"
           || (entry.scope != "organization" && (entry.scope != "project" || entry.project != Some(project))) {
          return Err(UnexpectedScope);
        }
        if entry.id in seen {
          return Err(MemoryChanged);
        }
        AppendIds(entries, entry);
        entries := entries + [entry];
        seen := seen + {entry.id};
      }
      assert Accept(project, read, page) == Ok(entries);
      var next := AsU64(reply.memory.nextOffset);
      if next.None? {
        return Ok(Fetched(reply.head, entries));
      }
      if next.value <= offset {
        return Err(InvalidOffset);
      }
      offset := next.value;
      k := k + 1;
    }
  }

  lemma AppendIds(entries: seq<Entry>, e: Entry)
    ensures Ids(entries + [e]) == Ids(entries) + {e.id}
    ensures UniqueIds(entries) && e.id !in Ids(entries) ==> UniqueIds(entries + [e])
  {
    var grown := entries + [e];
    assert grown[|entries|] == e;
    assert forall i :: 0 <= i < |entries| ==> grown[i] == entries[i];
    assert forall i :: 0 <= i < |entries| ==> entries[i].id in Ids(entries);
  }

  // ---------------------------------------------------------------- what the loop accepts

  /** An accepted page is appended whole, and none of it was there before. */
  lemma {:induction false} AcceptAppends(project: Uuid, entries: seq<Entry>, page: seq<Entry>)
    ensures Accept(project, entries, page).Ok? ==>
              && Accept(project, entries, page) == Ok(entries + page)
              && (forall e :: e in page ==> e.id !in Ids(entries) && Expected(project, e))
    decreases |page|
  {
    if page == [] {
      assert entries + page == entries;
    } else {
      AcceptAppends(project, entries + [page[0]], page[1..]);
      AppendIds(entries, page[0]);
      assert entries + [page[0]] + page[1..] == entries + page;
      assert page == [page[0]] + page[1..];
    }
  }

  /** A page of new, expected, distinct entries is accepted. */
  lemma {:induction false} AcceptsNew(project: Uuid, entries: seq<Entry>, page: seq<Entry>)
    requires UniqueIds(entries + page) && forall e :: e in page ==> Expected(project, e)
    ensures Accept(project, entries, page) == Ok(entries + page)
    decreases |page|
  {
    if page == [] {
      assert entries + page == entries;
    } else {
      var grown := entries + [page[0]];
      assert page == [page[0]] + page[1..];
      assert grown + page[1..] == entries + page;
      assert (entries + page)[|entries|] == page[0];
      assert forall i :: 0 <= i < |entries| ==> (entries + page)[i] == entries[i];
      AcceptsNew(project, grown, page[1..]);
    }
  }

  // ---------------------------------------------------------------- when a fetch succeeds

  /** Call `k` for this offset is answered for the project and under this head. */
  ghost predicate Answers(project: Uuid, calls: Calls, k: nat, offset: nat, head: Option<string>) {
    calls(k, offset).Answer? && calls(k, offset).reply.project == project && calls(k, offset).reply.head == head
  }

  function PageAfter(calls: Calls, k: nat, offset: nat): Page<Entry> {
    if calls(k, offset).Answer? then calls(k, offset).reply.memory else Page([], None)
  }

  /** From call `k` on the client is led through these offsets, which increase, to a last page. */
  ghost predicate Leads(project: Uuid, calls: Calls, k: nat, offsets: seq<nat>, head: Option<string>)
    decreases |offsets|
  {
    && offsets != [] && Answers(project, calls, k, offsets[0], head)
    && var next := PageAfter(calls, k, offsets[0]).nextOffset;
       if |offsets| == 1 then AsU64(next) == None
       else next == Some(offsets[1]) && offsets[0] < offsets[1] < U64_LIMIT
            && Leads(project, calls, k + 1, offsets[1..], head)
  }

  /** All pages at these offsets, one after the other. */
  function Pages(calls: Calls, k: nat, offsets: seq<nat>): seq<Entry>
    decreases |offsets|
  {
    if offsets == [] then [] else PageAfter(calls, k, offsets[0]).items + Pages(calls, k + 1, offsets[1..])
  }

  ghost predicate AllNew(project: Uuid, entries: seq<Entry>) {
    UniqueIds(entries) && forall e :: e in entries ==> Expected(project, e)
  }

  /** Shared knowledge of the organization or of this very project. */
  lemma ExpectedMeaning(project: Uuid, e: Entry)
    ensures Expected(project, e) <==>
            e.visibility == "shared"
            && (e.scope == "organization" || (e.scope == "project" && e.project.Some? && e.project.value == project))
  {
  }

  lemma {:induction false} AcceptIff(project: Uuid, entries: seq<Entry>, page: seq<Entry>)
    requires AllNew(project, entries)
    ensures Accept(project, entries, page).Ok? <==> AllNew(project, entries + page)
    ensures Accept(project, entries, page).Ok? ==> Accept(project, entries, page) == Ok(entries + page)
    decreases |page|
  {
    hide Expected;
    if page == [] {
      assert entries + page == entries;
    } else {
      var all := entries + page;
      assert page == [page[0]] + page[1..] && entries + [page[0]] + page[1..] == all;
      assert all[|entries|] == page[0] && page[0] in all;
      if page[0].id in Ids(entries) {
        var i :| 0 <= i < |entries| && entries[i].id == page[0].id;
        assert all[i] == entries[i];
      } else if Expected(project, page[0]) {
        AppendIds(entries, page[0]);
        AcceptIff(project, entries + [page[0]], page[1..]);
      }
    }
  }

  /** The offsets that a successful loop was led through. */
  lemma {:induction false} OkLeads(
    project: Uuid, calls: Calls, k: nat, offset: nat, pin: Option<Option<string>>, entries: seq<Entry>)
    returns (offsets: seq<nat>)
    requires AllNew(project, entries) && FetchFrom(project, calls, k, offset, pin, entries).Ok?
    ensures var f := FetchFrom(project, calls, k, offset, pin, entries).value;
            && Leads(project, calls, k, offsets, f.head) && offsets[0] == offset
            && (pin.Some? ==> pin.value == f.head)
            && f.entries == entries + Pages(calls, k, offsets) && AllNew(project, f.entries)
    decreases U64_LIMIT - offset
  {
    hide Accept, AllNew;
    var reply := calls(k, offset).reply;
    var items := reply.memory.items;
    AcceptIff(project, entries, items);
    var next := AsU64(reply.memory.nextOffset);
    if next.None? {
      offsets := [offset];
      assert Pages(calls, k + 1, offsets[1..]) == [];
      assert Pages(calls, k, offsets) == items;
    } else {
      var rest := OkLeads(project, calls, k + 1, next.value, Some(reply.head), entries + items);
      offsets := [offset] + rest;
      assert offsets[1..] == rest;
      assert entries + items + Pages(calls, k + 1, rest) == entries + (items + Pages(calls, k + 1, rest));
    }
  }

  /** And a loop that is led through such offsets, by pages of new entries in scope, succeeds. */
  lemma {:induction false} LeadsOk(
    project: Uuid, calls: Calls, k: nat, pin: Option<Option<string>>, entries: seq<Entry>,
    offsets: seq<nat>, head: Option<string>)
    requires Leads(project, calls, k, offsets, head) && (pin.Some? ==> pin.value == head)
    requires AllNew(project, entries) && AllNew(project, entries + Pages(calls, k, offsets))
    ensures FetchFrom(project, calls, k, offsets[0], pin, entries)
            == Ok(Fetched(head, entries + Pages(calls, k, offsets)))
    decreases |offsets|
  {
    hide Accept, AllNew;
    var items := PageAfter(calls, k, offsets[0]).items;
    var rest := offsets[1..];
    assert Pages(calls, k, offsets) == items + Pages(calls, k + 1, rest);
    assert entries + Pages(calls, k, offsets) == entries + items + Pages(calls, k + 1, rest);
    hide Pages;
    AllNewPrefix(project, entries + items, Pages(calls, k + 1, rest));
    AcceptIff(project, entries, items);
    if rest == [] {
      NoPages(calls, k + 1);
      assert entries + items + [] == entries + items;
    } else {
      LeadsOk(project, calls, k + 1, Some(head), entries + items, rest, head);
    }
  }

  lemma NoPages(calls: Calls, k: nat)
    ensures Pages(calls, k, []) == []
  {
  }

  lemma AllNewPrefix(project: Uuid, a: seq<Entry>, b: seq<Entry>)
    requires AllNew(project, a + b)
    ensures AllNew(project, a)
  {
    assert forall i :: 0 <= i < |a| ==> a[i] == (a + b)[i];
    assert forall e :: e in a ==> e in a + b;
  }

  /** The client is led through `offsets`, and the pages make up `f`. */
  ghost predicate LedTo(project: Uuid, calls: Calls, offsets: seq<nat>, f: Fetched) {
    && Leads(project, calls, 0, offsets, f.head) && offsets[0] == 0
    && f.entries == Pages(calls, 0, offsets) && AllNew(project, f.entries)
  }

  /**
   Over a server that may answer anything, a fetch succeeds with these entries exactly when it is led
   from offset 0 through increasing offsets to a last page, all under one head and for the project,
   and the pages together are these entries, distinct and in scope.
   */
  lemma FetchOkIff(project: Uuid, calls: Calls, f: Fetched)
    ensures FetchFrom(project, calls, 0, 0, None, []) == Ok(f) <==> exists offsets :: LedTo(project, calls, offsets, f)
  {
    hide FetchFrom, Leads, Pages;
    assert AllNew(project, []);
    if FetchFrom(project, calls, 0, 0, None, []) == Ok(f) {
      var offsets := OkLeads(project, calls, 0, 0, None, []);
      assert [] + Pages(calls, 0, offsets) == Pages(calls, 0, offsets);
      assert LedTo(project, calls, offsets, f);
    }
    if exists offsets :: LedTo(project, calls, offsets, f) {
      var offsets :| LedTo(project, calls, offsets, f);
      assert [] + Pages(calls, 0, offsets) == Pages(calls, 0, offsets);
      LeadsOk(project, calls, 0, None, [], offsets, f.head);
    }
  }

  /** What is wrong with the answer to call `k`, given the pinned head and the entries taken before. */
  ghost predicate Explains(
    e: FetchError, project: Uuid, call: Call, offset: nat, pin: Option<Option<string>>, entries: seq<Entry>)
  {
    if call.Failed? then e == CallFailed
    else
      var r := call.reply;
      match e
      case CallFailed => false
      case UnexpectedProject => r.project != project
      case HeadChanged => pin.Some? && pin.value != r.head
      case UnexpectedScope => exists x :: x in r.memory.items && !Expected(project, x)
      case MemoryChanged => !UniqueIds(entries + r.memory.items)
      case InvalidOffset => AsU64(r.memory.nextOffset).Some? && AsU64(r.memory.nextOffset).value <= offset
  }

  lemma {:induction false} AcceptError(project: Uuid, entries: seq<Entry>, page: seq<Entry>)
    requires Accept(project, entries, page).Err?
    ensures match Accept(project, entries, page).error
            case UnexpectedScope => exists x :: x in page && !Expected(project, x)
            case MemoryChanged => !UniqueIds(entries + page)
            case _ => false
    decreases |page|
  {
    hide Expected;
    var all := entries + page;
    assert entries + [page[0]] + page[1..] == all && all[|entries|] == page[0];
    if !Expected(project, page[0]) {
      assert page[0] in page;
    } else if page[0].id in Ids(entries) {
      var i :| 0 <= i < |entries| && entries[i].id == page[0].id;
      assert all[i] == entries[i];
    } else {
      AcceptError(project, entries + [page[0]], page[1..]);
      assert forall x :: x in page[1..] ==> x in page;
    }
  }

  /** A failing fetch reports what is wrong with the call at which it stops. */
  lemma {:induction false} FetchErrorMeaning(
    project: Uuid, calls: Calls, k: nat, offset: nat, pin: Option<Option<string>>, entries: seq<Entry>)
    returns (n: nat, at: nat, head: Option<Option<string>>, taken: seq<Entry>)
    requires FetchFrom(project, calls, k, offset, pin, entries).Err?
    ensures k <= n && offset <= at && entries <= taken
    ensures Explains(FetchFrom(project, calls, k, offset, pin, entries).error, project, calls(n, at), at, head, taken)
    decreases U64_LIMIT - offset
  {
    hide Accept, Expected, UniqueIds;
    n, at, head, taken := k, offset, pin, entries;
    if calls(k, offset).Answer? {
      var reply := calls(k, offset).reply;
      var grown := Accept(project, entries, reply.memory.items);
      var next := AsU64(reply.memory.nextOffset);
      if grown.Err? {
        AcceptError(project, entries, reply.memory.items);
      } else if reply.project == project && (pin.Some? ==> pin.value == reply.head)
                && next.Some? && next.value > offset {
        AcceptAppends(project, entries, reply.memory.items);
        n, at, head, taken := FetchErrorMeaning(project, calls, k + 1, next.value, Some(reply.head), grown.value);
      }
    }
  }

  // ---------------------------------------------------------------- heads that are never reused

  /** Calls follow each other, and each reads the project, the page and the head in this order. */
  ghost predicate InOrder(at: Times) {
    forall k: nat :: CallAfter(at, k)
  }

  ghost predicate CallAfter(at: Times, k: nat) {
    at(k).project <= at(k).page <= at(k).recheck <= at(k + 1).project
  }

  /** Whatever the server answers, it has read from its stores; calls may also just fail. */
  ghost predicate ServedBy(calls: Calls, h: History, order: Ordering, at: Times, project: Uuid) {
    forall k: nat, offset: nat :: calls(k, offset).Answer? ==>
      calls(k, offset) == ProjectGet(h, order, at(k), project, offset)
  }

  /** Offsets are signed 64-bit integers on the server. */
  ghost predicate Countable(h: History, order: Ordering) {
    forall t: nat :: |Listing(order, h(t))| < 0x8000_0000_0000_0000
  }

  /** Every write to the project installs a head that was never there; organization rows stay fixed. */
  ghost predicate FreshHeads(h: History) {
    forall t: nat :: FreshStep(h, t)
  }

  ghost predicate FreshStep(h: History, t: nat) {
    var next := h(t + 1);
    next.organizationRows == h(t).organizationRows && (next == h(t) || NewHead(h, t, next.head))
  }

  ghost predicate NewHead(h: History, t: nat, head: Option<string>) {
    forall s: nat :: s <= t ==> h(s).head != head
  }

  /** Under fresh heads, a head seen twice was there all the time between. */
  lemma {:induction false} SameHeadSameWorld(h: History, s: nat, u: nat, t: nat)
    requires FreshHeads(h) && s <= u <= t && h(s).head == h(t).head
    ensures h(u) == h(s) == h(t)
    decreases t
  {
    if s < t {
      assert FreshStep(h, t - 1);
      SameHeadSameWorld(h, s, if u < t then u else t - 1, t - 1);
    }
  }

  /** Call times do not go backwards. */
  lemma {:induction false} LaterCalls(at: Times, j: nat, k: nat)
    requires InOrder(at) && j <= k
    ensures at(j).project <= at(k).project && (j < k ==> at(j).recheck <= at(k).project)
    decreases k
  {
    if j < k {
      LaterCalls(at, j, k - 1);
      assert CallAfter(at, k - 1) && CallAfter(at, j);
    }
  }

  /** One call of a loop that succeeds: the page is the next cut of the listing, all of it new. */
  lemma OneCall(
    project: Uuid, calls: Calls, h: History, order: Ordering, at: Times,
    k: nat, offset: nat, pin: Option<Option<string>>, entries: seq<Entry>)
    returns (head: Option<string>, page: seq<Entry>)
    requires ServedBy(calls, h, order, at, project) && Countable(h, order)
    requires FetchFrom(project, calls, k, offset, pin, entries).Ok?
    ensures head == h(at(k).project).head == h(at(k).recheck).head && (pin.Some? ==> pin.value == head)
    ensures forall e :: e in page ==> e.id !in Ids(entries)
    ensures var listing := Listing(order, h(at(k).page));
            if offset + PAGE_LIMIT < |listing|
            then page == listing[offset..offset + PAGE_LIMIT] && offset < U64_LIMIT
                 && FetchFrom(project, calls, k, offset, pin, entries)
                    == FetchFrom(project, calls, k + 1, offset + PAGE_LIMIT, Some(head), entries + page)
            else page == (if offset < |listing| then listing[offset..] else [])
                 && FetchFrom(project, calls, k, offset, pin, entries) == Ok(Fetched(head, entries + page))
  {
    hide Accept;
    var listing := Listing(order, h(at(k).page));
    assert calls(k, offset) == ProjectGet(h, order, at(k), project, offset);
    var reply := calls(k, offset).reply;
    head, page := reply.head, reply.memory.items;
    assert |listing| < 0x8000_0000_0000_0000;
    PageOf(listing, PAGE_LIMIT, offset);
    hide PageAt, Listing;
    AcceptAppends(project, entries, page);
  }

  // ---------------------------------------------------------------- listings that only grow

  /** `b` holds the entries of `a` in order, possibly with others between them. */
  ghost predicate Embeds(a: seq<Entry>, b: seq<Entry>, f: seq<nat>) {
    && |f| == |a|
    && (forall i :: 0 <= i < |a| ==> f[i] < |b| && b[f[i]] == a[i])
    && (forall i, j :: 0 <= i < j < |a| ==> f[i] < f[j])
  }

  ghost predicate Grows(a: seq<Entry>, b: seq<Entry>) {
    exists f: seq<nat> :: Embeds(a, b, f)
  }

  lemma GrowsTrans(a: seq<Entry>, b: seq<Entry>, c: seq<Entry>)
    requires Grows(a, b) && Grows(b, c)
    ensures Grows(a, c)
  {
    var f: seq<nat> :| Embeds(a, b, f);
    var g: seq<nat> :| Embeds(b, c, g);
    var fg := seq(|a|, i requires 0 <= i < |a| => g[f[i]]);
    assert Embeds(a, c, fg);
  }

  /** Writers only add rows: every later listing embeds every earlier one. */
  ghost predicate InsertOnly(h: History, order: Ordering) {
    forall t: nat :: InsertStep(h, order, t)
  }

  ghost predicate InsertStep(h: History, order: Ordering, t: nat) {
    Grows(Listing(order, h(t)), Listing(order, h(t + 1)))
  }

  lemma GrowsSame(a: seq<Entry>)
    ensures Grows(a, a)
  {
    var f: seq<nat> := seq(|a|, i => i);
    assert Embeds(a, a, f);
  }

  lemma {:induction false} GrowsOver(h: History, order: Ordering, s: nat, t: nat)
    requires s <= t && forall u: nat :: s <= u < t ==> InsertStep(h, order, u)
    ensures Grows(Listing(order, h(s)), Listing(order, h(t)))
    decreases t
  {
    if s == t {
      GrowsSame(Listing(order, h(s)));
    } else {
      GrowsOver(h, order, s, t - 1);
      assert InsertStep(h, order, t - 1);
      GrowsTrans(Listing(order, h(s)), Listing(order, h(t - 1)), Listing(order, h(t)));
    }
  }

  /**
   Between two moments that show the same head the listing only grows. This is all the client's
   checks rely on.
   */
  ghost predicate Steady(h: History, order: Ordering) {
    forall s: nat, p: nat, q: nat, t: nat :: SteadyWithin(h, order, s, p, q, t)
  }

  ghost predicate SteadyWithin(h: History, order: Ordering, s: nat, p: nat, q: nat, t: nat) {
    s <= p <= q <= t && h(s).head == h(t).head ==> Grows(Listing(order, h(p)), Listing(order, h(q)))
  }

  lemma InsertOnlyIsSteady(h: History, order: Ordering)
    requires InsertOnly(h, order)
    ensures Steady(h, order)
  {
    forall s: nat, p: nat, q: nat, t: nat
      ensures SteadyWithin(h, order, s, p, q, t)
    {
      if p <= q {
        GrowsOver(h, order, p, q);
      }
    }
  }

  /** Each step installs a head that was never there, with any rows, or keeps the head and only adds rows. */
  ghost predicate FreshOrInsert(h: History, order: Ordering) {
    forall t: nat :: FreshOrInsertStep(h, order, t)
  }

  ghost predicate FreshOrInsertStep(h: History, order: Ordering, t: nat) {
    NewHead(h, t, h(t + 1).head) || (h(t + 1).head == h(t).head && InsertStep(h, order, t))
  }

  lemma {:induction false} HeadKept(h: History, order: Ordering, s: nat, u: nat, t: nat)
    requires FreshOrInsert(h, order) && s <= u <= t && h(s).head == h(t).head
    ensures h(u).head == h(s).head
    decreases t
  {
    if u < t {
      assert FreshOrInsertStep(h, order, t - 1);
      HeadKept(h, order, s, u, t - 1);
    }
  }

  lemma FreshOrInsertIsSteady(h: History, order: Ordering)
    requires FreshOrInsert(h, order)
    ensures Steady(h, order)
  {
    hide InsertStep;
    forall s: nat, p: nat, q: nat, t: nat
      ensures SteadyWithin(h, order, s, p, q, t)
    {
      if s <= p <= q <= t && h(s).head == h(t).head {
        forall u: nat | p <= u < q
          ensures InsertStep(h, order, u)
        {
          HeadKept(h, order, s, u, t);
          HeadKept(h, order, s, u + 1, t);
          assert FreshOrInsertStep(h, order, u);
        }
        GrowsOver(h, order, p, q);
      }
    }
  }

  lemma FreshHeadsAreSteady(h: History, order: Ordering)
    requires FreshHeads(h)
    ensures Steady(h, order)
  {
    forall s: nat, p: nat, q: nat, t: nat
      ensures SteadyWithin(h, order, s, p, q, t)
    {
      if s <= p <= q <= t && h(s).head == h(t).head {
        SameHeadSameWorld(h, s, p, t);
        SameHeadSameWorld(h, s, q, t);
        GrowsSame(Listing(order, h(p)));
      }
    }
  }

  /** An embedding only moves entries back; what it moves at all, it moves together with what follows. */
  lemma {:induction false} EmbedShifts(a: seq<Entry>, b: seq<Entry>, f: seq<nat>, i: nat, j: nat)
    requires Embeds(a, b, f) && i <= j < |a|
    ensures f[i] + (j - i) <= f[j]
    decreases j
  {
    if i < j {
      EmbedShifts(a, b, f, i, j - 1);
      assert f[j - 1] < f[j];
    }
  }

  lemma MovesBack(a: seq<Entry>, b: seq<Entry>, p: nat) returns (q: nat)
    requires Grows(a, b) && p < |a|
    ensures p <= q < |b| && b[q] == a[p]
  {
    var f: seq<nat> :| Embeds(a, b, f);
    EmbedShifts(a, b, f, 0, p);
    q := f[p];
  }

  lemma PrefixKept(a: seq<Entry>, b: seq<Entry>, f: seq<nat>, n: nat)
    requires Embeds(a, b, f) && 0 < n <= |a| && f[n - 1] < n
    ensures n <= |b| && a[..n] == b[..n]
  {
    EmbedShifts(a, b, f, 0, n - 1);
    forall i: nat | i < n
      ensures f[i] == i && b[i] == a[i]
    {
      EmbedShifts(a, b, f, 0, i);
      EmbedShifts(a, b, f, i, n - 1);
    }
  }

  /** Either the first `n` entries stay in place or the last of them moves to `n` or beyond. */
  lemma PrefixOrShift(a: seq<Entry>, b: seq<Entry>, n: nat)
    requires Grows(a, b) && n <= |a|
    ensures n <= |b|
    ensures a[..n] == b[..n] || (n > 0 && exists p: nat :: n <= p < |b| && b[p] == a[n - 1])
  {
    var f: seq<nat> :| Embeds(a, b, f);
    if n > 0 {
      EmbedShifts(a, b, f, 0, n - 1);
      assert b[f[n - 1]] == a[n - 1];
      if f[n - 1] < n {
        PrefixKept(a, b, f, n);
      }
    }
  }

  lemma InCut(s: seq<Entry>, a: nat, b: nat)
    requires a <= b <= |s|
    ensures forall p :: a <= p < b ==> s[p] in s[a..b]
  {
    forall p | a <= p < b
      ensures s[p] in s[a..b]
    {
      assert s[a..b][p - a] == s[p];
    }
  }

  /** Two calls of a fetch in a row read a growing listing. */
  lemma NextPageGrows(
    project: Uuid, calls: Calls, h: History, order: Ordering, at: Times,
    k: nat, offset: nat, head: Option<string>, entries: seq<Entry>)
    requires ServedBy(calls, h, order, at, project) && InOrder(at) && Countable(h, order) && Steady(h, order)
    requires h(at(k).project).head == head
    requires FetchFrom(project, calls, k + 1, offset, Some(head), entries).Ok?
    ensures Grows(Listing(order, h(at(k).page)), Listing(order, h(at(k + 1).page)))
  {
    hide FetchFrom, ServedBy, Listing, Countable, Grows;
    var next, page := OneCall(project, calls, h, order, at, k + 1, offset, Some(head), entries);
    assert CallAfter(at, k) && CallAfter(at, k + 1);
    assert SteadyWithin(h, order, at(k).project, at(k).page, at(k + 1).page, at(k + 1).recheck);
  }

  /** An entry already taken that lies ahead of the read is met again: the fetch cannot succeed. */
  lemma {:induction false} AheadNeverSucceeds(
    project: Uuid, calls: Calls, h: History, order: Ordering, at: Times,
    k: nat, offset: nat, pin: Option<Option<string>>, entries: seq<Entry>, x: Entry, p: nat)
    requires ServedBy(calls, h, order, at, project) && InOrder(at) && Countable(h, order) && Steady(h, order)
    requires x in entries
    requires offset <= p < |Listing(order, h(at(k).page))| && Listing(order, h(at(k).page))[p] == x
    ensures FetchFrom(project, calls, k, offset, pin, entries).Err?
    decreases U64_LIMIT - offset
  {
    hide FetchFrom, ServedBy, Listing, Countable, Steady, Grows;
    var listing := Listing(order, h(at(k).page));
    if FetchFrom(project, calls, k, offset, pin, entries).Ok? {
      var head, page := OneCall(project, calls, h, order, at, k, offset, pin, entries);
      var i :| 0 <= i < |entries| && entries[i] == x;
      assert entries[i].id in Ids(entries);
      InCut(listing, offset, if offset + PAGE_LIMIT < |listing| then offset + PAGE_LIMIT else |listing|);
      if p >= offset + PAGE_LIMIT {
        NextPageGrows(project, calls, h, order, at, k, offset + PAGE_LIMIT, head, entries + page);
        var q := MovesBack(listing, Listing(order, h(at(k + 1).page)), p);
        assert x in entries + page;
        AheadNeverSucceeds(project, calls, h, order, at, k + 1, offset + PAGE_LIMIT, Some(head), entries + page, x, q);
      }
    }
  }

  lemma {:induction false} SteadyFrom(
    project: Uuid, calls: Calls, h: History, order: Ordering, at: Times,
    k: nat, offset: nat, pin: Option<Option<string>>, entries: seq<Entry>) returns (last: nat)
    requires ServedBy(calls, h, order, at, project) && InOrder(at) && Countable(h, order) && Steady(h, order)
    requires var listing := Listing(order, h(at(k).page)); offset <= |listing| && entries == listing[..offset]
    requires FetchFrom(project, calls, k, offset, pin, entries).Ok?
    ensures k <= last && h(at(k).project).head == h(at(last).recheck).head
    ensures FetchFrom(project, calls, k, offset, pin, entries).value
            == Fetched(h(at(last).recheck).head, Listing(order, h(at(last).page)))
    decreases U64_LIMIT - offset
  {
    hide FetchFrom, ServedBy, Listing, Countable, Steady, Grows;
    var listing := Listing(order, h(at(k).page));
    var head, page := OneCall(project, calls, h, order, at, k, offset, pin, entries);
    if offset + PAGE_LIMIT < |listing| {
      var frontier := offset + PAGE_LIMIT;
      var grown := entries + page;
      assert grown == listing[..frontier];
      NextPageGrows(project, calls, h, order, at, k, frontier, head, grown);
      var next := Listing(order, h(at(k + 1).page));
      PrefixOrShift(listing, next, frontier);
      if listing[..frontier] != next[..frontier] {
        var p: nat :| frontier <= p < |next| && next[p] == listing[frontier - 1];
        assert grown[frontier - 1] == next[p];
        AheadNeverSucceeds(project, calls, h, order, at, k + 1, frontier, Some(head), grown, next[p], p);
      }
      var again, rest := OneCall(project, calls, h, order, at, k + 1, frontier, Some(head), grown);
      last := SteadyFrom(project, calls, h, order, at, k + 1, frontier, Some(head), grown);
    } else {
      assert listing[..offset] + listing[offset..] == listing;
      last := k;
    }
  }

  // ---------------------------------------------------------------- when a fetch is a snapshot

  /** Call `last` is one of a fetch that starts at call 0 and keeps the head it started with. */
  ghost predicate ReadAt(h: History, order: Ordering, at: Times, last: nat, r: Fetched) {
    h(at(0).project).head == h(at(last).recheck).head
    && r == Fetched(h(at(last).recheck).head, Listing(order, h(at(last).page)))
  }

  /** If the listing only grows while a head stays, a successful fetch is the listing its last page was read from. */
  lemma SteadyFetchIsSnapshot(project: Uuid, calls: Calls, h: History, order: Ordering, at: Times)
    requires ServedBy(calls, h, order, at, project) && InOrder(at) && Countable(h, order) && Steady(h, order)
    ensures var r := FetchFrom(project, calls, 0, 0, None, []);
            r.Ok? ==> exists last: nat :: ReadAt(h, order, at, last, r.value)
  {
    hide FetchFrom, ServedBy, Countable, Steady;
    if FetchFrom(project, calls, 0, 0, None, []).Ok? {
      assert Listing(order, h(at(0).page))[..0] == [];
      var last := SteadyFrom(project, calls, h, order, at, 0, 0, None, []);
      assert ReadAt(h, order, at, last, FetchFrom(project, calls, 0, 0, None, []).value);
    }
  }

  /**
   When every write installs a fresh head and organization rows stay fixed, a successful fetch
   returns exactly the ordered listing of one head, the one current when the fetch began.
   */
  lemma FetchIsSnapshot(project: Uuid, calls: Calls, h: History, order: Ordering, at: Times)
    requires ServedBy(calls, h, order, at, project) && InOrder(at) && FreshHeads(h) && Countable(h, order)
    ensures var r := FetchFrom(project, calls, 0, 0, None, []);
            r.Ok? ==> r.value == Fetched(h(at(0).project).head, Listing(order, h(at(0).project)))
  {
    hide FetchFrom, ServedBy, Countable, Steady, FreshHeads;
    FreshHeadsAreSteady(h, order);
    SteadyFetchIsSnapshot(project, calls, h, order, at);
    var r := FetchFrom(project, calls, 0, 0, None, []);
    if r.Ok? {
      var last: nat :| ReadAt(h, order, at, last, r.value);
      LaterCalls(at, 0, last);
      assert CallAfter(at, last);
      SameHeadSameWorld(h, at(0).project, at(last).page, at(last).recheck);
    }
  }

  /**
   The duplicate check alone makes the read a snapshot while writers only insert, whatever the
   heads are, and so also before the cutover to Git heads.
   */
  lemma InsertOnlyFetchIsSnapshot(project: Uuid, calls: Calls, h: History, order: Ordering, at: Times)
    requires ServedBy(calls, h, order, at, project) && InOrder(at) && Countable(h, order) && InsertOnly(h, order)
    ensures var r := FetchFrom(project, calls, 0, 0, None, []);
            r.Ok? ==> exists last: nat :: ReadAt(h, order, at, last, r.value)
  {
    InsertOnlyIsSteady(h, order);
    SteadyFetchIsSnapshot(project, calls, h, order, at);
  }

  /**
   Head and duplicate checks together: writes with a fresh head may change any rows, and writes that
   no head covers, to the organization's rows above all, may add rows at any time.
   */
  lemma FreshOrInsertFetchIsSnapshot(project: Uuid, calls: Calls, h: History, order: Ordering, at: Times)
    requires ServedBy(calls, h, order, at, project) && InOrder(at) && Countable(h, order) && FreshOrInsert(h, order)
    ensures var r := FetchFrom(project, calls, 0, 0, None, []);
            r.Ok? ==> exists last: nat :: ReadAt(h, order, at, last, r.value)
  {
    FreshOrInsertIsSteady(h, order);
    SteadyFetchIsSnapshot(project, calls, h, order, at);
  }

  // ---------------------------------------------------------------- any history

  function AsSet(entries: seq<Entry>): set<Entry> {
    set e | e in entries
  }

  function From(entries: seq<Entry>, k: nat): seq<Entry> {
    if k < |entries| then entries[k..] else []
  }

  /** Call `last` is the last one: its page is what follows the full pages of the calls before it. */
  ghost predicate LastCall(h: History, order: Ordering, at: Times, last: nat, r: Fetched) {
    && h(at(0).project).head == r.head == h(at(last).recheck).head
    && PAGE_LIMIT * last <= |r.entries| <= PAGE_LIMIT * (last + 1)
    && r.entries[PAGE_LIMIT * last..] == From(Listing(order, h(at(last).page)), PAGE_LIMIT * last)
  }

  ghost predicate ListsOnce(h: History, order: Ordering) {
    forall t: nat :: UniqueIds(Listing(order, h(t)))
  }

  /** Every returned entry is in the listing that the last page was read from. */
  ghost predicate StillListed(h: History, order: Ordering, at: Times, last: nat, r: Fetched) {
    AsSet(r.entries) <= AsSet(Listing(order, h(at(last).page)))
  }

  lemma AppendUnique(a: seq<Entry>, b: seq<Entry>)
    requires UniqueIds(a) && UniqueIds(b) && forall e :: e in b ==> e.id !in Ids(a)
    ensures UniqueIds(a + b)
  {
    var all := a + b;
    forall i, j | 0 <= i < j < |all|
      ensures all[i].id != all[j].id
    {
      if i < |a| <= j {
        assert a[i].id in Ids(a) && b[j - |a|] in b;
      }
    }
  }

  lemma PageUnique(listing: seq<Entry>, page: seq<Entry>, i: nat, j: nat)
    requires UniqueIds(listing) && i <= j <= |listing| && page == listing[i..j]
    ensures UniqueIds(page)
  {
    assert forall k :: 0 <= k < |page| ==> page[k] == listing[i + k];
  }

  lemma {:induction false} LastFrom(
    project: Uuid, calls: Calls, h: History, order: Ordering, at: Times,
    k: nat, pin: Option<Option<string>>, entries: seq<Entry>) returns (last: nat)
    requires ServedBy(calls, h, order, at, project) && Countable(h, order) && ListsOnce(h, order)
    requires |entries| == PAGE_LIMIT * k && UniqueIds(entries)
    requires FetchFrom(project, calls, k, PAGE_LIMIT * k, pin, entries).Ok?
    requires k == 0 || pin == Some(h(at(0).project).head)
    ensures var r := FetchFrom(project, calls, k, PAGE_LIMIT * k, pin, entries).value;
            LastCall(h, order, at, last, r) && UniqueIds(r.entries)
    decreases U64_LIMIT - k
  {
    hide FetchFrom, ServedBy, Countable, Listing, Ids;
    var offset := PAGE_LIMIT * k;
    var listing := Listing(order, h(at(k).page));
    assert UniqueIds(listing);
    var head, page := OneCall(project, calls, h, order, at, k, offset, pin, entries);
    PageUnique(listing, page, if offset < |listing| then offset else 0,
               if offset + PAGE_LIMIT < |listing| then offset + PAGE_LIMIT
               else if offset < |listing| then |listing| else 0);
    AppendUnique(entries, page);
    if offset + PAGE_LIMIT < |listing| {
      last := LastFrom(project, calls, h, order, at, k + 1, Some(head), entries + page);
    } else {
      last := k;
      assert (entries + page)[offset..] == page;
    }
  }

  lemma {:induction false} UniqueSize(entries: seq<Entry>)
    requires UniqueIds(entries)
    ensures |AsSet(entries)| == |entries|
    decreases |entries|
  {
    if entries != [] {
      var n := |entries| - 1;
      UniqueSize(entries[..n]);
      assert AsSet(entries) == AsSet(entries[..n]) + {entries[n]};
      assert entries[n] !in AsSet(entries[..n]);
    }
  }

  /** As many distinct entries as the listing has or more, all of them listed, are the listing's. */
  lemma NoneMissing(entries: seq<Entry>, listing: seq<Entry>)
    requires UniqueIds(entries) && UniqueIds(listing) && |entries| >= |listing|
    ensures AsSet(entries) == AsSet(listing) <==> AsSet(entries) <= AsSet(listing)
  {
    UniqueSize(entries);
    UniqueSize(listing);
    if AsSet(entries) <= AsSet(listing) {
      SubsetCardinality(AsSet(entries), AsSet(listing));
    }
  }

  /**
   Whatever the writers do, a successful fetch has a last call; and it returned exactly the entries
   then listed, perhaps in another order, if and only if all it returned was still listed then.
   */
  lemma FetchShowsListingIff(project: Uuid, calls: Calls, h: History, order: Ordering, at: Times)
    requires ServedBy(calls, h, order, at, project) && Countable(h, order) && ListsOnce(h, order)
    requires FetchFrom(project, calls, 0, 0, None, []).Ok?
    ensures var r := FetchFrom(project, calls, 0, 0, None, []).value;
            && UniqueIds(r.entries)
            && (exists last: nat :: LastCall(h, order, at, last, r))
            && (forall last: nat :: LastCall(h, order, at, last, r) ==>
                  (AsSet(r.entries) == AsSet(Listing(order, h(at(last).page)))
                   <==> StillListed(h, order, at, last, r)))
  {
    hide FetchFrom, ServedBy, Countable, AsSet;
    var r := FetchFrom(project, calls, 0, 0, None, []).value;
    var found := LastFrom(project, calls, h, order, at, 0, None, []);
    forall last: nat | LastCall(h, order, at, last, r)
      ensures AsSet(r.entries) == AsSet(Listing(order, h(at(last).page))) <==> StillListed(h, order, at, last, r)
    {
      var listing := Listing(order, h(at(last).page));
      assert UniqueIds(listing) && |From(listing, PAGE_LIMIT * last)| == |r.entries| - PAGE_LIMIT * last;
      NoneMissing(r.entries, listing);
    }
  }

  // ---------------------------------------------------------------- rows that vanish without a new head

  /** The stored rows in the order of `listing`. */
  function Arranged(listing: seq<Entry>, rows: set<Entry>): seq<Entry> {
    if listing == [] then [] else (if listing[0] in rows then [listing[0]] else []) + Arranged(listing[1..], rows)
  }

  lemma {:induction false} ArrangedAll(listing: seq<Entry>, rows: set<Entry>)
    requires forall e :: e in listing ==> e in rows
    ensures Arranged(listing, rows) == listing
    decreases |listing|
  {
    if listing != [] {
      ArrangedAll(listing[1..], rows);
    }
  }

  /** An organization whose first row is deleted after the first tick. */
  function RemovalHistory(head: Option<string>, listing: seq<Entry>): History {
    (t: nat) => World(head, {}, AsSet(if t == 0 then listing else From(listing, 1)))
  }

  function OrderOf(listing: seq<Entry>): Ordering {
    (p: set<Entry>, o: set<Entry>) => Arranged(listing, p + o)
  }

  function EachTick(): Times {
    (k: nat) => Moment(k, k, k)
  }

  function ServerCalls(h: History, order: Ordering, at: Times, project: Uuid): Calls {
    (k: nat, offset: nat) => ProjectGet(h, order, at(k), project, offset)
  }

  lemma RemovalListings(head: Option<string>, listing: seq<Entry>, t: nat)
    requires listing != [] && UniqueIds(listing)
    ensures Listing(OrderOf(listing), RemovalHistory(head, listing)(t)) == if t == 0 then listing else listing[1..]
  {
    var w := RemovalHistory(head, listing)(t);
    var kept := if t == 0 then listing else From(listing, 1);
    assert w == World(head, {}, AsSet(kept));
    assert Listing(OrderOf(listing), w) == Arranged(listing, {} + AsSet(kept));
    assert {} + AsSet(kept) == AsSet(kept);
    assert kept == if t == 0 then listing else listing[1..];
    ArrangedAll(kept, AsSet(kept));
    if t > 0 {
      assert listing[0] !in listing[1..];
      assert Arranged(listing, AsSet(kept)) == [] + Arranged(listing[1..], AsSet(kept));
    }
  }

  /**
   The head does not cover the organization's rows: when the first of 101 is deleted between two
   calls, the fetch succeeds with a hundred entries that were never the listing.
   */
  lemma RemovalBreaksFetch(project: Uuid, head: Option<string>, listing: seq<Entry>)
    requires |listing| == PAGE_LIMIT + 1 && UniqueIds(listing) && forall e :: e in listing ==> Expected(project, e)
    ensures var h, order, at := RemovalHistory(head, listing), OrderOf(listing), EachTick();
            var calls := ServerCalls(h, order, at, project);
            && ServedBy(calls, h, order, at, project) && InOrder(at) && Countable(h, order)
            && (forall t: nat :: h(t).head == head)
            && FetchFrom(project, calls, 0, 0, None, []) == Ok(Fetched(head, listing[..PAGE_LIMIT]))
            && forall t: nat :: Listing(order, h(t)) != listing[..PAGE_LIMIT]
  {
    var h, order, at := RemovalHistory(head, listing), OrderOf(listing), EachTick();
    var calls := ServerCalls(h, order, at, project);
    var cut := listing[..PAGE_LIMIT];
    forall t: nat
      ensures Listing(order, h(t)) == (if t == 0 then listing else listing[1..]) && Listing(order, h(t)) != cut
    {
      RemovalListings(head, listing, t);
      assert listing[1..][0] == listing[1] && cut[0] == listing[0];
    }
    PageOf(listing, PAGE_LIMIT, 0);
    PageOf(listing[1..], PAGE_LIMIT, PAGE_LIMIT);
    assert listing[0..PAGE_LIMIT] == cut;
    assert calls(0, 0) == ProjectGet(h, order, at(0), project, 0);
    assert calls(1, PAGE_LIMIT) == ProjectGet(h, order, at(1), project, PAGE_LIMIT);
    hide *;
    TwoCalls(project, calls, head, cut);
  }

  lemma TwoCalls(project: Uuid, calls: Calls, head: Option<string>, cut: seq<Entry>)
    requires UniqueIds(cut) && forall e :: e in cut ==> Expected(project, e)
    requires calls(0, 0) == Answer(Reply(project, head, Page(cut, Some(PAGE_LIMIT))))
    requires calls(1, PAGE_LIMIT) == Answer(Reply(project, head, Page([], None)))
    ensures FetchFrom(project, calls, 0, 0, None, []) == Ok(Fetched(head, cut))
  {
    hide Accept, Expected;
    assert [] + cut == cut && cut + [] == cut;
    AcceptsNew(project, [], cut);
    AcceptsNew(project, cut, []);
    assert FetchFrom(project, calls, 1, PAGE_LIMIT, Some(head), cut) == Ok(Fetched(head, cut));
  }

  // ---------------------------------------------------------------- quiet stores

  ghost predicate Quiet(calls: Calls, h: History, order: Ordering, at: Times, project: Uuid, w: World) {
    && (forall k: nat, offset: nat :: calls(k, offset) == ProjectGet(h, order, at(k), project, offset))
    && (forall t: nat :: h(t) == w)
  }

  lemma QuietCall(
    project: Uuid, calls: Calls, h: History, order: Ordering, at: Times, w: World, k: nat, offset: nat)
    requires Quiet(calls, h, order, at, project, w)
    ensures calls(k, offset) == Answer(Reply(project, w.head, PageAt(Listing(order, w), PAGE_LIMIT, offset)))
  {
    assert calls(k, offset) == ProjectGet(h, order, at(k), project, offset);
    assert h(at(k).project) == w && h(at(k).page) == w && h(at(k).recheck) == w;
  }

  lemma {:induction false} QuietFrom(
    project: Uuid, calls: Calls, h: History, order: Ordering, at: Times,
    k: nat, offset: nat, pin: Option<Option<string>>, entries: seq<Entry>, w: World)
    requires Quiet(calls, h, order, at, project, w) && |Listing(order, w)| < 0x8000_0000_0000_0000
    requires UniqueIds(Listing(order, w)) && forall e :: e in Listing(order, w) ==> Expected(project, e)
    requires offset <= |Listing(order, w)| && entries == Listing(order, w)[..offset]
    requires pin.Some? ==> pin.value == w.head
    ensures FetchFrom(project, calls, k, offset, pin, entries) == Ok(Fetched(w.head, Listing(order, w)))
    decreases U64_LIMIT - offset
  {
    hide Accept, Listing, Quiet, Expected;
    var listing := Listing(order, w);
    QuietCall(project, calls, h, order, at, w, k, offset);
    PageOf(listing, PAGE_LIMIT, offset);
    hide PageAt;
    var page := calls(k, offset).reply.memory.items;
    if offset + PAGE_LIMIT < |listing| {
      assert entries + page == listing[..offset + PAGE_LIMIT];
      AcceptsNew(project, entries, page);
      QuietFrom(project, calls, h, order, at, k + 1, offset + PAGE_LIMIT, Some(w.head), entries + page, w);
    } else {
      assert entries + page == listing;
      AcceptsNew(project, entries, page);
    }
  }

  /** With no writer, a listing of distinct entries in scope is always fetched, and whole. */
  lemma QuietFetchSucceeds(project: Uuid, calls: Calls, h: History, order: Ordering, at: Times, w: World)
    requires Quiet(calls, h, order, at, project, w) && |Listing(order, w)| < 0x8000_0000_0000_0000
    requires UniqueIds(Listing(order, w)) && forall e :: e in Listing(order, w) ==> Expected(project, e)
    ensures FetchFrom(project, calls, 0, 0, None, []) == Ok(Fetched(w.head, Listing(order, w)))
  {
    assert Listing(order, w)[..0] == [];
    QuietFrom(project, calls, h, order, at, 0, 0, None, [], w);
  }
}
