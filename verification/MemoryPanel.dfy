/**
 The console's project memory panel: paged loading whose answers may come late, fail or belong to
 a project that is no longer open.
 */
module MemoryPanel {
  import opened Prelude
  import opened Discovery

  type Project = string
  type Item = string

  const PAGE_SIZE: nat := 30

  /** A request under way, with what its handler captured when it was sent. */
  datatype Request = Request(more: bool, project: Project, ticket: nat, offset: nat)

  datatype Panel = Panel(
    ticket: nat,
    selected: Option<Project>,
    items: seq<Item>,
    loading: bool,
    appending: bool,
    nextOffset: Option<nat>,
    failed: bool)

  /** The panel, the requests under way by number, and, for stating properties, the project last opened. */
  datatype State = State(panel: Panel, requests: map<nat, Request>, latest: Option<Project>)

  // ---------------------------------------------------------------- handlers

  function Cleared(p: Panel): Panel {
    p.(ticket := p.ticket + 1, items := [], loading := false, appending := false, nextOffset := None, failed := false)
  }

  function Opening(p: Panel, project: Project): Panel {
    Cleared(p).(selected := Some(project), loading := true)
  }

  /** The load-more button: nothing happens without an open project, a next page or while appending. */
  predicate CanAppend(p: Panel) {
    p.selected.Some? && p.nextOffset.Some? && !p.appending
  }

  function Appending(p: Panel): Panel {
    p.(appending := true, failed := false)
  }

  /** A page or, if None, a failure arrives for request `r`. */
  function Received(p: Panel, r: Request, page: Option<Page<Item>>): Panel {
    if r.ticket != p.ticket then p
    else
      var settled := if r.more then p.(appending := false) else p.(loading := false);
      match page
      case None => settled.(failed := true)
      case Some(got) =>
        if r.more then settled.(items := p.items + got.items, nextOffset := got.nextOffset)
        else settled.(items := got.items, nextOffset := got.nextOffset)
  }

  /** The component's state and the code that changes it. */
  class Component {
    var panel: Panel

    constructor ()
      ensures panel == Panel(0, None, [], false, false, None, false)
    {
      panel := Panel(0, None, [], false, false, None, false);
    }

    method ResetProjectMemoryView()
      modifies this
      ensures panel == Cleared(old(panel))
    {
      panel := panel.(ticket := panel.ticket + 1);
      panel := panel.(items := [], loading := false, appending := false);
      panel := panel.(nextOffset := None, failed := false);
    }

    method SelectTask()
      modifies this
      ensures panel == Cleared(old(panel)).(selected := None)
    {
      ResetProjectMemoryView();
      panel := panel.(selected := None);
    }

    /** `openProject` up to its request. */
    method OpenProject(project: Project) returns (sent: Request)
      modifies this
      ensures panel == Opening(old(panel), project)
      ensures sent == Request(false, project, panel.ticket, 0)
    {
      ResetProjectMemoryView();
      var ticket := panel.ticket;
      panel := panel.(selected := Some(project));
      panel := panel.(loading := true);
      sent := Request(false, project, ticket, 0);
    }

    /** `loadMoreProjectMemories` up to its request. */
    method LoadMore() returns (sent: Option<Request>)
      modifies this
      ensures if CanAppend(old(panel))
              then panel == Appending(old(panel))
                   && sent == Some(Request(true, old(panel).selected.value, panel.ticket, old(panel).nextOffset.value))
              else panel == old(panel) && sent == None
    {
      if panel.selected.None? || panel.nextOffset.None? || panel.appending {
        return None;
      }
      var ticket, offset := panel.ticket, panel.nextOffset.value;
      panel := panel.(appending := true);
      panel := panel.(failed := false);
      sent := Some(Request(true, panel.selected.value, ticket, offset));
    }

    /** Either function from its response on. */
    method Respond(r: Request, page: Option<Page<Item>>)
      modifies this
      ensures panel == Received(old(panel), r, page)
    {
      if r.ticket != panel.ticket {
        return;
      }
      if page.None? {
        panel := panel.(failed := true);
      } else if r.more {
        panel := panel.(items := panel.items + page.value.items);
        panel := panel.(nextOffset := page.value.nextOffset);
      } else {
        panel := panel.(items := page.value.items);
        panel := panel.(nextOffset := page.value.nextOffset);
      }
      panel := if r.more then panel.(appending := false) else panel.(loading := false);
    }
  }

  // ---------------------------------------------------------------- every interleaving

  /** What the server holds for each project. */
  type Lists = Project -> seq<Item>

  datatype Event =
    | Open(id: nat, project: Project)
    | Leave
    | Deselect
    | More(id: nat)
    | Answer(id: nat)
    | Fail(id: nat)

  function Init(): State {
    State(Panel(0, None, [], false, false, None, false), map[], None)
  }

  predicate Enabled(s: State, e: Event) {
    match e
    case Open(id, _) => id !in s.requests
    case More(id) => id !in s.requests
    case Answer(id) => id in s.requests
    case Fail(id) => id in s.requests
    case _ => true
  }

  /** Leave is selecting a task or the unclassified group; Deselect is what deleting a task does. */
  function Apply(lists: Lists, s: State, e: Event): State {
    match e
    case Open(id, project) =>
      var p := Opening(s.panel, project);
      State(p, s.requests[id := Request(false, project, p.ticket, 0)], Some(project))
    case Leave => State(Cleared(s.panel).(selected := None), s.requests, None)
    case Deselect => s.(panel := s.panel.(selected := None))
    case More(id) =>
      if !CanAppend(s.panel) then s
      else s.(panel := Appending(s.panel),
              requests := s.requests[
                id := Request(true, s.panel.selected.value, s.panel.ticket, s.panel.nextOffset.value)])
    case Answer(id) =>
      if id !in s.requests then s
      else
        var r := s.requests[id];
        s.(panel := Received(s.panel, r, Some(PageAt(lists(r.project), PAGE_SIZE, r.offset))),
           requests := s.requests - {id})
    case Fail(id) =>
      if id !in s.requests then s
      else s.(panel := Received(s.panel, s.requests[id], None), requests := s.requests - {id})
  }

  predicate Valid(lists: Lists, s: State, run: seq<Event>)
    decreases |run|
  {
    run == [] || (Enabled(s, run[0]) && Valid(lists, Apply(lists, s, run[0]), run[1..]))
  }

  function Play(lists: Lists, s: State, run: seq<Event>): State
    decreases |run|
  {
    if run == [] then s else Play(lists, Apply(lists, s, run[0]), run[1..])
  }

  /** A request whose answer will still be accepted. */
  predicate Current(s: State, id: nat) {
    id in s.requests && s.requests[id].ticket == s.panel.ticket
  }

  /**
   The panel holds a prefix of the list of the project last opened: up to the next offset, or, when
   there is none, the whole list once it has loaded and nothing before.
   */
  ghost predicate HoldsPrefix(lists: Lists, s: State) {
    match s.latest
    case None => s.panel.items == [] && s.panel.nextOffset == None
    case Some(project) =>
      var list := lists(project);
      match s.panel.nextOffset
      case Some(k) => k < |list| && s.panel.items == list[..k]
      case None => s.panel.items == [] || s.panel.items == list
  }

  ghost predicate RequestOk(s: State, id: nat)
    requires Current(s, id)
  {
    var r := s.requests[id];
    && s.latest == Some(r.project) && !s.panel.failed
    && (if r.more then s.panel.appending && s.panel.nextOffset == Some(r.offset)
        else r.offset == 0 && s.panel.loading && s.panel.items == [] && s.panel.nextOffset == None)
  }

  ghost predicate Inv(lists: Lists, s: State) {
    && HoldsPrefix(lists, s)
    && (s.panel.selected.Some? ==> s.panel.selected == s.latest)
    && (forall id :: id in s.requests ==> s.requests[id].ticket <= s.panel.ticket)
    && (forall id :: Current(s, id) ==> RequestOk(s, id))
    && (forall i, j :: Current(s, i) && Current(s, j) ==> i == j)
    && (s.panel.appending ==> exists id :: Current(s, id) && s.requests[id].more)
    && (s.panel.loading ==> exists id :: Current(s, id) && !s.requests[id].more)
  }

  lemma AnswerKeepsInv(lists: Lists, s: State, id: nat)
    requires Inv(lists, s) && id in s.requests
    ensures Inv(lists, Apply(lists, s, Answer(id)))
  {
    var s' := Apply(lists, s, Answer(id));
    var r := s.requests[id];
    PageExtends(lists(r.project), PAGE_SIZE, if r.offset <= |lists(r.project)| then r.offset else 0);
    if Current(s, id) {
      assert RequestOk(s, id);
      assert forall x :: Current(s', x) ==> Current(s, x) && x != id;
      if !r.more {
        assert lists(r.project)[..0] == [];
      }
    } else {
      OthersKeepInv(lists, s, s', id);
    }
  }

  /** A late answer changes nothing but the set of requests. */
  lemma OthersKeepInv(lists: Lists, s: State, s': State, id: nat)
    requires Inv(lists, s) && !Current(s, id) && s' == s.(requests := s.requests - {id})
    ensures Inv(lists, s')
  {
    forall x | Current(s', x)
      ensures RequestOk(s', x)
    {
      assert Current(s, x) && RequestOk(s, x);
    }
    assert forall x :: Current(s, x) <==> Current(s', x);
  }

  lemma FailKeepsInv(lists: Lists, s: State, id: nat)
    requires Inv(lists, s) && id in s.requests
    ensures Inv(lists, Apply(lists, s, Fail(id)))
  {
    var s' := Apply(lists, s, Fail(id));
    if Current(s, id) {
      assert RequestOk(s, id);
      assert forall x :: Current(s', x) ==> Current(s, x) && x != id;
    } else {
      OthersKeepInv(lists, s, s', id);
    }
  }

  lemma MoreKeepsInv(lists: Lists, s: State, id: nat)
    requires Inv(lists, s) && id !in s.requests
    ensures Inv(lists, Apply(lists, s, More(id)))
  {
    var s' := Apply(lists, s, More(id));
    if CanAppend(s.panel) {
      assert forall x :: Current(s, x) ==> RequestOk(s, x);
      assert forall x :: Current(s', x) ==> x == id || Current(s, x);
      assert Current(s', id) && s'.requests[id].more;
    }
  }

  lemma ClearKeepsInv(lists: Lists, s: State, e: Event)
    requires Inv(lists, s) && Enabled(s, e) && (e.Open? || e.Leave? || e.Deselect?)
    ensures Inv(lists, Apply(lists, s, e))
  {
    var s' := Apply(lists, s, e);
    if e.Deselect? {
      forall x | Current(s', x)
        ensures RequestOk(s', x)
      {
        assert Current(s, x) && RequestOk(s, x);
      }
      assert forall x :: Current(s', x) ==> Current(s, x);
      assert forall x :: Current(s, x) ==> Current(s', x);
    } else {
      assert forall x :: Current(s', x) ==> e.Open? && x == e.id;
      assert e.Open? ==> Current(s', e.id) && !s'.requests[e.id].more;
    }
  }

  /** A page that arrives in time is shown, up to thirty items more; a failure is reported and shows nothing less. */
  lemma ArrivalMeaning(lists: Lists, s: State, id: nat)
    requires Inv(lists, s) && Current(s, id)
    ensures var r := s.requests[id]; var list := lists(r.project);
            var shown, failed := Apply(lists, s, Answer(id)).panel, Apply(lists, s, Fail(id)).panel;
            && r.offset <= |list| && s.panel.items == list[..r.offset] && s.latest == Some(r.project)
            && (if r.offset + 30 < |list|
                then shown.items == list[..r.offset + 30] && shown.nextOffset == Some(r.offset + 30)
                else shown.items == list && shown.nextOffset == None)
            && !shown.failed && !shown.loading && !shown.appending
            && failed.items == s.panel.items && failed.nextOffset == s.panel.nextOffset
            && failed.failed && !failed.loading && !failed.appending
  {
    var r := s.requests[id];
    assert RequestOk(s, id);
    PageOf(lists(r.project), PAGE_SIZE, r.offset);
    PageExtends(lists(r.project), PAGE_SIZE, r.offset);
    assert r.offset == 0 ==> lists(r.project)[..0] == [];
    OnlyOwn(lists, s, id);
  }

  /** Only one of loading and appending is under way. */
  lemma OnlyOwn(lists: Lists, s: State, id: nat)
    requires Inv(lists, s) && Current(s, id)
    ensures s.panel.loading <==> !s.requests[id].more
    ensures s.panel.appending <==> s.requests[id].more
  {
    assert RequestOk(s, id);
  }

  lemma StepKeepsInv(lists: Lists, s: State, e: Event)
    requires Inv(lists, s) && Enabled(s, e)
    ensures Inv(lists, Apply(lists, s, e))
  {
    match e {
      case Answer(id) => AnswerKeepsInv(lists, s, id);
      case Fail(id) => FailKeepsInv(lists, s, id);
      case More(id) => MoreKeepsInv(lists, s, id);
      case _ => ClearKeepsInv(lists, s, e);
    }
  }

  lemma {:induction false} RunKeepsInv(lists: Lists, s: State, run: seq<Event>)
    requires Inv(lists, s) && Valid(lists, s, run)
    ensures Inv(lists, Play(lists, s, run))
    decreases |run|
  {
    if run != [] {
      StepKeepsInv(lists, s, run[0]);
      RunKeepsInv(lists, Apply(lists, s, run[0]), run[1..]);
    }
  }

  /** With nothing loading or failed, an open project without a next page is there as a whole. */
  ghost predicate LoadedOk(lists: Lists, s: State) {
    s.latest.Some? && !s.panel.loading && !s.panel.failed && s.panel.nextOffset.None? ==>
      s.panel.items == lists(s.latest.value)
  }

  lemma {:induction false} RunKeepsLoaded(lists: Lists, s: State, run: seq<Event>)
    requires Inv(lists, s) && LoadedOk(lists, s) && Valid(lists, s, run)
    ensures LoadedOk(lists, Play(lists, s, run))
    decreases |run|
  {
    if run != [] {
      StepKeepsInv(lists, s, run[0]);
      var e := run[0];
      if (e.Answer? || e.Fail?) && Current(s, e.id) {
        assert RequestOk(s, e.id);
        PageExtends(lists(s.requests[e.id].project), PAGE_SIZE, s.requests[e.id].offset);
        assert s.requests[e.id].offset == 0 ==> lists(s.requests[e.id].project)[..0] == [];
      }
      RunKeepsLoaded(lists, Apply(lists, s, run[0]), run[1..]);
    }
  }

  /**
   In every interleaving of opening, refreshing, loading more, leaving and late or failed answers,
   the panel holds a gapless prefix of the list of the project last opened, without a foreign item,
   and the whole of it once loading has ended without failure and no page is left. It says that it is
   loading or appending exactly while such a request of its own is under way.
   */
  lemma PanelHoldsPrefix(lists: Lists, run: seq<Event>)
    requires Valid(lists, Init(), run)
    ensures HoldsPrefix(lists, Play(lists, Init(), run))
    ensures LoadedOk(lists, Play(lists, Init(), run))
    ensures var s := Play(lists, Init(), run);
            && (s.panel.loading <==> exists id :: Current(s, id) && !s.requests[id].more)
            && (s.panel.appending <==> exists id :: Current(s, id) && s.requests[id].more)
            && (s.panel.failed ==> !s.panel.loading && !s.panel.appending)
  {
    RunKeepsInv(lists, Init(), run);
    var s := Play(lists, Init(), run);
    assert forall id :: Current(s, id) ==> RequestOk(s, id);
    RunKeepsLoaded(lists, Init(), run);
  }
}
