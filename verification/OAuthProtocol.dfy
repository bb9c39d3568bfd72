/**
 Tabs, logins, logouts and a rotating authorization server in any interleaving. The server spends
 a refresh token when it rotates it and treats a later use as a replay.
 */
module OAuthProtocol {
  import opened Prelude
  import opened OAuthBrowser

  datatype Server = Server(
    spent: set<string>,
    refreshes: set<string>,
    issued: map<string, string>,
    presented: seq<string>,
    excused: set<string>,
    rotations: seq<Rotation>,
    replayed: bool)

  /** A committed rotation: what the call rejected and the session it spent. */
  datatype Rotation = Rotation(rejected: string, existing: Session)

  datatype State = State(b: Browser, s: Server)

  datatype Event =
    | Call(tab: Tab, rejected: string)
    | EnterLock(tab: Tab)
    | Serve(tab: Tab, reply: Reply)
    | Deliver(tab: Tab)
    | Look(tab: Tab)
    | Login(tab: Tab, session: Session)
    | Logout(tab: Tab)

  predicate FreshTokens(s: Server, access: string, refresh: string) {
    access != "" && refresh != "" && access !in s.issued && refresh !in s.refreshes
  }

  /**
   A request asks for a refresh without a token or with one that its tab has got, as it was rejected.
   The lock admits one tab when the browser has locks. The server rotates only an unspent token,
   issues tokens never issued before, and answers every POST of the tab that waits for it.
   */
  predicate Enabled(st: State, e: Event) {
    match e
    case Call(tab, rejected) => rejected == "" || (tab, rejected) in st.b.carried
    case EnterLock(tab) => tab in st.b.phases && st.b.phases[tab].Queued? && (st.b.locks ==> LockFree(st.b))
    case Serve(tab, reply) =>
      tab in st.b.phases && st.b.phases[tab].Posted?
      && (reply.Rotated? ==>
            st.b.phases[tab].existing.refresh !in st.s.spent && FreshTokens(st.s, reply.access, reply.refresh))
    case Deliver(tab) => tab in st.b.phases && st.b.phases[tab].Answered?
    case Look(tab) => true
    case Login(tab, session) => FreshTokens(st.s, session.access, session.refresh) && session.client != ""
    case Logout(tab) => true
  }

  function Present(s: Server, b: Browser, tab: Tab): Server {
    if tab in b.phases && b.phases[tab].Posted?
    then s.(presented := s.presented + [b.phases[tab].existing.refresh])
    else s
  }

  function Process(s: Server, rejected: string, existing: Session, reply: Reply): Server {
    match reply
    case Unavailable => s.(excused := s.excused + {existing.refresh})
    case Refused => s.(replayed := s.replayed || existing.refresh in s.spent)
    case Rotated(access, refresh) => s.(
      spent := s.spent + {existing.refresh},
      refreshes := s.refreshes + {refresh},
      issued := s.issued[access := refresh],
      rotations := s.rotations + [Rotation(rejected, existing)])
  }

  function Apply(st: State, e: Event): State {
    match e
    case Call(tab, rejected) => st.(b := OAuthBrowser.Start(st.b, tab, rejected))
    case EnterLock(tab) =>
      if tab in st.b.phases && st.b.phases[tab].Queued? then
        var b := Enter(st.b, tab);
        State(b, Present(st.s, b, tab))
      else st
    case Serve(tab, reply) =>
      if tab in st.b.phases && st.b.phases[tab].Posted? then
        var p := st.b.phases[tab];
        State(st.b.(phases := st.b.phases[tab := Answered(p.rejected, p.existing, reply)]),
              Process(st.s, p.rejected, p.existing, reply))
      else st
    case Deliver(tab) =>
      if tab in st.b.phases && st.b.phases[tab].Answered? then st.(b := Finish(st.b, tab)) else st
    case Look(tab) => st.(b := TakeToken(st.b, tab).1)
    case Login(tab, session) => State(SaveSession(st.b, tab, session), st.s.(
      refreshes := st.s.refreshes + {session.refresh},
      issued := st.s.issued[session.access := session.refresh]))
    case Logout(tab) => st.(b := ClearRecord(st.b, tab))
  }

  predicate Valid(st: State, run: seq<Event>)
    decreases |run|
  {
    run == [] || (Enabled(st, run[0]) && Valid(Apply(st, run[0]), run[1..]))
  }

  function Play(st: State, run: seq<Event>): State
    decreases |run|
  {
    if run == [] then st else Play(Apply(st, run[0]), run[1..])
  }

  lemma {:induction false} PlayAppend(st: State, run: seq<Event>, e: Event)
    ensures Play(st, run + [e]) == Apply(Play(st, run), e)
    ensures Valid(st, run + [e]) <==> Valid(st, run) && Enabled(Play(st, run), e)
    decreases |run|
  {
    if run == [] {
      assert (run + [e])[1..] == [];
      assert Play(Apply(st, e), []) == Apply(st, e);
    } else {
      assert (run + [e])[1..] == run[1..] + [e];
      PlayAppend(Apply(st, run[0]), run[1..], e);
    }
  }

  // ---------------------------------------------------------------- the invariant

  predicate RecordUses(b: Browser, token: string) {
    b.stored.Saved? && Usable(b.stored.session) && b.stored.session.refresh == token
  }

  predicate LegacyUses(b: Browser, tab: Tab, token: string) {
    tab in b.legacy && Usable(b.legacy[tab]) && b.legacy[tab].refresh == token
  }

  /** No refresh token is saved in two places. */
  ghost predicate Distinct(b: Browser) {
    && (forall x, y, t :: LegacyUses(b, x, t) && LegacyUses(b, y, t) ==> x == y)
    && (forall x, t :: LegacyUses(b, x, t) ==> !RecordUses(b, t))
  }

  ghost predicate Known(st: State) {
    && (forall t :: RecordUses(st.b, t) ==> t in st.s.refreshes)
    && (forall x, t :: LegacyUses(st.b, x, t) ==> t in st.s.refreshes)
  }

  /** Nothing has happened yet. */
  ghost predicate Initial(st: State) {
    st.b.phases == map[] && st.b.carried == {} && st.s.spent == {} && st.s.presented == [] && st.s.excused == {}
    && st.s.rotations == [] && !st.s.replayed && Known(st)
  }

  /** A rotation of `t` is on its way back to `tab`. */
  predicate Returning(b: Browser, tab: Tab, t: string) {
    tab in b.phases && b.phases[tab].Answered? && b.phases[tab].reply.Rotated? && b.phases[tab].existing.refresh == t
  }

  /** The stored token is unspent unless its rotation is on its way back. */
  ghost predicate Unspent(st: State) {
    && st.s.spent <= st.s.refreshes
    && (forall x, t :: LegacyUses(st.b, x, t) ==> t !in st.s.spent)
    && (forall t :: RecordUses(st.b, t) && t in st.s.spent ==> exists x :: Returning(st.b, x, t))
  }

  /** What the tab inside the lock may rely on. */
  ghost predicate HolderOk(st: State, tab: Tab)
    requires Holds(st.b, tab)
  {
    var p := st.b.phases[tab];
    && p.existing.refresh in st.s.refreshes
    && (forall x :: !LegacyUses(st.b, x, p.existing.refresh))
    && (p.Posted? ==> p.existing.refresh !in st.s.spent)
    && (p.Answered? && p.reply.Rotated? ==>
          && p.reply.access != "" && p.reply.refresh != ""
          && p.reply.refresh in st.s.refreshes && p.reply.refresh !in st.s.spent
          && p.reply.refresh != p.existing.refresh
          && !RecordUses(st.b, p.reply.refresh)
          && (forall x :: !LegacyUses(st.b, x, p.reply.refresh)))
  }

  ghost predicate Inv(st: State) {
    && st.b.locks
    && (forall x, y :: Holds(st.b, x) && Holds(st.b, y) ==> x == y)
    && Distinct(st.b) && Known(st) && Unspent(st)
    && (forall x :: Holds(st.b, x) ==> HolderOk(st, x))
    && !st.s.replayed
  }

  lemma InitialInv(st: State)
    requires Initial(st) && st.b.locks && Distinct(st.b)
    ensures Inv(st)
  {
  }

  // ---------------------------------------------------------------- no replay

  /** With locks and no token saved twice, the server never sees a spent refresh token. */
  lemma NoReplay(st: State, run: seq<Event>)
    requires Initial(st) && st.b.locks && Distinct(st.b) && Valid(st, run)
    ensures !Play(st, run).s.replayed
  {
    InitialInv(st);
    RunKeepsInv(st, run);
  }

  /**
   The server sees no replay in any run exactly when the browser has locks and no refresh token is
   saved in two places to begin with.
   */
  lemma NoReplayIff(st: State)
    requires Initial(st)
    ensures (forall run :: Valid(st, run) ==> !Play(st, run).s.replayed) <==> st.b.locks && Distinct(st.b)
  {
    if st.b.locks && Distinct(st.b) {
      forall run | Valid(st, run)
        ensures !Play(st, run).s.replayed
      {
        NoReplay(st, run);
      }
    } else if !st.b.locks {
      var run := UnlockedReplays(st);
    } else {
      var run := SharedTokenReplays(st);
    }
  }

  /** Without locks two tabs present one token. */
  lemma UnlockedReplays(st: State) returns (run: seq<Event>)
    requires Initial(st) && !st.b.locks
    ensures Valid(st, run) && Play(st, run).s.replayed
  {
    var access := Unused(st.s.issued.Keys);
    var refresh := Unused(st.s.refreshes);
    var session := Session(access, refresh, "client");
    assert Valid(st, []) && Play(st, []) == st;
    run := Run1(st, [], Login(0, session));
    run := Run1(st, run, Look(0));
    run := Run1(st, run, Look(1));
    run := Run1(st, run, Call(0, access));
    run := Run1(st, run, Call(1, access));
    run := Run1(st, run, EnterLock(0));
    run := Run1(st, run, EnterLock(1));
    var now := Play(st, run);
    assert now.b.phases[0] == Posted(access, session) && now.b.phases[1] == Posted(access, session);
    var access' := Unused(now.s.issued.Keys);
    var refresh' := Unused(now.s.refreshes);
    run := Run1(st, run, Serve(0, Rotated(access', refresh')));
    run := Run1(st, run, Serve(1, Refused));
  }

  /** A token saved in two places, as in a duplicated tab, is presented again after it was spent. */
  lemma SharedTokenReplays(st: State) returns (run: seq<Event>)
    requires Initial(st) && st.b.locks && !Distinct(st.b)
    ensures Valid(st, run) && Play(st, run).s.replayed
  {
    assert Valid(st, []) && Play(st, []) == st;
    if exists x: Tab, t :: LegacyUses(st.b, x, t) && RecordUses(st.b, t) {
      var q: Tab, t :| LegacyUses(st.b, q, t) && RecordUses(st.b, t);
      run := RefreshSpends(st, [], q + 1, st.b.stored.session);
      run := SpentCopyReplays(st, run, q, q + 1);
    } else {
      var p: Tab, q: Tab, t :| LegacyUses(st.b, p, t) && LegacyUses(st.b, q, t) && p != q;
      var other := p + q + 1;
      run := Run1(st, [], Logout(other));
      run := RefreshSpends(st, run, p, st.b.legacy[p]);
      run := SpentCopyReplays(st, run, q, other);
    }
  }

  // ---------------------------------------------------------------- steps

  lemma StepKeepsInv(st: State, e: Event)
    requires Inv(st) && Enabled(st, e)
    ensures Inv(Apply(st, e))
  {
    match e {
      case Call(tab, rejected) => CallKeepsInv(st, tab, rejected);
      case EnterLock(tab) => EnterKeepsInv(st, tab);
      case Serve(tab, reply) => ServeKeepsInv(st, tab, reply);
      case Deliver(tab) => DeliverKeepsInv(st, tab);
      case Look(tab) => TakeKeepsInv(st, tab);
      case Login(tab, session) => LoginKeepsInv(st, tab, session);
      case Logout(tab) => ClearKeepsInv(st, tab);
    }
  }

  lemma {:induction false} RunKeepsInv(st: State, run: seq<Event>)
    requires Inv(st) && Valid(st, run)
    ensures Inv(Play(st, run))
    decreases |run|
  {
    if run != [] {
      StepKeepsInv(st, run[0]);
      RunKeepsInv(Apply(st, run[0]), run[1..]);
    }
  }

  /** Saved tokens only disappear, and no call takes the lock or loses a rotation that is needed. */
  ghost predicate Shrinks(b: Browser, b': Browser) {
    && b'.locks == b.locks
    && (forall x :: Holds(b', x) ==> Holds(b, x) && b'.phases[x] == b.phases[x])
    && (forall x, t :: LegacyUses(b', x, t) ==> LegacyUses(b, x, t))
    && (forall t :: RecordUses(b', t) ==> RecordUses(b, t))
    && (forall x, t :: RecordUses(b', t) && Returning(b, x, t) ==> Returning(b', x, t))
  }

  lemma ShrinkKeepsInv(st: State, b: Browser)
    requires Inv(st) && Shrinks(st.b, b)
    ensures Inv(State(b, st.s))
  {
    var st' := State(b, st.s);
    forall x | Holds(b, x)
      ensures HolderOk(st', x)
    {
      assert HolderOk(st, x);
    }
    forall t | RecordUses(b, t) && t in st.s.spent
      ensures exists x :: Returning(b, x, t)
    {
      var x :| Returning(st.b, x, t);
      assert Returning(b, x, t);
    }
  }

  lemma ReadKeepsInv(st: State, tab: Tab)
    requires Inv(st)
    ensures Inv(st.(b := ReadSession(st.b, tab).1))
    ensures ReadSession(st.b, tab).0.Some? ==>
              RecordUses(ReadSession(st.b, tab).1, ReadSession(st.b, tab).0.value.refresh)
  {
    var (r, b) := ReadSession(st.b, tab);
    if r.Some? && b.stored != st.b.stored {
      MigrateKeepsInv(st, tab);
    } else {
      ShrinkKeepsInv(st, b);
    }
  }

  lemma TakeKeepsInv(st: State, tab: Tab)
    requires Inv(st)
    ensures Inv(st.(b := TakeToken(st.b, tab).1))
  {
    ReadKeepsInv(st, tab);
    ShrinkKeepsInv(st.(b := ReadSession(st.b, tab).1), TakeToken(st.b, tab).1);
  }

  /** Per-tab credentials that become the record stay in one place. */
  lemma MigrateKeepsInv(st: State, tab: Tab)
    requires Inv(st) && tab in st.b.legacy && Usable(st.b.legacy[tab])
    ensures Inv(st.(b := st.b.(stored := Saved(st.b.legacy[tab]), legacy := st.b.legacy - {tab})))
  {
    var b := st.b.(stored := Saved(st.b.legacy[tab]), legacy := st.b.legacy - {tab});
    var st' := st.(b := b);
    var token := st.b.legacy[tab].refresh;
    assert LegacyUses(st.b, tab, token);
    assert forall x, t :: LegacyUses(b, x, t) ==> x != tab && LegacyUses(st.b, x, t);
    assert forall t :: RecordUses(b, t) ==> t == token;
    forall x | Holds(b, x)
      ensures Holds(st.b, x) && HolderOk(st', x)
    {
      assert Holds(st.b, x) && HolderOk(st, x);
    }
  }

  lemma ClearKeepsInv(st: State, tab: Tab)
    requires Inv(st)
    ensures Inv(st.(b := ClearRecord(st.b, tab)))
  {
    ShrinkKeepsInv(st, ClearRecord(st.b, tab));
  }

  /** Ending a call keeps the invariant once its rotation, if any, is no longer needed. */
  lemma ResolveKeepsInv(st: State, tab: Tab, value: string)
    requires Inv(st)
    requires forall t :: Returning(st.b, tab, t) ==> !RecordUses(st.b, t)
    ensures Inv(st.(b := Resolve(st.b, tab, value)))
  {
    var b := Resolve(st.b, tab, value);
    assert forall t :: RecordUses(b, t) ==> RecordUses(st.b, t);
    ShrinkKeepsInv(st, b);
  }

  lemma EnterKeepsInv(st: State, tab: Tab)
    requires Inv(st) && Enabled(st, EnterLock(tab))
    ensures Inv(Apply(st, EnterLock(tab)))
  {
    var (existing, b) := ReadSession(st.b, tab);
    var read := st.(b := b);
    ReadKeepsInv(st, tab);
    var rejected := st.b.phases[tab].rejected;
    if existing.None? {
      ResolveKeepsInv(read, tab, "");
    } else if rejected != existing.value.access && existing.value.access != "" {
      ResolveKeepsInv(read, tab, existing.value.access);
    } else {
      PostKeepsInv(read, tab, rejected, existing.value);
    }
  }

  lemma PostKeepsInv(st: State, tab: Tab, rejected: string, existing: Session)
    requires Inv(st) && LockFree(st.b) && tab in st.b.phases && RecordUses(st.b, existing.refresh)
    ensures var b := st.b.(phases := st.b.phases[tab := Posted(rejected, existing)]);
            Inv(State(b, Present(st.s, b, tab)))
  {
    var b := st.b.(phases := st.b.phases[tab := Posted(rejected, existing)]);
    var st' := State(b, Present(st.s, b, tab));
    assert forall x, t :: LegacyUses(b, x, t) <==> LegacyUses(st.b, x, t);
    assert forall t :: RecordUses(b, t) <==> RecordUses(st.b, t);
    assert forall x :: Holds(b, x) ==> x == tab || Holds(st.b, x);
    assert HolderOk(st', tab);
    assert forall x, t :: !Returning(st.b, x, t);
  }

  lemma ServeKeepsInv(st: State, tab: Tab, reply: Reply)
    requires Inv(st) && Enabled(st, Serve(tab, reply))
    ensures Inv(Apply(st, Serve(tab, reply)))
  {
    var p := st.b.phases[tab];
    var st' := Apply(st, Serve(tab, reply));
    assert Holds(st.b, tab) && HolderOk(st, tab);
    assert forall x, t :: LegacyUses(st'.b, x, t) <==> LegacyUses(st.b, x, t);
    assert forall t :: RecordUses(st'.b, t) <==> RecordUses(st.b, t);
    forall x | Holds(st'.b, x)
      ensures x == tab && HolderOk(st', x)
    {
      assert Holds(st.b, x);
    }
    forall t | RecordUses(st'.b, t) && t in st'.s.spent
      ensures exists x :: Returning(st'.b, x, t)
    {
      if t in st.s.spent {
        var x :| Returning(st.b, x, t);
        assert Holds(st.b, x);
      }
      assert Returning(st'.b, tab, t);
    }
  }

  lemma DeliverKeepsInv(st: State, tab: Tab)
    requires Inv(st) && Enabled(st, Deliver(tab))
    ensures Inv(Apply(st, Deliver(tab)))
  {
    var p := st.b.phases[tab];
    var (latest, b) := ReadSession(st.b, tab);
    var read := st.(b := b);
    assert Holds(st.b, tab) && HolderOk(st, tab);
    ReadKeepsInv(st, tab);
    match p.reply {
      case Unavailable => ResolveKeepsInv(st, tab, "");
      case Refused =>
        if latest.Some? && latest.value.refresh == p.existing.refresh {
          ClearKeepsInv(read, tab);
          ResolveKeepsInv(read.(b := ClearRecord(b, tab)), tab, "");
        } else {
          ResolveKeepsInv(read, tab, "");
        }
      case Rotated(access, refresh) =>
        if latest.None? {
          ResolveKeepsInv(read, tab, "");
        } else if latest.value.refresh != p.existing.refresh {
          ResolveKeepsInv(read, tab, latest.value.access);
        } else {
          SaveRotationKeepsInv(read, tab);
        }
    }
  }

  lemma SaveRotationKeepsInv(st: State, tab: Tab)
    requires Inv(st) && tab in st.b.phases && st.b.phases[tab].Answered? && st.b.phases[tab].reply.Rotated?
    ensures var p := st.b.phases[tab];
            var rotated := Session(p.reply.access, p.reply.refresh, p.existing.client);
            Inv(st.(b := Resolve(SaveSession(st.b, tab, rotated), tab, p.reply.access)))
  {
    var p := st.b.phases[tab];
    var rotated := Session(p.reply.access, p.reply.refresh, p.existing.client);
    var b := Resolve(SaveSession(st.b, tab, rotated), tab, p.reply.access);
    assert Holds(st.b, tab) && HolderOk(st, tab);
    forall x
      ensures !Holds(b, x)
    {
      if Holds(b, x) { assert Holds(st.b, x); }
    }
    assert forall x, t :: LegacyUses(b, x, t) ==> LegacyUses(st.b, x, t);
  }

  lemma LoginKeepsInv(st: State, tab: Tab, session: Session)
    requires Inv(st) && Enabled(st, Login(tab, session))
    ensures Inv(Apply(st, Login(tab, session)))
  {
    var st' := Apply(st, Login(tab, session));
    assert forall x, t :: LegacyUses(st'.b, x, t) ==> LegacyUses(st.b, x, t);
    forall x | Holds(st'.b, x)
      ensures Holds(st.b, x) && HolderOk(st', x)
    {
      assert Holds(st.b, x) && HolderOk(st, x);
    }
  }

  lemma CallKeepsInv(st: State, tab: Tab, rejected: string)
    requires Inv(st)
    ensures Inv(Apply(st, Call(tab, rejected)))
  {
    ShrinkKeepsInv(st, OAuthBrowser.Start(st.b, tab, rejected));
  }

  // ---------------------------------------------------------------- runs that replay

  /** A string no finite set of strings contains. */
  lemma {:induction false} Unused(taken: set<string>) returns (s: string)
    ensures s !in taken && s != ""
    ensures forall x :: x in taken ==> |x| < |s|
    decreases |taken|
  {
    if taken == {} {
      s := "t";
    } else {
      var x :| x in taken;
      var rest := Unused(taken - {x});
      s := rest + x;
      assert |s| == |rest| + |x|;
      assert forall y :: y in taken ==> y == x || y in taken - {x};
    }
  }

  lemma Run1(st: State, run: seq<Event>, e: Event) returns (longer: seq<Event>)
    requires Valid(st, run) && Enabled(Play(st, run), e)
    ensures Valid(st, longer) && Play(st, longer) == Apply(Play(st, run), e)
  {
    PlayAppend(st, run, e);
    longer := run + [e];
  }

  /** What is left when a request has taken its token, been rejected and posted the session it found. */
  function Asked(b: Browser, tab: Tab, existing: Session): Browser {
    ReadSession(b, tab).1.(
      phases := map[tab := Posted(existing.access, existing)], carried := b.carried + {(tab, existing.access)})
  }

  lemma AskPosts(st: State, tab: Tab, existing: Session)
    requires st.b.phases == map[] && ReadSession(st.b, tab).0 == Some(existing)
    ensures var looked := Apply(st, Look(tab)); var called := Apply(looked, Call(tab, existing.access));
            && Enabled(st, Look(tab)) && Enabled(looked, Call(tab, existing.access)) && Enabled(called, EnterLock(tab))
            && Apply(called, EnterLock(tab)).b == Asked(st.b, tab, existing)
            && Apply(called, EnterLock(tab)).s == st.s.(presented := st.s.presented + [existing.refresh])
  {
    var looked := Apply(st, Look(tab));
    assert ReadSession(looked.b, tab) == (Some(existing), looked.b);
    var called := Apply(looked, Call(tab, existing.access));
    assert called.b == looked.b.(phases := map[tab := Queued(existing.access)]);
    assert ReadSession(called.b, tab) == (Some(existing), called.b);
    assert called.b.phases[tab := Posted(existing.access, existing)] == map[tab := Posted(existing.access, existing)];
  }

  /** With nobody refreshing, a rejected request of a tab that finds a session posts it. */
  lemma Asks(st: State, run: seq<Event>, tab: Tab, existing: Session) returns (longer: seq<Event>)
    requires Valid(st, run)
    requires Play(st, run).b.phases == map[] && ReadSession(Play(st, run).b, tab).0 == Some(existing)
    ensures Valid(st, longer)
    ensures var now, next := Play(st, run), Play(st, longer);
            && next.b == Asked(now.b, tab, existing)
            && next.s == now.s.(presented := now.s.presented + [existing.refresh])
  {
    hide Play, Valid, Apply, Enabled;
    AskPosts(Play(st, run), tab, existing);
    longer := Run1(st, run, Look(tab));
    longer := Run1(st, longer, Call(tab, existing.access));
    longer := Run1(st, longer, EnterLock(tab));
  }

  /** A tab that still holds a spent token and finds no record presents it again. */
  lemma SpentCopyReplays(st: State, run: seq<Event>, q: Tab, other: Tab) returns (longer: seq<Event>)
    requires Valid(st, run) && other != q
    requires var now := Play(st, run);
             && now.b.phases == map[] && q in now.b.legacy && Usable(now.b.legacy[q])
             && now.b.legacy[q].refresh in now.s.spent
    ensures Valid(st, longer) && Play(st, longer).s.replayed
  {
    var session := Play(st, run).b.legacy[q];
    longer := Run1(st, run, Logout(other));
    longer := Asks(st, longer, q, session);
    longer := Run1(st, longer, Serve(q, Refused));
  }

  /** One undisturbed refresh call: it spends the saved token. */
  lemma RefreshSpends(st: State, run: seq<Event>, p: Tab, existing: Session) returns (longer: seq<Event>)
    requires Valid(st, run)
    requires var now := Play(st, run);
             && now.b.phases == map[] && ReadSession(now.b, p).0 == Some(existing) && existing.refresh !in now.s.spent
    ensures Valid(st, longer)
    ensures var before := Play(st, run); var now := Play(st, longer);
            && now.b.phases == map[] && existing.refresh in now.s.spent
            && (forall q :: q != p ==> (q in now.b.legacy <==> q in before.b.legacy)
                                       && (q in now.b.legacy ==> now.b.legacy[q] == before.b.legacy[q]))
  {
    hide Play, Valid;
    var before := Play(st, run);
    longer := Asks(st, run, p, existing);
    var posted := Play(st, longer);
    var access := Unused(before.s.issued.Keys);
    var refresh := Unused(before.s.refreshes);
    longer := Run1(st, longer, Serve(p, Rotated(access, refresh)));
    longer := Run1(st, longer, Deliver(p));
    DeliverStores(posted, p, Rotated(access, refresh));
  }

  lemma DeliverStores(st: State, p: Tab, reply: Reply)
    requires p in st.b.phases && st.b.phases == map[p := st.b.phases[p]] && st.b.phases[p].Posted? && reply.Rotated?
    ensures var now := Apply(Apply(st, Serve(p, reply)), Deliver(p));
            && now.b.phases == map[]
            && (forall q :: q != p ==> (q in now.b.legacy <==> q in st.b.legacy)
                                       && (q in now.b.legacy ==> now.b.legacy[q] == st.b.legacy[q]))
  {
    hide SaveSession;
    var served := Apply(st, Serve(p, reply)).b;
    assert served == st.b.(phases := map[p := Answered(st.b.phases[p].rejected, st.b.phases[p].existing, reply)]);
    var (b, value) := Conclude(served, p, st.b.phases[p].existing, reply);
    ConcludeKeeps(served, p, st.b.phases[p].existing, reply);
    assert b.phases - {p} == map[];
  }

  /** No refresh call and no other tab's credentials are touched. */
  ghost predicate OnlyTab(b: Browser, b': Browser, p: Tab) {
    && b'.phases == b.phases
    && (forall q :: q != p ==> (q in b'.legacy <==> q in b.legacy) && (q in b'.legacy ==> b'.legacy[q] == b.legacy[q]))
  }

  lemma ReadKeeps(b: Browser, p: Tab)
    ensures OnlyTab(b, ReadSession(b, p).1, p)
  {
  }

  lemma SaveKeeps(b: Browser, p: Tab, s: Session)
    ensures OnlyTab(b, SaveSession(b, p, s), p)
  {
  }

  lemma ConcludeKeeps(b: Browser, p: Tab, existing: Session, reply: Reply)
    ensures OnlyTab(b, Conclude(b, p, existing, reply).0, p)
  {
    hide ReadSession, SaveSession;
    ReadKeeps(b, p);
    if reply.Rotated? {
      SaveKeeps(ReadSession(b, p).1, p, Session(reply.access, reply.refresh, existing.client));
    }
  }
}
