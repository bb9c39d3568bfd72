/** What the stored session is worth over a run: matching tokens, rotations, logouts and logins. */
module OAuthSessions {
  import opened Prelude
  import opened OAuthBrowser
  import opened OAuthProtocol

  // ---------------------------------------------------------------- shapes of a step

  /** Saved credentials only move or vanish. */
  predicate LegacyShrinks(b: Browser, b': Browser) {
    forall x :: x in b'.legacy ==> x in b.legacy && b'.legacy[x] == b.legacy[x]
  }

  lemma ReadShape(b: Browser, tab: Tab)
    ensures ReadSession(b, tab).1.phases == b.phases && LegacyShrinks(b, ReadSession(b, tab).1)
  {
  }

  lemma ConcludeShape(b: Browser, tab: Tab, existing: Session, reply: Reply)
    ensures var b' := Conclude(b, tab, existing, reply).0;
            && b'.phases == b.phases && LegacyShrinks(b, b')
            && (b'.stored.Absent? || b'.stored == b.stored || b'.stored == ReadSession(b, tab).1.stored
                || (reply.Rotated? && reply.access != ""
                    && b'.stored == Saved(Session(reply.access, reply.refresh, existing.client))))
  {
    hide ReadSession;
    ReadShape(b, tab);
  }

  /** What ending a call can leave in the record. */
  lemma FinishShape(b: Browser, tab: Tab)
    requires tab in b.phases && b.phases[tab].Answered?
    ensures var b' := Finish(b, tab); var p := b.phases[tab];
            && b'.phases == b.phases - {tab} && LegacyShrinks(b, b')
            && (b'.stored.Absent? || b'.stored == b.stored || b'.stored == ReadSession(b, tab).1.stored
                || (p.reply.Rotated? && p.reply.access != ""
                    && b'.stored == Saved(Session(p.reply.access, p.reply.refresh, p.existing.client))))
  {
    hide ReadSession, Conclude;
    ConcludeShape(b, tab, b.phases[tab].existing, b.phases[tab].reply);
  }

  /** What entering the lock can leave: a posted phase with the stored session, or an ended call. */
  lemma EnterShape(b: Browser, tab: Tab)
    requires tab in b.phases && b.phases[tab].Queued?
    ensures var b' := Enter(b, tab); var (existing, read) := ReadSession(b, tab);
            var rejected := b.phases[tab].rejected;
            && b'.stored == read.stored && b'.legacy == read.legacy && LegacyShrinks(b, b')
            && (if existing.Some? && (rejected == existing.value.access || existing.value.access == "")
                then b'.phases == b.phases[tab := Posted(rejected, existing.value)] && b'.carried == b.carried
                else b'.phases == b.phases - {tab})
  {
  }

  // ---------------------------------------------------------------- one issuance

  /** The access token, when there is one, was issued together with the refresh token. */
  predicate Matches(issued: map<string, string>, s: Session) {
    s.access != "" ==> s.access in issued && issued[s.access] == s.refresh
  }

  /** A call that has posted rejected the very access token of the session, if that has one. */
  ghost predicate PhasePaired(issued: map<string, string>, p: Phase) {
    match p
    case Queued(_) => true
    case Posted(rejected, existing) =>
      Matches(issued, existing) && (existing.access == "" || rejected == existing.access)
    case Answered(rejected, existing, reply) =>
      Matches(issued, existing) && (existing.access == "" || rejected == existing.access)
      && (reply.Rotated? ==> reply.access in issued && issued[reply.access] == reply.refresh)
  }

  ghost predicate Paired(st: State) {
    && (st.b.stored.Saved? && Usable(st.b.stored.session) ==> Matches(st.s.issued, st.b.stored.session))
    && (forall x :: x in st.b.legacy ==> Matches(st.s.issued, st.b.legacy[x]))
    && (forall x :: x in st.b.phases ==> PhasePaired(st.s.issued, st.b.phases[x]))
  }

  /** Tokens are issued once, so old pairs stay. */
  lemma IssuedGrows(st: State, e: Event)
    requires Enabled(st, e)
    ensures forall a :: a in st.s.issued ==> a in Apply(st, e).s.issued && Apply(st, e).s.issued[a] == st.s.issued[a]
  {
  }

  lemma PairsGrow(st: State, e: Event, p: Phase)
    requires Enabled(st, e) && PhasePaired(st.s.issued, p)
    ensures PhasePaired(Apply(st, e).s.issued, p)
  {
    IssuedGrows(st, e);
  }

  lemma ReadPaired(st: State, tab: Tab)
    requires Paired(st)
    ensures Paired(st.(b := ReadSession(st.b, tab).1))
    ensures ReadSession(st.b, tab).0.Some? ==> Matches(st.s.issued, ReadSession(st.b, tab).0.value)
  {
  }

  lemma StepKeepsPaired(st: State, e: Event)
    requires Paired(st) && Enabled(st, e)
    ensures Paired(Apply(st, e))
  {
    match e {
      case EnterLock(tab) => EnterPaired(st, tab);
      case Deliver(tab) => DeliverPaired(st, tab);
      case Look(tab) => ReadPaired(st, tab);
      case _ => OtherPaired(st, e);
    }
  }

  lemma OtherPaired(st: State, e: Event)
    requires Paired(st) && Enabled(st, e) && (e.Call? || e.Serve? || e.Login? || e.Logout?)
    ensures Paired(Apply(st, e))
  {
    IssuedGrows(st, e);
    var st' := Apply(st, e);
    forall x | x in st'.b.phases
      ensures PhasePaired(st'.s.issued, st'.b.phases[x])
    {
      if x in st.b.phases {
        PairsGrow(st, e, st.b.phases[x]);
      }
    }
  }

  lemma EnterPaired(st: State, tab: Tab)
    requires Paired(st) && Enabled(st, EnterLock(tab))
    ensures Paired(Apply(st, EnterLock(tab)))
  {
    hide Enter, ReadSession;
    EnterShape(st.b, tab);
    ReadPaired(st, tab);
  }

  lemma DeliverPaired(st: State, tab: Tab)
    requires Paired(st) && Enabled(st, Deliver(tab))
    ensures Paired(Apply(st, Deliver(tab)))
  {
    hide Finish;
    FinishShape(st.b, tab);
    ReadPaired(st, tab);
    assert PhasePaired(st.s.issued, st.b.phases[tab]);
  }

  /** The stored access and refresh tokens always come from the same issuance. */
  lemma {:induction false} StoredTokensMatch(st: State, run: seq<Event>)
    requires Paired(st) && Valid(st, run)
    ensures Paired(Play(st, run))
    decreases |run|
  {
    if run != [] {
      StepKeepsPaired(st, run[0]);
      StoredTokensMatch(Apply(st, run[0]), run[1..]);
    }
  }

  // ---------------------------------------------------------------- one rotation per access token

  /** No tab keeps a usable session without an access token. */
  ghost predicate TabsNamed(b: Browser) {
    forall x :: x in b.legacy && Usable(b.legacy[x]) ==> b.legacy[x].access != ""
  }

  predicate RecordNameless(b: Browser) {
    b.stored.Saved? && Usable(b.stored.session) && b.stored.session.access == ""
  }

  /** The record is still `n`: no request has got a token yet, and no other session was ever posted. */
  ghost predicate Untouched(st: State, n: Session) {
    && st.b.stored == Saved(n)
    && (forall c :: c in st.b.carried ==> c.1 == "")
    && (forall x :: x in st.b.phases ==> st.b.phases[x].rejected == "")
    && (forall x :: Holds(st.b, x) ==> st.b.phases[x].existing == n)
    && (forall i :: 0 <= i < |st.s.rotations| ==> st.s.rotations[i].existing == n)
  }

  /** `n` is the only session without an access token that is ever posted, and only without a token. */
  ghost predicate OneNameless(st: State, n: Session) {
    && TabsNamed(st.b)
    && (RecordNameless(st.b) ==> Untouched(st, n))
    && (forall x :: Holds(st.b, x) && st.b.phases[x].existing.access == "" ==>
          st.b.phases[x].existing == n && st.b.phases[x].rejected == "")
    && (forall i :: 0 <= i < |st.s.rotations| && st.s.rotations[i].existing.access == "" ==>
          st.s.rotations[i].existing == n && st.s.rotations[i].rejected == "")
  }

  lemma InitialNameless(st: State) returns (n: Session)
    requires Initial(st) && TabsNamed(st.b)
    ensures OneNameless(st, n)
  {
    n := if st.b.stored.Saved? then st.b.stored.session else Session("", "", "");
  }

  /** A session without an access token is posted only from the record, and then the record stays. */
  lemma EnterNameless(b: Browser, tab: Tab)
    requires TabsNamed(b) && tab in b.phases && b.phases[tab].Queued?
    ensures var b' := Enter(b, tab); var rejected := b.phases[tab].rejected;
            && TabsNamed(b')
            && (RecordNameless(b') ==> b' == b.(phases := b.phases[tab := Posted(rejected, b.stored.session)]))
            && (RecordNameless(b') ==> RecordNameless(b))
            && (forall x :: Holds(b', x) ==>
                  if x == tab
                  then b'.phases[x].rejected == rejected
                       && (b'.phases[x].existing.access == "" ==>
                             RecordNameless(b) && b.stored == Saved(b'.phases[x].existing))
                  else Holds(b, x) && b'.phases[x] == b.phases[x])
  {
  }

  lemma EnterKeepsNameless(st: State, tab: Tab, n: Session)
    requires OneNameless(st, n) && Enabled(st, EnterLock(tab))
    ensures OneNameless(Apply(st, EnterLock(tab)), n)
  {
    hide Enter, TabsNamed, RecordNameless;
    EnterNameless(st.b, tab);
  }

  /** A record without an access token stays only when the call resolves to no token. */
  lemma FinishNameless(b: Browser, tab: Tab, n: Session)
    requires tab in b.phases && b.phases[tab].Answered? && b.phases[tab].existing == n
    requires b.stored == Saved(n) && RecordNameless(b)
    ensures var b' := Finish(b, tab);
            RecordNameless(b') ==> b'.stored == Saved(n) && b'.carried == b.carried + {(tab, "")}
  {
    var p := b.phases[tab];
    assert ReadSession(b, tab) == (Some(n), b);
    var (b', value) := Conclude(b, tab, n, p.reply);
    if p.reply.Rotated? && p.reply.access != "" && p.reply.refresh != "" {
      assert b' == SaveSession(b, tab, Session(p.reply.access, p.reply.refresh, n.client));
    }
  }

  lemma DeliverKeepsNameless(st: State, tab: Tab, n: Session)
    requires OneNameless(st, n) && Enabled(st, Deliver(tab))
    ensures OneNameless(Apply(st, Deliver(tab)), n)
  {
    hide Finish;
    FinishShape(st.b, tab);
    var st' := Apply(st, Deliver(tab));
    assert forall x :: x in st'.b.phases ==> x in st.b.phases && st'.b.phases[x] == st.b.phases[x];
    if RecordNameless(st.b) {
      assert Holds(st.b, tab);
      FinishNameless(st.b, tab, n);
    }
  }

  lemma StepKeepsNameless(st: State, e: Event, n: Session)
    requires OneNameless(st, n) && Enabled(st, e)
    ensures OneNameless(Apply(st, e), n)
  {
    match e {
      case EnterLock(tab) => EnterKeepsNameless(st, tab, n);
      case Deliver(tab) => DeliverKeepsNameless(st, tab, n);
      case Serve(tab, reply) => ServeKeepsNameless(st, tab, reply, n);
      case _ => OtherKeepsNameless(st, e, n);
    }
  }

  lemma ServeKeepsNameless(st: State, tab: Tab, reply: Reply, n: Session)
    requires OneNameless(st, n) && Enabled(st, Serve(tab, reply))
    ensures OneNameless(Apply(st, Serve(tab, reply)), n)
  {
    assert Holds(st.b, tab);
    assert forall x :: Holds(Apply(st, Serve(tab, reply)).b, x) ==> Holds(st.b, x);
  }

  lemma OtherKeepsNameless(st: State, e: Event, n: Session)
    requires OneNameless(st, n) && Enabled(st, e) && (e.Call? || e.Look? || e.Login? || e.Logout?)
    ensures OneNameless(Apply(st, e), n)
  {
    assert forall x :: Holds(Apply(st, e).b, x) ==> Holds(st.b, x);
  }

  /** Each rotation spent its own refresh token, of the session whose access token was rejected. */
  ghost predicate Ledger(st: State) {
    && (forall i :: 0 <= i < |st.s.rotations| ==>
          var r := st.s.rotations[i];
          && r.existing.refresh in st.s.spent
          && r.rejected == r.existing.access
          && Matches(st.s.issued, r.existing))
    && (forall i, j :: 0 <= i < j < |st.s.rotations| ==>
          st.s.rotations[i].existing.refresh != st.s.rotations[j].existing.refresh)
  }

  lemma StepKeepsLedger(st: State, e: Event, n: Session)
    requires Ledger(st) && Paired(st) && OneNameless(st, n) && Enabled(st, e)
    ensures Ledger(Apply(st, e))
  {
    IssuedGrows(st, e);
    if e.Serve? && e.reply.Rotated? {
      assert Holds(st.b, e.tab) && PhasePaired(st.s.issued, st.b.phases[e.tab]);
    } else {
      assert Apply(st, e).s.rotations == st.s.rotations;
    }
  }

  lemma {:induction false} RunKeepsLedger(st: State, run: seq<Event>, n: Session)
    requires Ledger(st) && Paired(st) && OneNameless(st, n) && Valid(st, run)
    ensures Ledger(Play(st, run)) && Paired(Play(st, run)) && OneNameless(Play(st, run), n)
    decreases |run|
  {
    hide Ledger, Paired, OneNameless, Enabled, Apply;
    if run != [] {
      StepKeepsLedger(st, run[0], n);
      StepKeepsPaired(st, run[0]);
      StepKeepsNameless(st, run[0], n);
      RunKeepsLedger(Apply(st, run[0]), run[1..], n);
    }
  }

  /** However many calls of however many tabs reject one access token, at most one rotates. */
  lemma AtMostOneRotation(st: State, run: seq<Event>, i: nat, j: nat)
    requires Initial(st) && Paired(st) && TabsNamed(st.b) && Valid(st, run)
    requires i < j < |Play(st, run).s.rotations|
    ensures Play(st, run).s.rotations[i].rejected != Play(st, run).s.rotations[j].rejected
  {
    var n := InitialNameless(st);
    RunKeepsLedger(st, run, n);
  }

  /**
   Once a rejected access token has been rotated, a later call that rejects it and finds a session
   returns the stored token and posts nothing.
   */
  lemma LaterCallsReuse(st: State, run: seq<Event>, i: nat, tab: Tab)
    requires Initial(st) && st.b.locks && Distinct(st.b) && Paired(st) && TabsNamed(st.b) && Valid(st, run)
    requires i < |Play(st, run).s.rotations|
    requires Enabled(Play(st, run), EnterLock(tab))
    requires Play(st, run).b.phases[tab] == Queued(Play(st, run).s.rotations[i].rejected)
    ensures var now := Play(st, run); var next := Apply(now, EnterLock(tab));
            && next.s.presented == now.s.presented
            && tab !in next.b.phases && tab in next.b.returned
            && (if ReadSession(now.b, tab).0.Some?
                then next.b.stored == Saved(ReadSession(now.b, tab).0.value)
                     && next.b.returned[tab] == next.b.stored.session.access
                else next.b.returned[tab] == "")
  {
    var n := InitialNameless(st);
    InitialInv(st);
    RunKeepsInv(st, run);
    RunKeepsLedger(st, run, n);
    var now := Play(st, run);
    hide Play, Valid, Initial;
    if ReadSession(now.b, tab).0.Some? {
      FoundIsOther(now, i, tab, n);
    }
  }

  /** With the lock free, the session a call finds has an access token, and not one rotated before. */
  lemma FoundIsOther(now: State, i: nat, tab: Tab, n: Session)
    requires Inv(now) && LockFree(now.b) && Ledger(now) && Paired(now) && OneNameless(now, n)
    requires i < |now.s.rotations| && ReadSession(now.b, tab).0.Some?
    ensures var existing := ReadSession(now.b, tab).0.value;
            existing.access != "" && existing.access != now.s.rotations[i].rejected
  {
    var existing := ReadSession(now.b, tab).0.value;
    var b := ReadSession(now.b, tab).1;
    var r := now.s.rotations[i];
    assert RecordNameless(now.b) ==> existing == n && r.existing == n;
    ReadKeepsInv(now, tab);
    ReadPaired(now, tab);
    assert RecordUses(b, existing.refresh) && b.phases == now.b.phases;
    assert forall x, t :: !Returning(b, x, t);
    assert existing.refresh !in now.s.spent by {
      assert Unspent(now.(b := b));
    }
    assert r.existing.refresh in now.s.spent;
  }

  // ---------------------------------------------------------------- a tab's session without an access token

  /** The rotated tokens replace the stored session. */
  lemma AnswerStores(st: State, tab: Tab, rejected: string, s: Session, saved: Session)
    requires Usable(s) && st.b.phases == map[tab := Posted(rejected, s)] && st.b.stored == Saved(s)
    requires s.refresh !in st.s.spent && FreshTokens(st.s, saved.access, saved.refresh) && saved.client == s.client
    ensures var reply := Rotated(saved.access, saved.refresh);
            var next := Apply(Apply(st, Serve(tab, reply)), Deliver(tab));
            && Enabled(st, Serve(tab, reply)) && Enabled(Apply(st, Serve(tab, reply)), Deliver(tab))
            && next.b.phases == map[] && next.b.stored == Saved(saved) && next.b.legacy == st.b.legacy - {tab}
            && st.b.carried <= next.b.carried
            && next.s == Process(st.s, rejected, s, reply)
  {
    var reply := Rotated(saved.access, saved.refresh);
    var served := Apply(st, Serve(tab, reply));
    assert served.b == st.b.(phases := map[tab := Answered(rejected, s, reply)]);
    assert ReadSession(served.b, tab) == (Some(s), served.b);
    assert Conclude(served.b, tab, s, reply) == (SaveSession(served.b, tab, saved), saved.access);
    assert (map[tab := Answered(rejected, s, reply)]) - {tab} == map[];
  }

  /** A run in which a rejected request of a tab rotates the stored session undisturbed. */
  lemma RotatesStored(st: State, run: seq<Event>, tab: Tab, s: Session) returns (longer: seq<Event>)
    requires Valid(st, run) && Usable(s)
    requires Play(st, run).b.phases == map[] && Play(st, run).b.stored == Saved(s)
    requires s.refresh !in Play(st, run).s.spent
    ensures Valid(st, longer)
    ensures var now, next := Play(st, run), Play(st, longer);
            && next.b.phases == map[] && next.b.legacy == now.b.legacy - {tab}
            && (tab, s.access) in next.b.carried
            && next.s.rotations == now.s.rotations + [Rotation(s.access, s)]
            && next.s.spent == now.s.spent + {s.refresh}
  {
    hide Valid, Play, Apply, Enabled;
    var now := Play(st, run);
    var access := Unused(now.s.issued.Keys);
    var refresh := Unused(now.s.refreshes);
    var saved := Session(access, refresh, s.client);
    longer := Asks(st, run, tab, s);
    AnswerStores(Play(st, longer), tab, s.access, s, saved);
    longer := Run1(st, longer, Serve(tab, Rotated(saved.access, saved.refresh)));
    longer := Run1(st, longer, Deliver(tab));
  }

  lemma LoginStores(st: State, tab: Tab, s: Session)
    requires FreshTokens(st.s, s.access, s.refresh) && s.client != ""
    ensures var next := Apply(st, Login(tab, s));
            && Enabled(st, Login(tab, s))
            && next.b == st.b.(stored := Saved(s), legacy := st.b.legacy - {tab})
            && next.s.spent == st.s.spent && next.s.rotations == st.s.rotations
  {
  }

  /** After a logout, another tab that reads its session makes it the stored one. */
  lemma LogoutReveals(st: State, tab: Tab, x: Tab)
    requires x != tab && x in st.b.legacy && Usable(st.b.legacy[x])
    ensures var out := Apply(st, Logout(tab)); var next := Apply(out, Look(x));
            && Enabled(st, Logout(tab)) && Enabled(out, Look(x))
            && next.b.stored == Saved(st.b.legacy[x]) && next.b.phases == st.b.phases
            && st.b.carried <= next.b.carried && next.s == st.s
  {
  }

  /**
   While another tab keeps a session without an access token, a login, a request that is rejected
   and refreshed, and a logout leave behind a request with a rotated token; once the other tab has
   read its session, that one is posted for it.
   */
  lemma NamelessPostsAgain(st: State) returns (run: seq<Event>, tab: Tab, s: Session)
    requires Initial(st) && !TabsNamed(st.b)
    ensures Valid(st, run) && Usable(s) && s.access == "" && s.refresh !in Play(st, run).s.spent
    ensures var now := Play(st, run);
            && now.b.phases == map[] && now.b.stored == Saved(s)
            && |now.s.rotations| == 1 && (tab, now.s.rotations[0].rejected) in now.b.carried
  {
    var x: Tab :| x in st.b.legacy && Usable(st.b.legacy[x]) && st.b.legacy[x].access == "";
    s, tab := st.b.legacy[x], x + 1;
    assert LegacyUses(st.b, x, s.refresh);
    EmptyRun(st);
    hide Valid, Play;
    var access := Unused(st.s.issued.Keys);
    var refresh := Unused(st.s.refreshes);
    var login := Session(access, refresh, "client");
    hide Apply, Enabled;
    LoginStores(st, tab, login);
    run := Run1(st, [], Login(tab, login));
    run := RotatesStored(st, run, tab, login);
    LogoutReveals(Play(st, run), tab, x);
    run := Run1(st, run, Logout(tab));
    run := Run1(st, run, Look(x));
  }

  ghost predicate RejectedOnce(rotations: seq<Rotation>) {
    forall i, j :: 0 <= i < j < |rotations| ==> rotations[i].rejected != rotations[j].rejected
  }

  /** The request left behind asks for a refresh and posts the session it finds. */
  lemma CarriedPosts(st: State, run: seq<Event>, tab: Tab, rejected: string, s: Session) returns (longer: seq<Event>)
    requires Valid(st, run) && Usable(s) && s.access == ""
    requires Play(st, run).b.phases == map[] && Play(st, run).b.stored == Saved(s)
    requires (tab, rejected) in Play(st, run).b.carried
    ensures Valid(st, longer)
    ensures var now, next := Play(st, run), Play(st, longer);
            && next == now.(b := now.b.(phases := map[tab := Queued(rejected)]))
            && Enabled(next, EnterLock(tab))
            && Apply(next, EnterLock(tab)).b.phases == map[tab := Posted(rejected, s)]
            && Apply(next, EnterLock(tab)).s == now.s.(presented := now.s.presented + [s.refresh])
  {
    hide Valid, Play;
    var now := Play(st, run);
    longer := Run1(st, run, Call(tab, rejected));
    var called := Play(st, longer);
    assert called.b == now.b.(phases := map[tab := Queued(rejected)]);
    assert ReadSession(called.b, tab) == (Some(s), called.b);
    assert called.b.phases[tab := Posted(rejected, s)] == map[tab := Posted(rejected, s)];
  }

  /**
   In every run each rejected access token is rotated at most once, exactly when no tab keeps a
   session without an access token from before the upgrade.
   */
  lemma AtMostOneRotationIff(st: State)
    requires Initial(st) && Paired(st)
    ensures (forall run :: Valid(st, run) ==> RejectedOnce(Play(st, run).s.rotations)) <==> TabsNamed(st.b)
  {
    hide Initial, Paired, TabsNamed, Valid, Play;
    if TabsNamed(st.b) {
      forall run | Valid(st, run)
        ensures RejectedOnce(Play(st, run).s.rotations)
      {
        forall i: nat, j: nat | i < j < |Play(st, run).s.rotations|
          ensures Play(st, run).s.rotations[i].rejected != Play(st, run).s.rotations[j].rejected
        {
          AtMostOneRotation(st, run, i, j);
        }
      }
    } else {
      var run, tab, s := NamelessPostsAgain(st);
      var now := Play(st, run);
      var rejected := now.s.rotations[0].rejected;
      run := CarriedPosts(st, run, tab, rejected, s);
      run := Run1(st, run, EnterLock(tab));
      var access := Unused(now.s.issued.Keys);
      var refresh := Unused(now.s.refreshes);
      run := Run1(st, run, Serve(tab, Rotated(access, refresh)));
      var r := Play(st, run).s.rotations;
      assert r[0].rejected == rejected && r[1].rejected == rejected;
    }
  }

  /** `tab` is about to take the lock for a call that rejects an access token rotated before. */
  ghost predicate LaterCall(now: State, tab: Tab) {
    Enabled(now, EnterLock(tab))
    && exists i :: 0 <= i < |now.s.rotations| && now.b.phases[tab] == Queued(now.s.rotations[i].rejected)
  }

  /** In every run such a call posts nothing, under exactly the same condition. */
  lemma LaterCallsReuseIff(st: State)
    requires Initial(st) && st.b.locks && Distinct(st.b) && Paired(st)
    ensures (forall run, tab :: Valid(st, run) && LaterCall(Play(st, run), tab) ==>
               Apply(Play(st, run), EnterLock(tab)).s.presented == Play(st, run).s.presented)
            <==> TabsNamed(st.b)
  {
    hide Initial, Distinct, Paired, TabsNamed, Valid, Play;
    if TabsNamed(st.b) {
      forall run, tab | Valid(st, run) && LaterCall(Play(st, run), tab)
        ensures Apply(Play(st, run), EnterLock(tab)).s.presented == Play(st, run).s.presented
      {
        var now := Play(st, run);
        var i :| 0 <= i < |now.s.rotations| && now.b.phases[tab] == Queued(now.s.rotations[i].rejected);
        LaterCallsReuse(st, run, i, tab);
      }
    } else {
      var run, tab, s := NamelessPostsAgain(st);
      run := CarriedPosts(st, run, tab, Play(st, run).s.rotations[0].rejected, s);
      var now := Play(st, run);
      assert now.b.phases[tab] == Queued(now.s.rotations[0].rejected);
      assert LaterCall(now, tab);
    }
  }

  // ---------------------------------------------------------------- logouts and logins

  ghost predicate NoLogin(run: seq<Event>) {
    forall i :: 0 <= i < |run| ==> !run[i].Login?
  }

  /** Neither the record nor a tab holds a usable session. */
  ghost predicate SignedOut(b: Browser) {
    b.stored.Absent? && forall x :: x in b.legacy ==> !Usable(b.legacy[x])
  }

  lemma {:induction false} LogoutStays(st: State, run: seq<Event>)
    requires SignedOut(st.b) && Valid(st, run) && NoLogin(run)
    ensures SignedOut(Play(st, run).b)
    decreases |run|
  {
    if run != [] {
      assert !run[0].Login?;
      assert SignedOut(Apply(st, run[0]).b);
      LogoutStays(Apply(st, run[0]), run[1..]);
    }
  }

  /**
   A logout stays in force until the next login, in every run with refreshes in any state, exactly
   when no other tab still keeps a usable session of its own from before the upgrade.
   */
  lemma LogoutStaysIff(st: State, tab: Tab)
    ensures (forall run :: Valid(Apply(st, Logout(tab)), run) && NoLogin(run) ==>
               Play(Apply(st, Logout(tab)), run).b.stored.Absent?)
            <==> forall x :: x in st.b.legacy && x != tab ==> !Usable(st.b.legacy[x])
  {
    var out := Apply(st, Logout(tab));
    assert forall x :: x in out.b.legacy <==> x in st.b.legacy && x != tab;
    if SignedOut(out.b) {
      forall run | Valid(out, run) && NoLogin(run)
        ensures Play(out, run).b.stored.Absent?
      {
        LogoutStays(out, run);
      }
    } else {
      var x :| x in out.b.legacy && Usable(out.b.legacy[x]);
      var look := [Look(x)];
      assert look[1..] == [];
      assert Valid(Apply(out, Look(x)), []) && Play(Apply(out, Look(x)), []) == Apply(out, Look(x));
      assert Valid(out, look) && NoLogin(look);
      assert Play(out, look).b.stored.Saved?;
    }
  }

  /** A token that is saved nowhere any more. */
  ghost predicate Detached(b: Browser, token: string) {
    !RecordUses(b, token) && forall x :: !LegacyUses(b, x, token)
  }

  /** The refresh of `tab` with token `token` is still under way. */
  predicate Refreshing(b: Browser, tab: Tab, token: string) {
    Holds(b, tab) && b.phases[tab].existing.refresh == token
  }

  /** While the tab holds the lock nobody saves its old token again. */
  lemma StepKeepsDetached(st: State, e: Event, tab: Tab, token: string)
    requires Inv(st) && Enabled(st, e) && Refreshing(st.b, tab, token) && Detached(st.b, token)
    requires e != Deliver(tab)
    ensures Refreshing(Apply(st, e).b, tab, token) && Detached(Apply(st, e).b, token)
  {
    assert HolderOk(st, tab);
    var b := Apply(st, e).b;
    if e.Deliver? {
      assert Holds(st.b, e.tab);
      assert false;
    } else if e.EnterLock? {
      assert false;
    } else {
      assert forall x :: LegacyUses(b, x, token) ==> LegacyUses(st.b, x, token);
      assert RecordUses(b, token) ==> RecordUses(st.b, token) || LegacyUses(st.b, e.tab, token);
    }
  }

  lemma {:induction false} StaysDetached(st: State, run: seq<Event>, tab: Tab, token: string)
    requires Inv(st) && Valid(st, run) && Refreshing(st.b, tab, token) && Detached(st.b, token)
    requires forall i :: 0 <= i < |run| ==> run[i] != Deliver(tab)
    ensures Inv(Play(st, run)) && Refreshing(Play(st, run).b, tab, token) && Detached(Play(st, run).b, token)
    decreases |run|
  {
    if run != [] {
      StepKeepsInv(st, run[0]);
      StepKeepsDetached(st, run[0], tab, token);
      StaysDetached(Apply(st, run[0]), run[1..], tab, token);
    }
  }

  /**
   A refresh that ends after a logout or a new login, in whatever tab and however late, leaves the
   record as it finds it, and resolves to the access token of the session that is there now, if the
   server has sent tokens and there is one, and to none otherwise.
   */
  lemma StaleRefreshNeverWrites(st: State, change: Event, run: seq<Event>, tab: Tab)
    requires Inv(st) && Holds(st.b, tab)
    requires (change.Logout? || change.Login?) && Enabled(st, change)
    requires Valid(Apply(st, change), run) && forall i :: 0 <= i < |run| ==> run[i] != Deliver(tab)
    requires Enabled(Play(Apply(st, change), run), Deliver(tab))
    ensures StaleEnd(Play(Apply(st, change), run), tab)
  {
    hide Inv, Play, Valid, Apply, Enabled, ReadSession, Refreshing, Detached;
    var token := st.b.phases[tab].existing.refresh;
    var changed := Apply(st, change);
    StepKeepsInv(st, change);
    ChangeDetaches(st, change, tab);
    StaysDetached(changed, run, tab, token);
    DetachedNeverWrites(Play(changed, run), tab, token);
  }

  /** How a refresh ends whose token nobody has saved any more. */
  ghost predicate StaleEnd(now: State, tab: Tab)
    requires Enabled(now, Deliver(tab))
  {
    var reply := now.b.phases[tab].reply;
    var (latest, read) := ReadSession(now.b, tab);
    var next := Apply(now, Deliver(tab)).b;
    && next.stored == (if reply.Unavailable? then now.b.stored else read.stored)
    && tab !in next.phases && tab in next.returned
    && next.returned[tab] == (if reply.Rotated? && latest.Some? then latest.value.access else "")
  }

  /** A logout or login leaves the token of a pending refresh saved nowhere. */
  lemma ChangeDetaches(st: State, change: Event, tab: Tab)
    requires Inv(st) && Holds(st.b, tab) && (change.Logout? || change.Login?) && Enabled(st, change)
    ensures var b := Apply(st, change).b; var token := st.b.phases[tab].existing.refresh;
            Refreshing(b, tab, token) && Detached(b, token)
  {
    var b := Apply(st, change).b;
    assert HolderOk(st, tab);
    assert forall x, t :: LegacyUses(b, x, t) ==> LegacyUses(st.b, x, t);
  }

  /** The response of a refresh whose token is saved nowhere any more. */
  lemma DetachedNeverWrites(st: State, tab: Tab, token: string)
    requires Inv(st) && Enabled(st, Deliver(tab)) && Refreshing(st.b, tab, token) && Detached(st.b, token)
    ensures StaleEnd(st, tab)
  {
    assert HolderOk(st, tab);
    var (latest, b) := ReadSession(st.b, tab);
    assert latest.Some? && latest.value.refresh == token ==> RecordUses(st.b, token) || LegacyUses(st.b, tab, token);
  }

  /** The refresh of `tab` is under way for the very session that is stored. */
  predicate Attached(b: Browser, tab: Tab, s: Session) {
    Holds(b, tab) && b.phases[tab].existing == s && b.stored == Saved(s) && Usable(s)
  }

  lemma StepKeepsAttached(st: State, e: Event, tab: Tab, s: Session)
    requires Inv(st) && Enabled(st, e) && Attached(st.b, tab, s)
    requires !e.Login? && !e.Logout? && e != Deliver(tab)
    ensures Attached(Apply(st, e).b, tab, s)
  {
    assert e.Deliver? ==> Holds(st.b, e.tab);
    assert LockFree(st.b) ==> !Holds(st.b, tab);
  }

  /**
   Without a login or logout in between, a refresh that posted the stored session ends as the server
   decided: new tokens are stored for the same client and returned, a refusal signs out, and any
   other failure keeps the session.
   */
  lemma {:induction false} UndisturbedRefresh(st: State, run: seq<Event>, tab: Tab, s: Session)
    requires Inv(st) && Attached(st.b, tab, s) && Valid(st, run)
    requires forall i :: 0 <= i < |run| ==> !run[i].Login? && !run[i].Logout? && run[i] != Deliver(tab)
    requires Enabled(Play(st, run), Deliver(tab))
    ensures var now := Play(st, run); var next := Apply(now, Deliver(tab)).b;
            && tab !in next.phases && tab in next.returned
            && match now.b.phases[tab].reply
               case Rotated(access, refresh) =>
                 next.stored == Saved(Session(access, refresh, s.client)) && next.returned[tab] == access
               case Refused => next.stored.Absent? && next.returned[tab] == ""
               case Unavailable => next.stored == Saved(s) && next.returned[tab] == ""
    decreases |run|
  {
    if run == [] {
      assert HolderOk(st, tab);
    } else {
      StepKeepsInv(st, run[0]);
      StepKeepsAttached(st, run[0], tab, s);
      UndisturbedRefresh(Apply(st, run[0]), run[1..], tab, s);
    }
  }

  // ---------------------------------------------------------------- single steps

  /**
   Reading moves nothing but what it must: it finds the record's session if that is usable, else the
   tab's own, which then becomes the record, and else nothing, and then the record is empty.
   */
  lemma ReadMeaning(b: Browser, tab: Tab)
    ensures var (found, b') := ReadSession(b, tab);
            && (found.Some? ==> Usable(found.value) && b'.stored == Saved(found.value))
            && (found.None? ==> b'.stored.Absent? && !(tab in b.legacy && Usable(b.legacy[tab])))
            && (b.stored.Saved? && Usable(b.stored.session) ==> found == Some(b.stored.session) && b' == b)
            && (found.Some? && b' != b ==> tab in b.legacy && found.value == b.legacy[tab] && tab !in b'.legacy)
            && ReadSession(b', tab) == (found, b')
  {
  }

  /** A request gets the access token of the session that reading finds, and the tab carries it. */
  lemma TakeMeaning(b: Browser, tab: Tab)
    ensures var (token, b') := TakeToken(b, tab); var (found, read) := ReadSession(b, tab);
            && token == (if found.Some? then found.value.access else "")
            && b'.stored == read.stored && b'.legacy == read.legacy && b'.phases == b.phases
            && b'.carried == b.carried + {(tab, token)}
  {
  }

  /** Saving a complete session makes every tab find it; anything else signs the tab out. */
  lemma SaveMeaning(b: Browser, tab: Tab, s: Session, other: Tab)
    ensures var b' := SaveSession(b, tab, s);
            && tab !in b'.legacy
            && (if s.access != "" && s.refresh != "" && s.client != ""
                then ReadSession(b', other).0 == Some(s) else ReadSession(b', tab).0 == None)
  {
  }

  /** Calls of one tab that overlap are one call: the first decides what is rejected. */
  lemma CallsJoin(st: State, tab: Tab, first: string, second: string)
    ensures var once := Apply(st, Call(tab, first));
            && tab in once.b.phases
            && (tab !in st.b.phases ==> once.b.phases[tab] == Queued(first))
            && Apply(once, Call(tab, second)) == once
  {
  }

  /**
   Inside the lock a call posts exactly when the session it finds has the rejected access token or
   none, and then that session's refresh token; otherwise it resolves to the token it finds.
   */
  lemma EnterMeaning(st: State, tab: Tab)
    requires Enabled(st, EnterLock(tab))
    ensures var rejected := st.b.phases[tab].rejected; var found := ReadSession(st.b, tab).0;
            var next := Apply(st, EnterLock(tab));
            && next.b.stored == (if found.Some? then Saved(found.value) else Absent)
            && (if found.Some? && (found.value.access == rejected || found.value.access == "")
                then next.s.presented == st.s.presented + [found.value.refresh]
                     && tab in next.b.phases && next.b.phases[tab] == Posted(rejected, found.value)
                else next.s == st.s && tab !in next.b.phases && tab in next.b.returned
                     && next.b.returned[tab] == (if found.Some? then found.value.access else ""))
  {
  }

  /** A successful response without both tokens changes nothing and resolves to no token. */
  lemma TokensMissing(b: Browser, tab: Tab)
    requires tab in b.phases && b.phases[tab].Answered? && b.phases[tab].reply.Rotated?
    requires b.phases[tab].reply.access == "" || b.phases[tab].reply.refresh == ""
    ensures var b' := Finish(b, tab);
            b'.stored == b.stored && b'.legacy == b.legacy && tab !in b'.phases
            && tab in b'.returned && b'.returned[tab] == ""
  {
  }

  // ---------------------------------------------------------------- presenting a token again

  /** Tokens presented so far are known, and are saved only by the tab that waits or after a failure. */
  ghost predicate PresentedOk(st: State) {
    && (forall i :: 0 <= i < |st.s.presented| ==> st.s.presented[i] in st.s.refreshes)
    && (forall x, t :: LegacyUses(st.b, x, t) ==> t !in st.s.presented)
    && (forall t :: RecordUses(st.b, t) && t in st.s.presented ==>
          t in st.s.excused || exists x :: Refreshing(st.b, x, t))
    && (forall x :: x in st.b.phases && st.b.phases[x].Answered? ==> AnswerOk(st, x))
    && (forall i, j :: 0 <= i < j < |st.s.presented| && st.s.presented[i] == st.s.presented[j] ==>
          st.s.presented[i] in st.s.excused)
  }

  ghost predicate AnswerOk(st: State, x: Tab)
    requires x in st.b.phases && st.b.phases[x].Answered?
  {
    match st.b.phases[x].reply
    case Rotated(_, refresh) => refresh !in st.s.presented
    case Unavailable => st.b.phases[x].existing.refresh in st.s.excused
    case Refused => true
  }

  lemma InitialPresented(st: State)
    requires Initial(st)
    ensures PresentedOk(st)
  {
  }

  /** What survives a step that presents nothing: tokens and answers only disappear. */
  lemma PresentedShrinks(st: State, b: Browser)
    requires Inv(st) && PresentedOk(st) && Shrinks(st.b, b)
    requires forall x, t :: RecordUses(b, t) && Refreshing(st.b, x, t) ==> Refreshing(b, x, t)
    ensures PresentedOk(State(b, st.s))
  {
    var st' := State(b, st.s);
    forall t | RecordUses(b, t) && t in st.s.presented && t !in st.s.excused
      ensures exists x :: Refreshing(b, x, t)
    {
      var x :| Refreshing(st.b, x, t);
      assert Refreshing(b, x, t);
    }
    forall x | x in b.phases && b.phases[x].Answered?
      ensures AnswerOk(st', x)
    {
      assert Holds(b, x) && Holds(st.b, x) && AnswerOk(st, x);
    }
  }

  lemma ReadPresented(st: State, tab: Tab)
    requires Inv(st) && PresentedOk(st)
    ensures PresentedOk(st.(b := ReadSession(st.b, tab).1))
  {
    var (r, b) := ReadSession(st.b, tab);
    if r.Some? && b.stored != st.b.stored {
      assert LegacyUses(st.b, tab, r.value.refresh);
      assert forall x, t :: LegacyUses(b, x, t) ==> LegacyUses(st.b, x, t);
      assert forall t :: RecordUses(b, t) ==> t == r.value.refresh;
      forall x | x in b.phases && b.phases[x].Answered?
        ensures AnswerOk(st.(b := b), x)
      {
        assert AnswerOk(st, x);
      }
    } else {
      PresentedShrinks(st, b);
    }
  }

  lemma LookPresented(st: State, tab: Tab)
    requires Inv(st) && PresentedOk(st)
    ensures PresentedOk(Apply(st, Look(tab)))
  {
    ReadKeepsInv(st, tab);
    ReadPresented(st, tab);
    PresentedShrinks(st.(b := ReadSession(st.b, tab).1), TakeToken(st.b, tab).1);
  }

  lemma EnterPresented(st: State, tab: Tab)
    requires Inv(st) && PresentedOk(st) && Enabled(st, EnterLock(tab))
    ensures PresentedOk(Apply(st, EnterLock(tab)))
  {
    var (existing, b) := ReadSession(st.b, tab);
    var read := st.(b := b);
    ReadKeepsInv(st, tab);
    ReadPresented(st, tab);
    EnterShape(st.b, tab);
    ReadShape(st.b, tab);
    var st' := Apply(st, EnterLock(tab));
    assert forall x, t :: LegacyUses(st'.b, x, t) <==> LegacyUses(b, x, t);
    assert forall t :: RecordUses(st'.b, t) <==> RecordUses(b, t);
    assert forall x, t :: !Refreshing(b, x, t) by { assert LockFree(st.b); }
    if st'.s.presented != st.s.presented {
      var token := existing.value.refresh;
      assert st'.s.presented == st.s.presented + [token] && RecordUses(b, token);
      assert Refreshing(st'.b, tab, token);
      assert forall i :: 0 <= i < |st.s.presented| ==> st.s.presented[i] in st.s.presented;
    }
  }

  lemma ServePresented(st: State, tab: Tab, reply: Reply)
    requires Inv(st) && PresentedOk(st) && Enabled(st, Serve(tab, reply))
    ensures PresentedOk(Apply(st, Serve(tab, reply)))
  {
    var st' := Apply(st, Serve(tab, reply));
    assert forall x, t :: LegacyUses(st'.b, x, t) <==> LegacyUses(st.b, x, t);
    assert forall t :: RecordUses(st'.b, t) <==> RecordUses(st.b, t);
    assert forall x, t :: Refreshing(st.b, x, t) ==> Refreshing(st'.b, x, t);
    forall x | x in st'.b.phases && st'.b.phases[x].Answered?
      ensures AnswerOk(st', x)
    {
      assert x != tab ==> AnswerOk(st, x);
    }
  }

  lemma DeliverPresented(st: State, tab: Tab)
    requires Inv(st) && PresentedOk(st) && Enabled(st, Deliver(tab))
    ensures PresentedOk(Apply(st, Deliver(tab)))
  {
    FinishShape(st.b, tab);
    assert Holds(st.b, tab);
    assert forall x :: Holds(st.b, x) ==> x == tab;
    var st' := Apply(st, Deliver(tab));
    forall x | x in st'.b.phases
      ensures st'.b.phases[x].Queued?
    {
      assert x != tab && st'.b.phases[x] == st.b.phases[x] && !Holds(st.b, x);
    }
    assert forall x, t :: LegacyUses(st'.b, x, t) ==> LegacyUses(st.b, x, t);
    forall t | RecordUses(st'.b, t) && t in st.s.presented
      ensures t in st.s.excused
    {
      DeliveredToken(st, tab, t);
    }
  }

  /** A presented token that is still stored after its call ended had met a failing server. */
  lemma DeliveredToken(st: State, tab: Tab, t: string)
    requires Inv(st) && PresentedOk(st) && Enabled(st, Deliver(tab))
    requires RecordUses(Finish(st.b, tab), t) && t in st.s.presented
    ensures t in st.s.excused
  {
    var p := st.b.phases[tab];
    var (latest, b) := ReadSession(st.b, tab);
    ReadPresented(st, tab);
    ReadShape(st.b, tab);
    assert Holds(st.b, tab) && HolderOk(st, tab) && AnswerOk(st, tab);
    assert forall x :: Holds(st.b, x) ==> x == tab;
    assert forall x :: Holds(b, x) ==> Holds(st.b, x);
    assert b.phases[tab] == p;
    if p.reply.Unavailable? {
      assert RecordUses(st.b, t);
    } else if p.reply.Refused? || latest.None? || latest.value.refresh != p.existing.refresh {
      assert RecordUses(b, t);
      assert !Refreshing(b, tab, t);
    }
  }

  lemma LoginPresented(st: State, tab: Tab, session: Session)
    requires Inv(st) && PresentedOk(st) && Enabled(st, Login(tab, session))
    ensures PresentedOk(Apply(st, Login(tab, session)))
  {
    var st' := Apply(st, Login(tab, session));
    assert forall x, t :: LegacyUses(st'.b, x, t) ==> LegacyUses(st.b, x, t);
    forall x | x in st'.b.phases && st'.b.phases[x].Answered?
      ensures AnswerOk(st', x)
    {
      assert AnswerOk(st, x);
    }
  }

  lemma StepKeepsPresented(st: State, e: Event)
    requires Inv(st) && PresentedOk(st) && Enabled(st, e)
    ensures PresentedOk(Apply(st, e))
  {
    match e {
      case Call(tab, rejected) => PresentedShrinks(st, OAuthBrowser.Start(st.b, tab, rejected));
      case EnterLock(tab) => EnterPresented(st, tab);
      case Serve(tab, reply) => ServePresented(st, tab, reply);
      case Deliver(tab) => DeliverPresented(st, tab);
      case Look(tab) => LookPresented(st, tab);
      case Login(tab, session) => LoginPresented(st, tab, session);
      case Logout(tab) => PresentedShrinks(st, ClearRecord(st.b, tab));
    }
  }

  lemma {:induction false} RunKeepsPresented(st: State, run: seq<Event>)
    requires Inv(st) && PresentedOk(st) && Valid(st, run)
    ensures PresentedOk(Play(st, run))
    decreases |run|
  {
    if run != [] {
      StepKeepsInv(st, run[0]);
      StepKeepsPresented(st, run[0]);
      RunKeepsPresented(Apply(st, run[0]), run[1..]);
    }
  }

  /** A refresh token is posted a second time only when the server had failed to process it before. */
  lemma PresentedAgainOnlyAfterFailure(st: State, run: seq<Event>, i: nat, j: nat)
    requires Initial(st) && st.b.locks && Distinct(st.b) && Valid(st, run)
    requires i < j < |Play(st, run).s.presented| && Play(st, run).s.presented[i] == Play(st, run).s.presented[j]
    ensures Play(st, run).s.presented[i] in Play(st, run).s.excused
  {
    InitialInv(st);
    InitialPresented(st);
    RunKeepsPresented(st, run);
  }

  predicate Fails(e: Event) {
    e.Serve? && e.reply.Unavailable?
  }

  lemma {:induction false} NoFailureNoExcuse(st: State, run: seq<Event>)
    requires forall i :: 0 <= i < |run| ==> !Fails(run[i])
    ensures Play(st, run).s.excused == st.s.excused
    decreases |run|
  {
    if run != [] {
      assert !Fails(run[0]);
      NoFailureNoExcuse(Apply(st, run[0]), run[1..]);
    }
  }

  /** While the server answers every refresh with tokens or a refusal, no token is posted twice. */
  lemma NoFailureNoRepeat(st: State, run: seq<Event>, i: nat, j: nat)
    requires Initial(st) && st.b.locks && Distinct(st.b) && Valid(st, run)
    requires forall k :: 0 <= k < |run| ==> !Fails(run[k])
    requires i < j < |Play(st, run).s.presented|
    ensures Play(st, run).s.presented[i] != Play(st, run).s.presented[j]
  {
    NoFailureNoExcuse(st, run);
    if Play(st, run).s.presented[i] == Play(st, run).s.presented[j] {
      PresentedAgainOnlyAfterFailure(st, run, i, j);
    }
  }

  /** The next request of the same tab that is rejected, once its refresh has been answered. */
  function Retry(tab: Tab, s: Session): seq<Event> {
    [Deliver(tab), Look(tab), Call(tab, s.access), EnterLock(tab)]
  }

  lemma PlayFirst(st: State, e: Event, run: seq<Event>)
    ensures Play(st, [e] + run) == Play(Apply(st, e), run)
    ensures Valid(st, [e] + run) <==> Enabled(st, e) && Valid(Apply(st, e), run)
  {
    assert ([e] + run)[1..] == run;
  }

  lemma RetryPlays(st: State, tab: Tab, s: Session)
    ensures var one := Apply(st, Deliver(tab));
            var two := Apply(one, Look(tab));
            var three := Apply(two, Call(tab, s.access));
            && Play(st, Retry(tab, s)) == Apply(three, EnterLock(tab))
            && (Valid(st, Retry(tab, s)) <==>
                  Enabled(st, Deliver(tab)) && Enabled(one, Look(tab)) && Enabled(two, Call(tab, s.access))
                  && Enabled(three, EnterLock(tab)))
  {
    hide Apply, Enabled, Play, Valid;
    var one := Apply(st, Deliver(tab));
    var two := Apply(one, Look(tab));
    var three := Apply(two, Call(tab, s.access));
    var last := [EnterLock(tab)] + [];
    assert Retry(tab, s) == [Deliver(tab)] + ([Look(tab)] + ([Call(tab, s.access)] + last));
    PlayFirst(st, Deliver(tab), [Look(tab)] + ([Call(tab, s.access)] + last));
    PlayFirst(one, Look(tab), [Call(tab, s.access)] + last);
    PlayFirst(two, Call(tab, s.access), last);
    PlayFirst(three, EnterLock(tab), []);
    EmptyRun(Apply(three, EnterLock(tab)));
  }

  /** Once a refresh of the stored session is answered, no other tab is inside the lock. */
  lemma AnsweredFree(st: State, tab: Tab)
    requires Inv(st) && Enabled(st, Deliver(tab))
    ensures var one := Apply(st, Deliver(tab));
            one.s == st.s && tab !in one.b.phases && LockFree(one.b)
  {
    hide Finish;
    FinishShape(st.b, tab);
    assert Holds(st.b, tab);
    assert forall x :: Holds(st.b, x) ==> x == tab;
    var one := Apply(st, Deliver(tab)).b;
    forall x | x in one.phases
      ensures one.phases[x].Queued?
    {
      assert !Holds(st.b, x);
    }
  }

  /** With the lock free, a tab that has taken its token can ask for a refresh and enter. */
  lemma RetryEnters(one: State, tab: Tab, rejected: string)
    requires tab !in one.b.phases && LockFree(one.b)
    ensures var two := Apply(one, Look(tab)); var three := Apply(two, Call(tab, rejected));
            && two.b.phases == one.b.phases
            && Enabled(three, EnterLock(tab)) && three.b.phases[tab] == Queued(rejected)
            && three.s == one.s && ReadSession(three.b, tab).0 == ReadSession(one.b, tab).0
  {
    hide ReadSession;
    ReadShape(one.b, tab);
    var two := Apply(one, Look(tab));
    var three := Apply(two, Call(tab, rejected));
    ReadAgain(one.b, two.b, three.b, tab);
  }

  /** Reading a session once more finds the same. */
  lemma ReadAgain(b: Browser, looked: Browser, called: Browser, tab: Tab)
    requires looked == TakeToken(b, tab).1 && called == looked.(phases := called.phases)
    ensures ReadSession(called, tab).0 == ReadSession(b, tab).0
  {
  }

  /** What a call that takes the lock posts. */
  lemma EnterPresents(st: State, tab: Tab, rejected: string)
    requires tab in st.b.phases && st.b.phases[tab] == Queued(rejected)
    ensures var existing := ReadSession(st.b, tab).0;
            Apply(st, EnterLock(tab)).s.presented
            == (if existing.Some? && (existing.value.access == rejected || existing.value.access == "")
                then st.s.presented + [existing.value.refresh] else st.s.presented)
  {
  }

  /** Where the token is saved once the answer has been dealt with. */
  lemma AnsweredToken(st: State, tab: Tab, s: Session)
    requires Inv(st) && Attached(st.b, tab, s) && Enabled(st, Deliver(tab))
    ensures var reply := st.b.phases[tab].reply; var b := Apply(st, Deliver(tab)).b;
            && (RecordUses(b, s.refresh) <==> reply.Unavailable?)
            && (forall x :: !LegacyUses(b, x, s.refresh))
            && (reply.Unavailable? ==> b.stored == Saved(s))
  {
    var p := st.b.phases[tab];
    assert HolderOk(st, tab) && p.existing == s;
    assert ReadSession(st.b, tab) == (Some(s), st.b);
    var (b, value) := Conclude(st.b, tab, s, p.reply);
    assert Apply(st, Deliver(tab)).b == Resolve(b, tab, value);
    assert forall x :: x in b.legacy ==> x in st.b.legacy && b.legacy[x] == st.b.legacy[x];
    match p.reply {
      case Rotated(access, refresh) => assert b == SaveSession(st.b, tab, Session(access, refresh, s.client));
      case Refused => assert b == ClearRecord(st.b, tab);
      case Unavailable =>
        assert b == st.b;
        assert RecordUses(Resolve(b, tab, value), s.refresh);
    }
    forall x
      ensures !LegacyUses(Resolve(b, tab, value), x, s.refresh)
    {
      assert !LegacyUses(st.b, x, s.refresh);
    }
  }

  /**
   A refresh that posted the stored session leaves its token saved exactly when the reply was
   neither tokens nor a 400 or 401; and exactly then the next rejected request of the tab posts the
   same refresh token again.
   */
  lemma PresentedAgainIff(st: State, tab: Tab, s: Session)
    requires Inv(st) && Attached(st.b, tab, s) && Enabled(st, Deliver(tab))
    ensures RecordUses(Apply(st, Deliver(tab)).b, s.refresh) <==> st.b.phases[tab].reply.Unavailable?
    ensures st.b.phases[tab].reply.Unavailable? ==> Valid(st, Retry(tab, s))
    ensures Play(st, Retry(tab, s)).s.presented == st.s.presented + [s.refresh]
            <==> st.b.phases[tab].reply.Unavailable?
  {
    AnsweredToken(st, tab, s);
    RetryPlays(st, tab, s);
    AnsweredFree(st, tab);
    var one := Apply(st, Deliver(tab));
    RetryEnters(one, tab, s.access);
    var three := Apply(Apply(one, Look(tab)), Call(tab, s.access));
    EnterPresents(three, tab, s.access);
    hide Finish, Play, Valid;
    var existing := ReadSession(one.b, tab).0;
    assert existing.Some? ==>
        RecordUses(one.b, existing.value.refresh) || LegacyUses(one.b, tab, existing.value.refresh);
    if existing.Some? {
      assert (st.s.presented + [existing.value.refresh])[|st.s.presented|] == existing.value.refresh;
    }
    assert (st.s.presented + [s.refresh])[|st.s.presented|] == s.refresh;
  }

  /** With nobody refreshing, a call that rejects the stored access token posts the stored refresh token. */
  lemma PostsStored(st: State, run: seq<Event>, session: Session) returns (longer: seq<Event>)
    requires Valid(st, run) && Usable(session)
    requires Play(st, run).b.phases == map[] && Play(st, run).b.stored == Saved(session)
    ensures Valid(st, longer) && Play(st, longer).s.presented == Play(st, run).s.presented + [session.refresh]
    ensures Play(st, longer).b.phases == map[0 := Posted(session.access, session)]
    ensures Play(st, longer).b.stored == Saved(session)
  {
    hide Play, Valid;
    longer := Asks(st, run, 0, session);
  }

  /** A run from any initial state in which a failure makes a token be posted twice. */
  lemma FailurePresentsAgain(st: State) returns (run: seq<Event>)
    requires Initial(st)
    ensures Valid(st, run)
    ensures var p := Play(st, run).s.presented; |p| == 2 && p[0] == p[1]
  {
    hide Play, Valid;
    var access := Unused(st.s.issued.Keys);
    var refresh := Unused(st.s.refreshes);
    var session := Session(access, refresh, "client");
    assert Valid(st, []) && Play(st, []) == st by { EmptyRun(st); }
    run := Run1(st, [], Login(0, session));
    run := PostsStored(st, run, session);
    run := Run1(st, run, Serve(0, Unavailable));
    run := Run1(st, run, Deliver(0));
    assert Play(st, run).b.phases == map[];
    run := PostsStored(st, run, session);
  }

  lemma EmptyRun(st: State)
    ensures Valid(st, []) && Play(st, []) == st
  {
  }
}
