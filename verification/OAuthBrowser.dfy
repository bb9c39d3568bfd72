/**
 The browser's side of the OAuth session: one persistent record shared by every tab, per-tab
 credentials from before the upgrade, and refresh calls that span awaits. Each method is one
 stretch of code between two awaits.
 */
module OAuthBrowser {
  import opened Prelude

  type Tab = nat

  datatype Session = Session(access: string, refresh: string, client: string)

  predicate Usable(s: Session) {
    s.refresh != "" && s.client != ""
  }

  /** The persistent record: missing, unreadable, or a session. */
  datatype Record = Absent | Garbage | Saved(session: Session)

  /** How the token endpoint answers: new tokens, 400 or 401, or any other failure. */
  datatype Reply = Rotated(access: string, refresh: string) | Refused | Unavailable

  /** Where a tab's single refresh call stands; a tab without one is absent from the map. */
  datatype Phase =
    | Queued(rejected: string)
    | Posted(rejected: string, existing: Session)
    | Answered(rejected: string, existing: Session, reply: Reply)

  /**
   `carried` holds, for each tab, every access token its requests have got so far: what the session
   gave them and what refresh calls resolved to. A request can be slow, so none is ever dropped.
   */
  datatype Browser = Browser(
    locks: bool,
    stored: Record,
    legacy: map<Tab, Session>,
    phases: map<Tab, Phase>,
    returned: map<Tab, string>,
    carried: set<(Tab, string)>)

  /** A tab inside `refreshOAuthUnderLock`. */
  predicate Holds(b: Browser, tab: Tab) {
    tab in b.phases && !b.phases[tab].Queued?
  }

  predicate LockFree(b: Browser) {
    forall tab :: tab in b.phases ==> b.phases[tab].Queued?
  }

  // ---------------------------------------------------------------- specification of each stretch

  /** The stored session; per-tab credentials move into an empty record. */
  function ReadSession(b: Browser, tab: Tab): (Option<Session>, Browser) {
    if b.stored.Saved? && Usable(b.stored.session) then (Some(b.stored.session), b)
    else if tab in b.legacy && Usable(b.legacy[tab]) then
      (Some(b.legacy[tab]), b.(stored := Saved(b.legacy[tab]), legacy := b.legacy - {tab}))
    else (None, b.(stored := Absent))
  }

  function ClearRecord(b: Browser, tab: Tab): Browser {
    b.(stored := Absent, legacy := b.legacy - {tab})
  }

  function SaveSession(b: Browser, tab: Tab, s: Session): Browser {
    if s.access == "" || !Usable(s) then ClearRecord(b, tab)
    else b.(stored := Saved(s), legacy := b.legacy - {tab})
  }

  function Resolve(b: Browser, tab: Tab, value: string): Browser {
    b.(phases := b.phases - {tab}, returned := b.returned[tab := value], carried := b.carried + {(tab, value)})
  }

  /** A request takes the access token to send; empty without a session. */
  function TakeToken(b: Browser, tab: Tab): (string, Browser) {
    var (session, b') := ReadSession(b, tab);
    var token := if session.Some? then session.value.access else "";
    (token, b'.(carried := b'.carried + {(tab, token)}))
  }

  /** A second call while one is under way joins it. */
  function Start(b: Browser, tab: Tab, rejected: string): Browser {
    if tab in b.phases then b else b.(phases := b.phases[tab := Queued(rejected)])
  }

  /** From entering the critical section to the POST. */
  function Enter(b: Browser, tab: Tab): Browser
    requires tab in b.phases && b.phases[tab].Queued?
  {
    var rejected := b.phases[tab].rejected;
    var (existing, b') := ReadSession(b, tab);
    match existing
    case None => Resolve(b', tab, "")
    case Some(s) =>
      if rejected != s.access && s.access != "" then Resolve(b', tab, s.access)
      else b'.(phases := b'.phases[tab := Posted(rejected, s)])
  }

  /** What the response does to the record, and the value the call resolves to. */
  function Conclude(b: Browser, tab: Tab, existing: Session, reply: Reply): (Browser, string) {
    match reply
    case Unavailable => (b, "")
    case Refused =>
      var (latest, b') := ReadSession(b, tab);
      (if latest.Some? && latest.value.refresh == existing.refresh then ClearRecord(b', tab) else b', "")
    case Rotated(access, refresh) =>
      if access == "" || refresh == "" then (b, "")
      else
        var (latest, b') := ReadSession(b, tab);
        if latest.None? then (b', "")
        else if latest.value.refresh != existing.refresh then (b', latest.value.access)
        else (SaveSession(b', tab, Session(access, refresh, existing.client)), access)
  }

  /** From the response to the end of the call. */
  function Finish(b: Browser, tab: Tab): Browser
    requires tab in b.phases && b.phases[tab].Answered?
  {
    var (b', value) := Conclude(b, tab, b.phases[tab].existing, b.phases[tab].reply);
    Resolve(b', tab, value)
  }

  // ---------------------------------------------------------------- the code

  class Client {
    const locks: bool
    var stored: Record
    var legacy: map<Tab, Session>
    var phases: map<Tab, Phase>
    var returned: map<Tab, string>
    var carried: set<(Tab, string)>

    constructor (locks: bool, stored: Record, legacy: map<Tab, Session>)
      ensures View() == Browser(locks, stored, legacy, map[], map[], {})
    {
      this.locks, this.stored, this.legacy := locks, stored, legacy;
      phases, returned, carried := map[], map[], {};
    }

    function View(): Browser
      reads this
    {
      Browser(locks, stored, legacy, phases, returned, carried)
    }

    method SavedSession(tab: Tab) returns (r: Option<Session>)
      modifies this
      ensures (r, View()) == ReadSession(old(View()), tab)
    {
      if stored.Saved? {
        if Usable(stored.session) {
          return Some(stored.session);
        }
      }
      stored := Absent;
      if tab !in legacy {
        return None;
      }
      var saved := legacy[tab];
      if !Usable(saved) {
        return None;
      }
      stored := Saved(saved);
      legacy := legacy - {tab};
      return Some(saved);
    }

    /** `getMorrowsOAuthToken`, as `api` calls it for a request. */
    method GetToken(tab: Tab) returns (token: string)
      modifies this
      ensures (token, View()) == TakeToken(old(View()), tab)
    {
      var session := SavedSession(tab);
      token := if session.Some? then session.value.access else "";
      carried := carried + {(tab, token)};
    }

    method ClearLegacyKeys(tab: Tab)
      modifies this`legacy
      ensures legacy == old(legacy) - {tab}
    {
      legacy := legacy - {tab};
    }

    /** `setMorrowsOAuthToken("")`: an explicit logout, or a terminal refusal. */
    method Forget(tab: Tab)
      modifies this
      ensures View() == ClearRecord(old(View()), tab)
    {
      stored := Absent;
      ClearLegacyKeys(tab);
    }

    /** `setMorrowsOAuthSession`: a completed login, or a delivered rotation. */
    method SetSession(tab: Tab, access: string, refresh: string, client: string)
      modifies this
      ensures View() == SaveSession(old(View()), tab, Session(access, refresh, client))
    {
      if access == "" || refresh == "" || client == "" {
        Forget(tab);
        return;
      }
      stored := Saved(Session(access, refresh, client));
      ClearLegacyKeys(tab);
    }

    method StartRefresh(tab: Tab, rejected: string)
      modifies this
      ensures View() == Start(old(View()), tab, rejected)
    {
      if tab in phases {
        return;
      }
      phases := phases[tab := Queued(rejected)];
    }

    method Settle(tab: Tab, value: string)
      modifies this
      ensures View() == Resolve(old(View()), tab, value)
    {
      phases := phases - {tab};
      returned := returned[tab := value];
      carried := carried + {(tab, value)};
    }

    method EnterRefresh(tab: Tab)
      requires tab in phases && phases[tab].Queued?
      modifies this
      ensures View() == Enter(old(View()), tab)
    {
      var rejected := phases[tab].rejected;
      var existing := SavedSession(tab);
      if existing.None? {
        Settle(tab, "");
        return;
      }
      if rejected != existing.value.access && existing.value.access != "" {
        Settle(tab, existing.value.access);
        return;
      }
      phases := phases[tab := Posted(rejected, existing.value)];
    }

    method FinishRefresh(tab: Tab)
      requires tab in phases && phases[tab].Answered?
      modifies this
      ensures View() == Finish(old(View()), tab)
    {
      var existing := phases[tab].existing;
      var reply := phases[tab].reply;
      if !reply.Rotated? {
        if reply.Refused? {
          var latest := SavedSession(tab);
          if latest.Some? && latest.value.refresh == existing.refresh {
            Forget(tab);
          }
        }
        Settle(tab, "");
        return;
      }
      if reply.access == "" || reply.refresh == "" {
        Settle(tab, "");
        return;
      }
      var latest := SavedSession(tab);
      if latest.None? {
        Settle(tab, "");
        return;
      }
      if latest.value.refresh != existing.refresh {
        Settle(tab, latest.value.access);
        return;
      }
      SetSession(tab, reply.access, reply.refresh, existing.client);
      Settle(tab, reply.access);
    }
  }
}
