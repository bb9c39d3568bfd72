/** Search of an agent's JSON output, line by line, for a session reference or an error message. */
module ProviderOutput {
  import opened Prelude
  import opened Completion

  // ---------------------------------------------------------------- what a value holds itself

  function NonBlank(value: Json): Option<string> {
    if value.Str? && !Blank(value.text) then Some(value.text) else None
  }

  function FirstOf(a: Option<string>, b: Option<string>): Option<string> {
    if a.Some? then a else b
  }

  /** The session reference among an object's own members. */
  function OwnSession(value: Json): Option<string> {
    FirstOf(NonBlank(Get(value, "thread_id")),
            FirstOf(NonBlank(Get(value, "session_id")), NonBlank(Get(value, "conversation_id"))))
  }

  /** The error message among an object's own members. */
  function OwnError(value: Json): Option<string> {
    FirstOf(if Get(value, "type") == Str("error") then NonBlank(Get(value, "message")) else None,
            NonBlank(Get(Get(value, "error"), "message")))
  }

  ghost predicate Tells(value: Json, key: string, text: string) {
    value.Obj? && key in value.members && value.members[key] == Str(text) && !Blank(text)
  }

  ghost predicate Mute(value: Json, key: string) {
    forall text :: !Tells(value, key, text)
  }

  /** The thread comes before the session and the session before the conversation. */
  lemma OwnSessionMeaning(value: Json, text: string)
    ensures OwnSession(value) == Some(text) <==>
            Tells(value, "thread_id", text)
            || (Mute(value, "thread_id") && Tells(value, "session_id", text))
            || (Mute(value, "thread_id") && Mute(value, "session_id") && Tells(value, "conversation_id", text))
  {
    hide Blank;
    TellsIff(value, "thread_id", text);
    TellsIff(value, "session_id", text);
    TellsIff(value, "conversation_id", text);
  }

  lemma TellsIff(value: Json, key: string, text: string)
    ensures NonBlank(Get(value, key)) == Some(text) <==> Tells(value, key, text)
    ensures NonBlank(Get(value, key)).None? <==> Mute(value, key)
  {
    var found := NonBlank(Get(value, key));
    if found.Some? {
      assert Tells(value, key, found.value);
    }
  }

  /** The message of an error event comes before the message of an error member. */
  lemma OwnErrorMeaning(value: Json, text: string)
    ensures OwnError(value) == Some(text) <==>
            (Get(value, "type") == Str("error") && Tells(value, "message", text))
            || ((Get(value, "type") != Str("error") || Mute(value, "message"))
                && Tells(Get(value, "error"), "message", text))
  {
    TellsIff(value, "message", text);
    TellsIff(Get(value, "error"), "message", text);
  }

  /** What an object holds itself; other values hold nothing. */
  type Own = Json -> Option<string>

  // ---------------------------------------------------------------- the search

  function Find(own: Own, order: MemberOrder, value: Json): Option<string>
    decreases value, 1
  {
    match value
    case Obj(members) =>
      var mine := own(value);
      if mine.Some? then mine else FindMember(own, order, value, order(members.Keys))
    case Arr(items) => FindItem(own, order, value, 0)
    case _ => None
  }

  function FindMember(own: Own, order: MemberOrder, value: Json, names: seq<string>): Option<string>
    requires value.Obj?
    decreases value, 0, |names|
  {
    if names == [] then None
    else FirstOf(if names[0] in value.members then Find(own, order, value.members[names[0]]) else None,
                 FindMember(own, order, value, names[1..]))
  }

  function FindItem(own: Own, order: MemberOrder, value: Json, i: nat): Option<string>
    requires value.Arr? && i <= |value.items|
    decreases value, 0, |value.items| - i
  {
    if i == |value.items| then None
    else FirstOf(Find(own, order, value.items[i]), FindItem(own, order, value, i + 1))
  }

  // ---------------------------------------------------------------- what the search finds

  datatype Step = Member(name: string) | Item(index: nat)

  function Child(value: Json, s: Step): Option<Json> {
    if s.Member? && value.Obj? && s.name in value.members then Some(value.members[s.name])
    else if s.Item? && value.Arr? && s.index < |value.items| then Some(value.items[s.index])
    else None
  }

  function At(value: Json, path: seq<Step>): Option<Json> {
    if path == [] then Some(value)
    else match Child(value, path[0])
      case None => None
      case Some(child) => At(child, path[1..])
  }

  predicate Holds(own: Own, value: Json) {
    value.Obj? && own(value).Some?
  }

  /** Nothing is held at any depth. */
  ghost predicate Silent(own: Own, value: Json) {
    forall path :: At(value, path).Some? ==> !Holds(own, At(value, path).value)
  }

  /** Step `a` comes before step `b` when the value is read from the front. */
  ghost predicate Earlier(order: MemberOrder, value: Json, a: Step, b: Step) {
    match value
    case Arr(_) => a.Item? && b.Item? && a.index < b.index
    case Obj(members) =>
      a.Member? && b.Member? && exists i, j :: 0 <= i < j < |order(members.Keys)|
                                               && order(members.Keys)[i] == a.name && order(members.Keys)[j] == b.name
    case _ => false
  }

  /** The children before a step hold nothing. */
  ghost predicate SilentBefore(own: Own, order: MemberOrder, value: Json, s: Step) {
    forall a :: Earlier(order, value, a, s) && Child(value, a).Some? ==> Silent(own, Child(value, a).value)
  }

  /** `path` leads to the first place that holds something: no value on the way and none before it does. */
  ghost predicate FirstHeld(own: Own, order: MemberOrder, value: Json, path: seq<Step>, text: string)
    decreases |path|
  {
    if path == [] then Holds(own, value) && own(value).value == text
    else
      && !Holds(own, value) && SilentBefore(own, order, value, path[0])
      && Child(value, path[0]).Some? && FirstHeld(own, order, Child(value, path[0]).value, path[1..], text)
  }

  lemma SilentChildren(own: Own, value: Json)
    ensures Silent(own, value) <==>
              !Holds(own, value) && forall s :: Child(value, s).Some? ==> Silent(own, Child(value, s).value)
  {
    if Silent(own, value) {
      assert At(value, []) == Some(value);
      forall s, path | Child(value, s).Some? && At(Child(value, s).value, path).Some?
        ensures !Holds(own, At(Child(value, s).value, path).value)
      {
        assert ([s] + path)[1..] == path;
        assert At(value, [s] + path) == At(Child(value, s).value, path);
      }
    }
    if !Holds(own, value) && forall s :: Child(value, s).Some? ==> Silent(own, Child(value, s).value) {
      forall path | At(value, path).Some?
        ensures !Holds(own, At(value, path).value)
      {
        if path != [] {
          var child := Child(value, path[0]).value;
          assert Silent(own, child);
          assert At(child, path[1..]).Some?;
        }
      }
    }
  }

  /** The search finds nothing exactly when nothing is held at any depth. */
  lemma {:induction false} FindNoneIff(own: Own, order: MemberOrder, value: Json)
    requires Enumerates(order)
    ensures Find(own, order, value).None? <==> Silent(own, value)
    decreases value, 1
  {
    hide Silent, Holds;
    SilentChildren(own, value);
    match value {
      case Obj(members) =>
        var names := order(members.Keys);
        assert EachOnce(names, members.Keys);
        MembersNoneIff(own, order, value, names);
        assert forall s :: Child(value, s).Some? <==> s.Member? && s.name in names;
        assert forall i :: 0 <= i < |names| ==> Child(value, Member(names[i])) == Some(members[names[i]]);
        assert Holds(own, value) <==> own(value).Some? by { HoldsObject(own, value); }
      case Arr(items) =>
        ItemsNoneIff(own, order, value, 0);
        assert forall s :: Child(value, s).Some? <==> s.Item? && s.index < |items|;
        assert forall i: nat :: i < |items| ==> Child(value, Item(i)) == Some(items[i]);
        HoldsObject(own, value);
      case _ => HoldsObject(own, value);
    }
  }

  lemma HoldsObject(own: Own, value: Json)
    ensures Holds(own, value) <==> value.Obj? && own(value).Some?
  {
  }

  lemma {:induction false} MembersNoneIff(own: Own, order: MemberOrder, value: Json, names: seq<string>)
    requires Enumerates(order) && value.Obj? && forall name :: name in names ==> name in value.members
    ensures FindMember(own, order, value, names).None? <==>
              forall i :: 0 <= i < |names| ==> Silent(own, value.members[names[i]])
    decreases value, 0, |names|
  {
    hide Silent, Find;
    if names != [] {
      var rest := names[1..];
      assert names[0] in names;
      FindNoneIff(own, order, value.members[names[0]]);
      MembersNoneIff(own, order, value, rest);
      assert forall i :: 1 <= i < |names| ==> names[i] == rest[i - 1];
      assert forall i :: 0 <= i < |rest| ==> rest[i] == names[i + 1];
    }
  }

  lemma {:induction false} ItemsNoneIff(own: Own, order: MemberOrder, value: Json, i: nat)
    requires Enumerates(order) && value.Arr? && i <= |value.items|
    ensures FindItem(own, order, value, i).None? <==>
              forall k :: i <= k < |value.items| ==> Silent(own, value.items[k])
    decreases value, 0, |value.items| - i
  {
    hide Silent, Find;
    if i < |value.items| {
      FindNoneIff(own, order, value.items[i]);
      ItemsNoneIff(own, order, value, i + 1);
    }
  }

  lemma {:induction false} FirstMember(own: Own, order: MemberOrder, value: Json, names: seq<string>) returns (i: nat)
    requires value.Obj? && FindMember(own, order, value, names).Some?
    ensures i < |names| && names[i] in value.members
    ensures FindMember(own, order, value, names) == Find(own, order, value.members[names[i]])
    ensures forall j :: 0 <= j < i && names[j] in value.members ==> Find(own, order, value.members[names[j]]).None?
    decreases |names|
  {
    hide Find;
    if names[0] in value.members && Find(own, order, value.members[names[0]]).Some? {
      i := 0;
    } else {
      var k := FirstMember(own, order, value, names[1..]);
      i := k + 1;
      assert forall j :: 1 <= j < |names| ==> names[j] == names[1..][j - 1];
    }
  }

  lemma {:induction false} FirstItem(own: Own, order: MemberOrder, value: Json, i: nat) returns (k: nat)
    requires value.Arr? && i <= |value.items| && FindItem(own, order, value, i).Some?
    ensures i <= k < |value.items| && FindItem(own, order, value, i) == Find(own, order, value.items[k])
    ensures forall j :: i <= j < k ==> Find(own, order, value.items[j]).None?
    decreases |value.items| - i
  {
    hide Find;
    if Find(own, order, value.items[i]).Some? {
      k := i;
    } else {
      k := FirstItem(own, order, value, i + 1);
    }
  }

  lemma ExtendPath(own: Own, order: MemberOrder, value: Json, s: Step, inner: seq<Step>, text: string)
    requires !Holds(own, value) && Child(value, s).Some? && SilentBefore(own, order, value, s)
    requires FirstHeld(own, order, Child(value, s).value, inner, text)
    ensures FirstHeld(own, order, value, [s] + inner, text)
  {
    assert ([s] + inner)[1..] == inner;
  }

  /** What the search returns is held at the first place that holds anything. */
  lemma {:induction false} FindFirst(own: Own, order: MemberOrder, value: Json) returns (path: seq<Step>)
    requires Enumerates(order) && Find(own, order, value).Some?
    ensures FirstHeld(own, order, value, path, Find(own, order, value).value)
    decreases value
  {
    hide Silent, FirstHeld;
    if Holds(own, value) {
      path := [];
      HeldHere(own, order, value);
    } else if value.Obj? {
      var names := order(value.members.Keys);
      assert EachOnce(names, value.members.Keys);
      var i := FirstMember(own, order, value, names);
      path := FindFirst(own, order, value.members[names[i]]);
      assert SilentBefore(own, order, value, Member(names[i])) by {
        forall a | Earlier(order, value, a, Member(names[i])) && Child(value, a).Some?
          ensures Silent(own, Child(value, a).value)
        {
          FindNoneIff(own, order, Child(value, a).value);
        }
      }
      ExtendPath(own, order, value, Member(names[i]), path, Find(own, order, value).value);
      path := [Member(names[i])] + path;
    } else {
      var k := FirstItem(own, order, value, 0);
      path := FindFirst(own, order, value.items[k]);
      assert SilentBefore(own, order, value, Item(k)) by {
        forall a | Earlier(order, value, a, Item(k)) && Child(value, a).Some?
          ensures Silent(own, Child(value, a).value)
        {
          FindNoneIff(own, order, Child(value, a).value);
        }
      }
      ExtendPath(own, order, value, Item(k), path, Find(own, order, value).value);
      path := [Item(k)] + path;
    }
  }

  lemma HeldHere(own: Own, order: MemberOrder, value: Json)
    requires Holds(own, value)
    ensures FirstHeld(own, order, value, [], own(value).value)
  {
  }

  lemma {:induction false} HeldNotSilent(own: Own, order: MemberOrder, value: Json, path: seq<Step>, text: string)
    requires FirstHeld(own, order, value, path, text)
    ensures !Silent(own, value)
    decreases |path|
  {
    SilentChildren(own, value);
    if path != [] {
      HeldNotSilent(own, order, Child(value, path[0]).value, path[1..], text);
    }
  }

  lemma StepsCompare(order: MemberOrder, value: Json, a: Step, b: Step)
    requires Enumerates(order) && Child(value, a).Some? && Child(value, b).Some?
    ensures a == b || Earlier(order, value, a, b) || Earlier(order, value, b, a)
  {
    if value.Obj? {
      var names := order(value.members.Keys);
      assert EachOnce(names, value.members.Keys);
      var i :| 0 <= i < |names| && names[i] == a.name;
      var j :| 0 <= j < |names| && names[j] == b.name;
    }
  }

  /** There is only one first place. */
  lemma {:induction false} FirstHeldUnique(
    own: Own, order: MemberOrder, value: Json, p: seq<Step>, t: string, q: seq<Step>, u: string)
    requires Enumerates(order) && FirstHeld(own, order, value, p, t) && FirstHeld(own, order, value, q, u)
    ensures p == q && t == u
    decreases |p|
  {
    hide Silent, Holds, Earlier;
    if p != [] && q != [] {
      var left, right := Child(value, p[0]).value, Child(value, q[0]).value;
      HeldNotSilent(own, order, left, p[1..], t);
      HeldNotSilent(own, order, right, q[1..], u);
      StepsCompare(order, value, p[0], q[0]);
      FirstHeldUnique(own, order, left, p[1..], t, q[1..], u);
      assert p == [p[0]] + p[1..] && q == [q[0]] + q[1..];
    }
  }

  /** The search returns exactly what is held at the first place that holds anything, if there is one. */
  lemma FindIsFirstHeld(own: Own, order: MemberOrder, value: Json, text: string)
    requires Enumerates(order)
    ensures Find(own, order, value) == Some(text) <==> exists path :: FirstHeld(own, order, value, path, text)
  {
    hide FirstHeld, Silent, Find;
    FindNoneIff(own, order, value);
    if exists path :: FirstHeld(own, order, value, path, text) {
      var path :| FirstHeld(own, order, value, path, text);
      HeldNotSilent(own, order, value, path, text);
      var q := FindFirst(own, order, value);
      FirstHeldUnique(own, order, value, path, text, q, Find(own, order, value).value);
    } else if Find(own, order, value) == Some(text) {
      var q := FindFirst(own, order, value);
    }
  }

  // ---------------------------------------------------------------- lines

  /** What one line of output yields; lines that are no JSON yield nothing. */
  function FromLine(codec: Codec, own: Own, order: MemberOrder, line: string): Option<string> {
    match codec.parse(line)
    case None => None
    case Some(value) => Find(own, order, value)
  }

  /** The session reference of the first line that has one. */
  method ExtractSession(codec: Codec, order: MemberOrder, lines: seq<string>) returns (r: Option<string>)
    ensures r.None? <==> forall i :: 0 <= i < |lines| ==> FromLine(codec, OwnSession, order, lines[i]).None?
    ensures r.Some? ==> exists i :: 0 <= i < |lines| && FromLine(codec, OwnSession, order, lines[i]) == r
                                    && forall j :: 0 <= j < i ==> FromLine(codec, OwnSession, order, lines[j]).None?
  {
    for i := 0 to |lines|
      invariant forall j :: 0 <= j < i ==> FromLine(codec, OwnSession, order, lines[j]).None?
    {
      var value := codec.parse(lines[i]);
      if value.None? {
        continue;
      }
      var found := Find(OwnSession, order, value.value);
      if found.Some? {
        return found;
      }
    }
    return None;
  }

  /** The error message of the last line that has one. */
  method ExtractError(codec: Codec, order: MemberOrder, lines: seq<string>) returns (r: Option<string>)
    ensures r.None? <==> forall i :: 0 <= i < |lines| ==> FromLine(codec, OwnError, order, lines[i]).None?
    ensures r.Some? ==> exists i :: 0 <= i < |lines| && FromLine(codec, OwnError, order, lines[i]) == r
                                    && forall j :: i < j < |lines| ==> FromLine(codec, OwnError, order, lines[j]).None?
  {
    for i := |lines| downto 0
      invariant forall j :: i <= j < |lines| ==> FromLine(codec, OwnError, order, lines[j]).None?
    {
      var value := codec.parse(lines[i]);
      if value.None? {
        continue;
      }
      var found := Find(OwnError, order, value.value);
      if found.Some? {
        return found;
      }
    }
    return None;
  }
}
