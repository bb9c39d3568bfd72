/** Completion criteria: every declared requirement with a pointer back to it. */
module Completion {
  import opened Prelude
  import opened JsonPointer

  datatype Criterion = Criterion(path: string, requirement: Json)

  /** The iteration order of an object's members. */
  type MemberOrder = set<string> -> seq<string>

  ghost predicate Enumerates(order: MemberOrder) {
    forall names :: EachOnce(order(names), names)
  }

  ghost predicate EachOnce(listed: seq<string>, names: set<string>) {
    && (forall name :: name in names <==> name in listed)
    && (forall i, j :: 0 <= i < j < |listed| ==> listed[i] != listed[j])
  }

  predicate IsWhitespace(c: char) {
    '\t' <= c <= '\r' || c == ' ' || c == '\U{0085}' || c == '\U{00A0}' || c == '\U{1680}'
    || '\U{2000}' <= c <= '\U{200A}' || c == '\U{2028}' || c == '\U{2029}' || c == '\U{202F}'
    || c == '\U{205F}' || c == '\U{3000}'
  }

  predicate Blank(text: string) {
    forall i :: 0 <= i < |text| ==> IsWhitespace(text[i])
  }

  const KEYS: seq<string> := ["acceptance_criteria", "freeze_requires"]

  /** The criteria under one key. */
  function Entries(order: MemberOrder, key: string, value: Json): seq<Criterion> {
    match value
    case Arr(items) =>
      seq(|items|, i requires 0 <= i < |items| => Criterion("/" + key + "/" + Decimal(i), items[i]))
    case Obj(members) =>
      var names := order(members.Keys);
      seq(|names|, i requires 0 <= i < |names| =>
        Criterion("/" + key + "/" + Escape(names[i]), if names[i] in members then members[names[i]] else Null))
    case Null => []
    case Str(text) => if Blank(text) then [] else [Criterion("/" + key, value)]
    case _ => [Criterion("/" + key, value)]
  }

  function UnderKey(order: MemberOrder, constraints: Json, key: string): seq<Criterion> {
    if constraints.Obj? && key in constraints.members then Entries(order, key, constraints.members[key]) else []
  }

  function CriteriaOf(order: MemberOrder, constraints: Json): seq<Criterion> {
    UnderKey(order, constraints, KEYS[0]) + UnderKey(order, constraints, KEYS[1])
  }

  method CompletionCriteria(order: MemberOrder, constraints: Json) returns (criteria: seq<Criterion>)
    ensures criteria == CriteriaOf(order, constraints)
  {
    criteria := [];
    for k := 0 to |KEYS|
      invariant k == 0 ==> criteria == []
      invariant k == 1 ==> criteria == UnderKey(order, constraints, KEYS[0])
      invariant k == 2 ==> criteria == CriteriaOf(order, constraints)
    {
      var key := KEYS[k];
      if !constraints.Obj? || key !in constraints.members {
        assert UnderKey(order, constraints, key) == [];
        assert criteria + [] == criteria;
        continue;
      }
      criteria := criteria + Entries(order, key, constraints.members[key]);
    }
  }

  // ---------------------------------------------------------------- addresses

  /** What a decoded pointer of a criterion names: a whole scalar, or one item of a list or object. */
  predicate Addressed(constraints: Json, tokens: seq<string>) {
    && 1 <= |tokens| <= 2 && tokens[0] in KEYS
    && constraints.Obj? && tokens[0] in constraints.members
    && match constraints.members[tokens[0]]
       case Arr(items) =>
         |tokens| == 2 && ArrayIndex(tokens[1]).Some? && ArrayIndex(tokens[1]).value < |items|
         && tokens[1] == Decimal(ArrayIndex(tokens[1]).value)
       case Obj(members) => |tokens| == 2 && tokens[1] in members
       case Null => false
       case Str(text) => |tokens| == 1 && !Blank(text)
       case _ => |tokens| == 1
  }

  /** The tokens that the criterion at place `i` under `key` stands for. */
  function Address(order: MemberOrder, key: string, value: Json, i: nat): seq<string>
    requires i < |Entries(order, key, value)|
  {
    match value
    case Arr(_) => [key, Decimal(i)]
    case Obj(members) => [key, order(members.Keys)[i]]
    case _ => [key]
  }

  lemma TwoTokens(key: string, escaped: string, token: string)
    requires '/' !in key && '~' !in key && '/' !in escaped && Unescape(escaped) == token
    ensures Tokens("/" + key + "/" + escaped) == Some([key, token])
  {
    var pointer := "/" + key + "/" + escaped;
    assert pointer[1..] == key + "/" + escaped;
    SplitAt(key, escaped);
    SplitPlain(escaped);
    PlainUnescape(key);
    assert Split(pointer[1..]) == [key, escaped];
    assert UnescapeAll([key, escaped]) == [key, token];
  }

  lemma OneToken(key: string)
    requires '/' !in key && '~' !in key
    ensures Tokens("/" + key) == Some([key])
  {
    assert ("/" + key)[1..] == key;
    SplitPlain(key);
    PlainUnescape(key);
    assert UnescapeAll([key]) == [key];
  }

  lemma {:induction false} PairsNeedTilde(s: string, second: char, to: char)
    requires '~' !in s
    ensures ReplacePair(s, second, to) == s
    decreases |s|
  {
    if s != "" {
      PairsNeedTilde(s[1..], second, to);
      assert [s[0]] + s[1..] == s;
    }
  }

  lemma PlainUnescape(s: string)
    requires '~' !in s
    ensures Unescape(s) == s
  {
    PairsNeedTilde(s, '1', '/');
    PairsNeedTilde(s, '0', '~');
  }

  lemma DigitsArePlain(s: string)
    requires AllDigits(s)
    ensures '~' !in s && '/' !in s
  {
  }

  lemma KeysArePlain(key: string)
    requires key in KEYS
    ensures '/' !in key && '~' !in key
  {
    assert KEYS[0] == ['a', 'c', 'c', 'e', 'p', 't', 'a', 'n', 'c', 'e', '_', 'c', 'r', 'i', 't', 'e', 'r', 'i', 'a'];
    assert KEYS[1] == ['f', 'r', 'e', 'e', 'z', 'e', '_', 'r', 'e', 'q', 'u', 'i', 'r', 'e', 's'];
  }

  /** The printed path decodes to the address, and the address leads to the requirement. */
  lemma EntryAddress(order: MemberOrder, constraints: Json, key: string, i: nat)
    requires Enumerates(order) && key in KEYS && i < |UnderKey(order, constraints, key)|
    ensures var c := UnderKey(order, constraints, key)[i];
            var address := Address(order, key, constraints.members[key], i);
            && Tokens(c.path) == Some(address)
            && Resolve(constraints, address) == Some(c.requirement)
            && Addressed(constraints, address)
  {
    var value := constraints.members[key];
    var c := UnderKey(order, constraints, key)[i];
    KeysArePlain(key);
    match value {
      case Arr(items) =>
        DecimalShape(i);
        DigitsArePlain(Decimal(i));
        PlainUnescape(Decimal(i));
        TwoTokens(key, Decimal(i), Decimal(i));
        IndexOfDecimal(i);
        ResolveTwo(constraints, key, Decimal(i));
      case Obj(members) =>
        var names := order(members.Keys);
        assert EachOnce(names, members.Keys);
        assert names[i] in members;
        EscapeHasNoSlash(names[i]);
        UnescapeEscape(names[i]);
        TwoTokens(key, Escape(names[i]), names[i]);
        ResolveTwo(constraints, key, names[i]);
      case Null =>
      case _ =>
        OneToken(key);
        ResolveOne(constraints, key);
    }
  }

  lemma ResolveOne(constraints: Json, key: string)
    requires constraints.Obj? && key in constraints.members
    ensures Resolve(constraints, [key]) == Some(constraints.members[key])
  {
    assert [key][1..] == [];
    assert Resolve(constraints.members[key], []) == Some(constraints.members[key]);
  }

  lemma ResolveTwo(constraints: Json, key: string, token: string)
    requires constraints.Obj? && key in constraints.members
    ensures Resolve(constraints, [key, token]) == Child(constraints.members[key], token)
  {
    assert [key, token][1..] == [token];
    assert [token][1..] == [];
    var inner := Child(constraints.members[key], token);
    if inner.Some? {
      assert Resolve(inner.value, []) == inner;
    }
  }

  /** Where the criterion at place `i` of the whole list comes from. */
  function Source(order: MemberOrder, constraints: Json, i: nat): (r: (string, nat))
    requires i < |CriteriaOf(order, constraints)|
    ensures r.0 in KEYS && r.1 < |UnderKey(order, constraints, r.0)|
    ensures UnderKey(order, constraints, r.0)[r.1] == CriteriaOf(order, constraints)[i]
    ensures i == if r.0 == KEYS[0] then r.1 else |UnderKey(order, constraints, KEYS[0])| + r.1
  {
    var n := |UnderKey(order, constraints, KEYS[0])|;
    if i < n then (KEYS[0], i) else (KEYS[1], i - n)
  }

  /** Evaluating an emitted path on the same constraints yields exactly its requirement. */
  lemma PathsResolve(order: MemberOrder, constraints: Json, i: nat)
    requires Enumerates(order) && i < |CriteriaOf(order, constraints)|
    ensures var c := CriteriaOf(order, constraints)[i];
            Evaluate(constraints, c.path) == Some(c.requirement)
  {
    var (key, k) := Source(order, constraints, i);
    EntryAddress(order, constraints, key, k);
  }

  /** No two criteria have the same path. */
  lemma PathsAreDistinct(order: MemberOrder, constraints: Json, i: nat, j: nat)
    requires Enumerates(order) && i < j < |CriteriaOf(order, constraints)|
    ensures CriteriaOf(order, constraints)[i].path != CriteriaOf(order, constraints)[j].path
  {
    hide Entries, Address, Tokens, Addressed, Resolve, CriteriaOf;
    var (key, k) := Source(order, constraints, i);
    var (key', k') := Source(order, constraints, j);
    EntryAddress(order, constraints, key, k);
    EntryAddress(order, constraints, key', k');
    AddressHead(order, key, constraints.members[key], k);
    AddressHead(order, key', constraints.members[key'], k');
    if key == key' {
      AddressesDiffer(order, key, constraints.members[key], k, k');
    }
  }

  lemma AddressHead(order: MemberOrder, key: string, value: Json, k: nat)
    requires k < |Entries(order, key, value)|
    ensures |Address(order, key, value, k)| > 0 && Address(order, key, value, k)[0] == key
  {
  }

  lemma AddressesDiffer(order: MemberOrder, key: string, value: Json, k: nat, k': nat)
    requires Enumerates(order) && k < k' < |Entries(order, key, value)|
    ensures Address(order, key, value, k) != Address(order, key, value, k')
  {
    match value {
      case Arr(items) =>
        IndexOfDecimal(k);
        IndexOfDecimal(k');
        assert [key, Decimal(k)][1] != [key, Decimal(k')][1];
      case Obj(members) =>
        var names := order(members.Keys);
        assert EachOnce(names, members.Keys);
        assert [key, names[k]][1] != [key, names[k']][1];
      case _ =>
    }
  }

  /** How many criteria the first key has: the second key's come after them. */
  function Before(order: MemberOrder, constraints: Json, key: string): nat {
    if key == KEYS[0] then 0 else |UnderKey(order, constraints, KEYS[0])|
  }

  /** Requirements keep their order: the two keys one after the other, items as in the list, members as listed. */
  lemma CriteriaKeepOrder(order: MemberOrder, constraints: Json, key: string, i: nat)
    requires Enumerates(order) && constraints.Obj? && key in constraints.members
    requires key == "acceptance_criteria" || key == "freeze_requires"
    requires match constraints.members[key]
             case Arr(items) => i < |items|
             case Obj(members) => i < |order(members.Keys)|
             case _ => false
    ensures var criteria := CriteriaOf(order, constraints); var at := Before(order, constraints, key) + i;
            && at < |criteria|
            && match constraints.members[key]
               case Arr(items) => criteria[at].requirement == items[i]
               case Obj(members) => order(members.Keys)[i] in members
                                    && criteria[at].requirement == members[order(members.Keys)[i]]
               case _ => true
  {
    assert KEYS[0] == "acceptance_criteria" && KEYS[1] == "freeze_requires";
    var here := UnderKey(order, constraints, key);
    assert CriteriaOf(order, constraints)[Before(order, constraints, key) + i] == here[i];
    if constraints.members[key].Obj? {
      assert EachOnce(order(constraints.members[key].members.Keys), constraints.members[key].members.Keys);
    }
  }

  /** The criterion an address leads to. */
  lemma AddressedHasCriterion(order: MemberOrder, constraints: Json, tokens: seq<string>) returns (key: string, k: nat)
    requires Enumerates(order) && Addressed(constraints, tokens)
    ensures key in KEYS && k < |UnderKey(order, constraints, key)|
    ensures Address(order, key, constraints.members[key], k) == tokens
  {
    hide Resolve, Tokens, CriteriaOf;
    key, k := tokens[0], 0;
    match constraints.members[key] {
      case Arr(_) => k := ArrayIndex(tokens[1]).value;
      case Obj(members) =>
        var names := order(members.Keys);
        assert EachOnce(names, members.Keys);
        k :| k < |names| && names[k] == tokens[1];
      case _ =>
    }
    assert k < |UnderKey(order, constraints, key)|;
  }

  /** Every array item, object member and scalar is addressed by a criterion, and nothing else is. */
  lemma CriteriaCoverExactly(order: MemberOrder, constraints: Json, tokens: seq<string>)
    requires Enumerates(order)
    ensures Addressed(constraints, tokens) <==>
              exists i :: 0 <= i < |CriteriaOf(order, constraints)|
                          && Tokens(CriteriaOf(order, constraints)[i].path) == Some(tokens)
  {
    hide Addressed, Address, Resolve, Tokens, Entries;
    var criteria := CriteriaOf(order, constraints);
    if Addressed(constraints, tokens) {
      var key, k := AddressedHasCriterion(order, constraints, tokens);
      EntryAddress(order, constraints, key, k);
      var i := if key == KEYS[0] then k else |UnderKey(order, constraints, KEYS[0])| + k;
      assert criteria[i] == UnderKey(order, constraints, key)[k];
    }
    if exists i :: 0 <= i < |criteria| && Tokens(criteria[i].path) == Some(tokens) {
      var i :| 0 <= i < |criteria| && Tokens(criteria[i].path) == Some(tokens);
      var (key, k) := Source(order, constraints, i);
      EntryAddress(order, constraints, key, k);
    }
  }
}
