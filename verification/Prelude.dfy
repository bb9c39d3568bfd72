/** Failure-carrying values and a few facts about finite maps and sequences. */
module Prelude {

  datatype Option<+T> = None | Some(value: T)

  datatype Result<+T, +E> = Ok(value: T) | Err(error: E)

  /** Canonical text of a UUID. */
  type Uuid = string

  /** A JSON document, as serde_json holds it. Numbers keep their text. */
  datatype Json =
    | Null
    | Bool(flag: bool)
    | Number(repr: string)
    | Str(text: string)
    | Arr(items: seq<Json>)
    | Obj(members: map<string, Json>)

  /** `value[key]`: null when there is no such member. */
  function Get(value: Json, key: string): Json {
    if value.Obj? && key in value.members then value.members[key] else Null
  }

  function OrNull(text: Option<string>): Json {
    if text.Some? then Str(text.value) else Null
  }

  /** A JSON printer and parser. */
  datatype Codec = Codec(render: Json -> string, parse: string -> Option<Json>)

  /** What serde_json promises: parsing a printed document gives it back. */
  ghost predicate RoundTrips(codec: Codec) {
    forall value: Json :: codec.parse(codec.render(value)) == Some(value)
  }

  ghost predicate Injective<X, Y>(m: map<X, Y>) {
    forall a, b :: a in m && b in m && m[a] == m[b] ==> a == b
  }

  /** A finite map has at most as many values as keys, and as many only when it is injective. */
  lemma {:induction false} ValuesOfMap<X, Y>(m: map<X, Y>)
    ensures |m.Values| <= |m|
    ensures |m.Values| == |m| ==> Injective(m)
    decreases |m|
  {
    if m == map[] {
      assert m.Values == {};
    } else {
      var x :| x in m;
      var rest := m - {x};
      ValuesOfMap(rest);
      assert |rest| == |m| - 1 by {
        assert rest.Keys == m.Keys - {x};
        assert |m.Keys| == |m| && |rest.Keys| == |rest|;
      }
      assert forall y :: y in rest ==> rest[y] == m[y];
      if m[x] in rest.Values {
        assert m.Values == rest.Values;
      } else {
        assert m.Values == rest.Values + {m[x]};
        assert forall y :: y in rest ==> m[y] in rest.Values;
      }
    }
  }

  lemma SubsetCardinality<T>(a: set<T>, b: set<T>)
    requires a <= b
    ensures |a| <= |b|
    ensures |a| == |b| ==> a == b
  {
    assert b == a + (b - a);
    assert |b| == |a| + |b - a|;
  }
}
