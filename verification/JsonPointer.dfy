/** JSON Pointers as RFC 6901 defines them: syntax and escapes (section 3) and evaluation (section 4). */
module JsonPointer {
  import opened Prelude

  // ---------------------------------------------------------------- decimal numbers

  function Digit(d: nat): char
    requires d < 10
  {
    '0' + d as char
  }

  predicate IsDigit(c: char) {
    '0' <= c <= '9'
  }

  function DigitValue(c: char): nat
    requires IsDigit(c)
  {
    c as nat - '0' as nat
  }

  function Decimal(n: nat): string {
    if n < 10 then [Digit(n)] else Decimal(n / 10) + [Digit(n % 10)]
  }

  predicate AllDigits(s: string) {
    forall i :: 0 <= i < |s| ==> IsDigit(s[i])
  }

  function NumberOf(s: string): nat
    requires AllDigits(s)
  {
    if s == "" then 0 else 10 * NumberOf(s[..|s| - 1]) + DigitValue(s[|s| - 1])
  }

  /** Array indices are digits without leading zeros. */
  function ArrayIndex(token: string): Option<nat> {
    if token != "" && AllDigits(token) && (token[0] != '0' || |token| == 1) then Some(NumberOf(token)) else None
  }

  lemma {:induction false} DecimalShape(n: nat)
    ensures Decimal(n) != "" && AllDigits(Decimal(n)) && (Decimal(n)[0] == '0' <==> n == 0)
    ensures NumberOf(Decimal(n)) == n
    decreases n
  {
    if n >= 10 {
      DecimalShape(n / 10);
      var s := Decimal(n);
      assert s[..|s| - 1] == Decimal(n / 10);
      assert s[0] == Decimal(n / 10)[0];
    } else {
      var s := Decimal(n);
      assert s[..|s| - 1] == "";
      assert NumberOf(s[..|s| - 1]) == 0;
    }
  }

  lemma {:induction false} IndexOfDecimal(n: nat)
    ensures ArrayIndex(Decimal(n)) == Some(n)
  {
    DecimalShape(n);
    if n != 0 {
      assert Decimal(n)[0] != '0';
    } else {
      assert |Decimal(n)| == 1;
    }
  }

  // ---------------------------------------------------------------- escapes

  /** Every occurrence of a character replaced by a text. */
  function Replace(s: string, c: char, to: string): string {
    if s == "" then "" else (if s[0] == c then to else [s[0]]) + Replace(s[1..], c, to)
  }

  function Escape(name: string): string {
    Replace(Replace(name, '~', "~0"), '/', "~1")
  }

  /** Every occurrence of `~` followed by `second` replaced, from left to right. */
  function ReplacePair(s: string, second: char, to: char): string {
    if s == "" then ""
    else if |s| >= 2 && s[0] == '~' && s[1] == second then [to] + ReplacePair(s[2..], second, to)
    else [s[0]] + ReplacePair(s[1..], second, to)
  }

  /** First `~1` to `/`, then `~0` to `~`. */
  function Unescape(token: string): string {
    ReplacePair(ReplacePair(token, '1', '/'), '0', '~')
  }

  function EscapeChar(c: char): string {
    if c == '~' then "~0" else if c == '/' then "~1" else [c]
  }

  lemma {:induction false} ReplaceAppend(a: string, b: string, c: char, to: string)
    ensures Replace(a + b, c, to) == Replace(a, c, to) + Replace(b, c, to)
    decreases |a|
  {
    if a == "" {
      assert a + b == b;
    } else {
      assert (a + b)[1..] == a[1..] + b;
      ReplaceAppend(a[1..], b, c, to);
    }
  }

  /** Escaping works character by character. */
  lemma {:induction false} EscapeHead(name: string)
    requires name != ""
    ensures Escape(name) == EscapeChar(name[0]) + Escape(name[1..])
  {
    var first := if name[0] == '~' then "~0" else [name[0]];
    ReplaceAppend(first, Replace(name[1..], '~', "~0"), '/', "~1");
    assert Replace(first, '/', "~1") == EscapeChar(name[0]) by {
      assert first[1..] == if name[0] == '~' then "0" else "";
      if name[0] == '~' {
        assert Replace("0", '/', "~1") == "0" by { assert "0"[1..] == ""; }
      }
    }
  }

  lemma {:induction false} EscapeHasNoSlash(name: string)
    ensures '/' !in Escape(name)
    decreases |name|
  {
    if name != "" {
      EscapeHead(name);
      EscapeHasNoSlash(name[1..]);
    }
  }

  /** After `~1` is undone only `~` is still escaped. */
  lemma {:induction false} UndoSlash(name: string)
    ensures ReplacePair(Escape(name), '1', '/') == Replace(name, '~', "~0")
    decreases |name|
  {
    if name != "" {
      EscapeHead(name);
      UndoSlash(name[1..]);
      var rest := Escape(name[1..]);
      var all := Escape(name);
      if name[0] == '~' {
        assert all[0] == '~' && all[1] == '0' && all[1..] == "0" + rest;
        assert all[1..][1..] == rest;
      } else if name[0] == '/' {
        assert all[2..] == rest;
      } else {
        assert all[1..] == rest;
      }
    }
  }

  lemma {:induction false} UndoTilde(name: string)
    ensures ReplacePair(Replace(name, '~', "~0"), '0', '~') == name
    decreases |name|
  {
    if name != "" {
      UndoTilde(name[1..]);
      var all := Replace(name, '~', "~0");
      if name[0] == '~' {
        assert all[2..] == Replace(name[1..], '~', "~0");
      } else {
        assert all[1..] == Replace(name[1..], '~', "~0");
      }
    }
  }

  lemma UnescapeEscape(name: string)
    ensures Unescape(Escape(name)) == name
  {
    UndoSlash(name);
    UndoTilde(name);
  }

  // ---------------------------------------------------------------- reference tokens

  /** The pieces of `s` between slashes. */
  function Split(s: string): (tokens: seq<string>)
    ensures |tokens| > 0
  {
    if s == "" then [""]
    else
      var rest := Split(s[1..]);
      if s[0] == '/' then [""] + rest else [[s[0]] + rest[0]] + rest[1..]
  }

  lemma {:induction false} SplitAt(a: string, b: string)
    requires '/' !in a
    ensures Split(a + "/" + b) == [a] + Split(b)
    decreases |a|
  {
    var s := a + "/" + b;
    if a == "" {
      assert s[1..] == b;
    } else {
      assert s[1..] == a[1..] + "/" + b;
      SplitAt(a[1..], b);
      assert ([a[1..]] + Split(b))[1..] == Split(b);
      assert [a[0]] + a[1..] == a;
    }
  }

  lemma {:induction false} SplitPlain(a: string)
    requires '/' !in a
    ensures Split(a) == [a]
    decreases |a|
  {
    if a != "" {
      SplitPlain(a[1..]);
      assert [a[0]] + a[1..] == a;
    }
  }

  function UnescapeAll(tokens: seq<string>): seq<string> {
    seq(|tokens|, i requires 0 <= i < |tokens| => Unescape(tokens[i]))
  }

  /** The decoded tokens of a pointer; a non-empty pointer starts with a slash. */
  function Tokens(pointer: string): Option<seq<string>> {
    if pointer == "" then Some([])
    else if pointer[0] != '/' then None
    else Some(UnescapeAll(Split(pointer[1..])))
  }

  // ---------------------------------------------------------------- evaluation

  function Child(value: Json, token: string): Option<Json> {
    match value
    case Obj(members) => if token in members then Some(members[token]) else None
    case Arr(items) =>
      var index := ArrayIndex(token);
      if index.Some? && index.value < |items| then Some(items[index.value]) else None
    case _ => None
  }

  function Resolve(value: Json, tokens: seq<string>): Option<Json>
    decreases |tokens|
  {
    if tokens == [] then Some(value)
    else match Child(value, tokens[0])
      case None => None
      case Some(child) => Resolve(child, tokens[1..])
  }

  function Evaluate(value: Json, pointer: string): Option<Json> {
    match Tokens(pointer)
    case None => None
    case Some(tokens) => Resolve(value, tokens)
  }
}
