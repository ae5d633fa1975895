/**
 * JSON documents, and JSON pointers as the runtime writes them (packages/core-go/errors.go) and as
 * section 4 of RFC 6901 evaluates them.
 */
module JsonPointer {
  import opened Digits
  import opened Wrappers

  datatype Json = Null | Atom(text: string) | Arr(items: seq<Json>) | Obj(members: map<string, Json>)

  /** Every occurrence of one character replaced. */
  function ReplaceChar(s: string, old_: char, by_: string): string {
    if s == "" then ""
    else (if s[0] == old_ then by_ else [s[0]]) + ReplaceChar(s[1..], old_, by_)
  }

  /** Every occurrence of a pair of characters replaced, left to right. */
  function ReplacePair(s: string, first: char, second: char, by_: char): string {
    if s == "" then ""
    else if |s| >= 2 && s[0] == first && s[1] == second then [by_] + ReplacePair(s[2..], first, second, by_)
    else [s[0]] + ReplacePair(s[1..], first, second, by_)
  }

  /** One reference token as the runtime escapes it: `~` first, then `/`. */
  function Escape(key: string): string {
    ReplaceChar(ReplaceChar(key, '~', "~0"), '/', "~1")
  }

  /** Section 4 of RFC 6901: `~1` first, then `~0`. */
  function Unescape(token: string): string {
    ReplacePair(ReplacePair(token, '~', '1', '/'), '~', '0', '~')
  }

  lemma {:induction false} UnescapeTildes(key: string)
    ensures ReplacePair(ReplaceChar(key, '~', "~0"), '~', '0', '~') == key
  {
    if key != "" {
      UnescapeTildes(key[1..]);
      var rest := ReplaceChar(key[1..], '~', "~0");
      assert ("~0" + rest)[2..] == rest;
      assert ([key[0]] + rest)[1..] == rest;
    }
  }

  lemma {:induction false} ReplaceCharConcat(a: string, b: string, old_: char, by_: string)
    ensures ReplaceChar(a + b, old_, by_) == ReplaceChar(a, old_, by_) + ReplaceChar(b, old_, by_)
  {
    if a == "" {
      assert a + b == b;
    } else {
      assert (a + b)[1..] == a[1..] + b;
      ReplaceCharConcat(a[1..], b, old_, by_);
    }
  }

  lemma EscapeCons(c: char, key: string)
    ensures Escape([c] + key) == (if c == '~' then "~0" else if c == '/' then "~1" else [c]) + Escape(key)
  {
    var head := if c == '~' then "~0" else [c];
    assert ([c] + key)[1..] == key;
    ReplaceCharConcat(head, ReplaceChar(key, '~', "~0"), '/', "~1");
    assert head[1..] == if c == '~' then "0" else "";
  }

  lemma {:induction false} UnescapeSlashes(key: string)
    ensures ReplacePair(Escape(key), '~', '1', '/') == ReplaceChar(key, '~', "~0")
  {
    if key != "" {
      var c, rest := key[0], key[1..];
      assert key == [c] + rest;
      EscapeCons(c, rest);
      UnescapeSlashes(rest);
      var e := Escape(rest);
      if c == '~' {
        assert ("~0" + e)[1..] == "0" + e && ("0" + e)[1..] == e;
      } else if c == '/' {
        assert ("~1" + e)[2..] == e;
      } else {
        assert ([c] + e)[1..] == e;
      }
    }
  }

  /** Escaping a key loses nothing: unescaping gives it back, and it holds no separator. */
  lemma UnescapeEscape(key: string)
    ensures Unescape(Escape(key)) == key
    ensures '/' !in Escape(key)
  {
    UnescapeSlashes(key);
    UnescapeTildes(key);
    EscapeHasNoSlash(key);
  }

  lemma {:induction false} EscapeHasNoSlash(key: string)
    ensures '/' !in Escape(key)
  {
    if key != "" {
      assert key == [key[0]] + key[1..];
      EscapeCons(key[0], key[1..]);
      EscapeHasNoSlash(key[1..]);
    }
  }

  /** An array index token: digits with no leading zero. */
  function ArrayIndex(token: string): Option<nat> {
    if token != "" && AllDigits(token) && (|token| > 1 ==> token[0] != '0') then Some(ValueOf(token)) else None
  }

  function TokenEnd(pointer: string): (n: nat)
    ensures n <= |pointer|
    ensures '/' !in pointer[..n]
    ensures n < |pointer| ==> pointer[n] == '/'
  {
    if pointer == "" || pointer[0] == '/' then 0
    else
      assert forall k :: 0 < k <= |pointer| ==> pointer[..k] == [pointer[0]] + pointer[1..][..k - 1];
      1 + TokenEnd(pointer[1..])
  }

  lemma {:induction false} TokenEndIs(token: string, rest: string)
    requires '/' !in token
    requires rest == "" || rest[0] == '/'
    ensures TokenEnd(token + rest) == |token|
  {
    if token == "" {
      assert token + rest == rest;
    } else {
      assert (token + rest)[1..] == token[1..] + rest;
      TokenEndIs(token[1..], rest);
    }
  }

  /** What a pointer leads to: a value, the one member an object it reaches lacks, or nowhere. */
  datatype Lookup = Found(value: Json) | Absent(members: map<string, Json>, key: string) | Broken

  /** Evaluate a pointer against a document, token by token. */
  function Resolve(doc: Json, pointer: string): Lookup
    decreases |pointer|
  {
    if pointer == "" then Found(doc)
    else if pointer[0] != '/' then Broken
    else
      var n := TokenEnd(pointer[1..]);
      var token, rest := pointer[1..][..n], pointer[1..][n..];
      match doc
      case Obj(members) =>
        var key := Unescape(token);
        if key in members then Resolve(members[key], rest)
        else if rest == "" then Absent(members, key)
        else Broken
      case Arr(items) =>
        var index := ArrayIndex(token);
        if index.Some? && index.value < |items| then Resolve(items[index.value], rest) else Broken
      case _ => Broken
  }

  lemma ResolveToken(doc: Json, token: string, rest: string)
    requires '/' !in token
    requires rest == "" || rest[0] == '/'
    ensures var p := "/" + token + rest;
            var n := TokenEnd(p[1..]);
            p[1..][..n] == token && p[1..][n..] == rest
  {
    var p := "/" + token + rest;
    assert p[1..] == token + rest;
    TokenEndIs(token, rest);
  }

  /** A key's token leads to its member, or names it as the absent one. */
  lemma ResolveKey(members: map<string, Json>, key: string, rest: string)
    requires rest == "" || rest[0] == '/'
    ensures Resolve(Obj(members), "/" + Escape(key) + rest) ==
            if key in members then Resolve(members[key], rest)
            else if rest == "" then Absent(members, key)
            else Broken
  {
    UnescapeEscape(key);
    ResolveToken(Obj(members), Escape(key), rest);
  }

  /** An index's token leads to its item. */
  lemma ResolveIndex(items: seq<Json>, i: nat, rest: string)
    requires i < |items|
    requires rest == "" || rest[0] == '/'
    ensures Resolve(Arr(items), "/" + Itoa(i) + rest) == Resolve(items[i], rest)
  {
    ItoaValue(i);
    ResolveToken(Arr(items), Itoa(i), rest);
  }
}
