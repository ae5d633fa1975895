/** The lossless parser as it runs over a text, and the writer (packages/core-ts/src/json.ts). */
module JsonParsers {
  import opened JsonRoundTrip
  import opened JsonText
  import opened Wrappers

  /** What a reading came to: its value and the index after it, or nothing and the index at fault. */
  predicate Came<T(==)>(spec: Parsed<T>, r: Option<T>, i: nat) {
    match spec
    case Parsed(value, next) => r == Some(value) && i == next
    case Fault(at) => r == None && i == at
  }

  lemma ObjectOpens(read: Text -> Value, t: Text, i: nat)
    requires Has(t, i, OPEN_OBJECT)
    ensures var j := Space(t, i + 1);
            ReadValue(read, t, i) ==
            if Has(t, j, CLOSE_OBJECT) then Parsed(Obj([]), j + 1)
            else match ReadMembers(read, t, j, []) case Parsed(m, n) => Parsed(Obj(m), n) case Fault(at) => Fault(at)
  {}

  lemma ArrayOpens(read: Text -> Value, t: Text, i: nat)
    requires Has(t, i, OPEN_ARRAY)
    ensures var j := Space(t, i + 1);
            ReadValue(read, t, i) ==
            if Has(t, j, CLOSE_ARRAY) then Parsed(Arr([]), j + 1)
            else match ReadItems(read, t, j, []) case Parsed(m, n) => Parsed(Arr(m), n) case Fault(at) => Fault(at)
  {}

  class Parser {
    const host: Text -> Value
    const text: Text
    var i: nat

    constructor (host: Text -> Value, text: Text)
      ensures this.host == host && this.text == text && i == 0
    {
      this.host := host;
      this.text := text;
      i := 0;
    }

    /** Read the whole text as one value; nothing on a syntax error, with the index at fault. */
    method Document() returns (r: Option<Value>)
      requires i == 0
      modifies this
      ensures Came(ReadDocument(Exact(host), text), r, i)
    {
      r := Element();
      if r.None? {
        return;
      }
      SkipSpace();
      if i != |text| {
        return None;
      }
    }

    method SkipSpace()
      requires i <= |text|
      modifies this
      ensures i == Space(text, old(i)) && i <= |text|
    {
      while i < |text| && IsSpace(text[i])
        invariant i <= |text| && Space(text, i) == Space(text, old(i))
        decreases |text| - i
      {
        i := i + 1;
      }
    }

    method Element() returns (r: Option<Value>)
      requires i <= |text|
      modifies this
      ensures Came(ReadValue(Exact(host), text, old(i)), r, i)
      decreases |text| - i, 1
    {
      SkipSpace();
      if Has(text, i, OPEN_OBJECT) {
        r := Object();
      } else if Has(text, i, OPEN_ARRAY) {
        r := Array();
      } else if Has(text, i, QUOTE) {
        var s := String();
        r := if s.Some? then Some(Str(s.value)) else None;
      } else if Has(text, i, MINUS) || (i < |text| && IsDigitUnit(text[i])) {
        r := Number();
      } else if At(text, i, TRUE) {
        i := i + 4;
        r := Some(Bool(true));
      } else if At(text, i, FALSE) {
        i := i + 5;
        r := Some(Bool(false));
      } else if At(text, i, NULL) {
        i := i + 4;
        r := Some(Null);
      } else {
        r := None;
      }
    }

    method Object() returns (r: Option<Value>)
      requires Has(text, i, OPEN_OBJECT)
      modifies this
      ensures Came(ReadValue(Exact(host), text, old(i)), r, i)
      decreases |text| - i, 0
    {
      ObjectOpens(Exact(host), text, i);
      i := i + 1;
      SkipSpace();
      if Has(text, i, CLOSE_OBJECT) {
        i := i + 1;
        return Some(Obj([]));
      }
      var out := Members();
      r := if out.Some? then Some(Obj(out.value)) else None;
    }

    method Members() returns (r: Option<seq<Member>>)
      requires i <= |text|
      modifies this
      ensures Came(ReadMembers(Exact(host), text, old(i), []), r, i)
      decreases |text| - i, 3
    {
      var out: seq<Member> := [];
      while true
        invariant old(i) <= i <= |text|
        invariant ReadMembers(Exact(host), text, old(i), []) == ReadMembers(Exact(host), text, i, out)
        decreases |text| - i
      {
        var entry := Entry();
        if entry.None? {
          return None;
        }
        out := Put(out, entry.value.key, entry.value.value);
        SkipSpace();
        if Has(text, i, CLOSE_OBJECT) {
          i := i + 1;
          return Some(out);
        }
        if !Has(text, i, COMMA) {
          return None;
        }
        i := i + 1;
      }
    }

    /** Read a key, its colon and its value. */
    method Entry() returns (r: Option<Member>)
      requires i <= |text|
      modifies this
      ensures Came(ReadMember(Exact(host), text, old(i)), r, i)
      decreases |text| - i, 2
    {
      SkipSpace();
      if !Has(text, i, QUOTE) {
        return None;
      }
      var key := String();
      if key.None? {
        return None;
      }
      SkipSpace();
      if !Has(text, i, COLON) {
        return None;
      }
      i := i + 1;
      var value := Element();
      if value.None? {
        return None;
      }
      r := Some(Member(key.value, value.value));
    }

    method Array() returns (r: Option<Value>)
      requires Has(text, i, OPEN_ARRAY)
      modifies this
      ensures Came(ReadValue(Exact(host), text, old(i)), r, i)
      decreases |text| - i, 0
    {
      ArrayOpens(Exact(host), text, i);
      i := i + 1;
      SkipSpace();
      if Has(text, i, CLOSE_ARRAY) {
        i := i + 1;
        return Some(Arr([]));
      }
      var out := Items();
      r := if out.Some? then Some(Arr(out.value)) else None;
    }

    method Items() returns (r: Option<seq<Value>>)
      requires i <= |text|
      modifies this
      ensures Came(ReadItems(Exact(host), text, old(i), []), r, i)
      decreases |text| - i, 2
    {
      var out: seq<Value> := [];
      while true
        invariant old(i) <= i <= |text|
        invariant ReadItems(Exact(host), text, old(i), []) == ReadItems(Exact(host), text, i, out)
        decreases |text| - i
      {
        var item := Element();
        if item.None? {
          return None;
        }
        out := out + [item.value];
        SkipSpace();
        if Has(text, i, CLOSE_ARRAY) {
          i := i + 1;
          return Some(out);
        }
        if !Has(text, i, COMMA) {
          return None;
        }
        i := i + 1;
      }
    }

    method String() returns (r: Option<Text>)
      requires Has(text, i, QUOTE)
      modifies this
      ensures Came(ReadString(text, old(i)), r, i)
    {
      var rest := StringRest(text, i + 1, []);
      if rest.None? {
        return None;
      }
      i := rest.value.1;
      r := Some(rest.value.0);
    }

    method Number() returns (r: Option<Value>)
      requires i <= |text|
      modifies this
      ensures Came(ReadNumber(Exact(host), text, old(i)), r, i)
    {
      var end := NumberEnd(text, i);
      if end.None? {
        return None;
      }
      var literal := text[i..end.value];
      i := end.value;
      r := Some(Exact(host)(literal));
    }
  }

  /** Parse a text, by the language's own parser when it holds no long run of digits. */
  method ParseText(host: Text -> Value, text: Text) returns (r: Option<Value>)
    ensures r == match ReadDocument(Exact(host), text) case Parsed(v, _) => Some(v) case Fault(_) => None
  {
    FastPathIsLossless(host, text);
    if !LongRun(text) {
      var own := ReadDocument(Doubles(host), text);
      return if own.Parsed? then Some(own.value) else None;
    }
    var parser := new Parser(host, text);
    r := parser.Document();
  }

  /** Write a value, joining its parts as they are found. */
  method WriteValue(v: Value) returns (r: Option<Text>)
    ensures r == Write(v)
    decreases v, 0
  {
    match v
    case Arr(items) =>
      var parts := WriteItems(items);
      return Some([OPEN_ARRAY] + (Join(parts) + [CLOSE_ARRAY]));
    case Obj(members) =>
      var parts := WriteMembers(members);
      return Some([OPEN_OBJECT] + (Join(parts) + [CLOSE_OBJECT]));
    case _ => return Write(v);
  }

  method WriteItems(items: seq<Value>) returns (parts: seq<Text>)
    ensures parts == ItemTexts(items)
    decreases items, 1
  {
    parts := [];
    for k := 0 to |items|
      invariant ItemTexts(items) == parts + ItemTexts(items[k..])
    {
      assert items[k..][0] == items[k] && items[k..][1..] == items[k + 1..];
      var text := WriteValue(items[k]);
      parts := parts + [if text.Some? then text.value else NULL];
    }
    assert ItemTexts(items[|items|..]) == [];
  }

  method WriteMembers(members: seq<Member>) returns (parts: seq<Text>)
    ensures parts == MemberTexts(members)
    decreases members, 1
  {
    parts := [];
    for k := 0 to |members|
      invariant MemberTexts(members) == parts + MemberTexts(members[k..])
    {
      assert members[k..][0] == members[k] && members[k..][1..] == members[k + 1..];
      var text := WriteValue(members[k].value);
      if text.Some? {
        parts := parts + [MemberText(members[k].key, text.value)];
      }
    }
    assert MemberTexts(members[|members|..]) == [];
  }
}
