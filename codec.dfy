/**
 * The text form of a stored session blob. The source stores
 * base64(JSON.stringify(obj)) and reads it back with JSON.parse(atob(text));
 * the model replaces that pair of foreign codecs by one canonical JSON
 * writer (no whitespace, only `"` and `\` escaped) and a parser that accepts
 * exactly what the writer produces. Both round trips are proved:
 * Decode(Encode(p)) == Some(p), and Decode(s) == Some(p) ==> Encode(p) == s.
 */
module Codec {
  import opened Wrappers
  import opened Json

  /* ---------------- writer ---------------- */

  function Escape(s: string): string {
    if s == [] then []
    else (if s[0] == '"' || s[0] == '\\' then ['\\', s[0]] else [s[0]]) + Escape(s[1..])
  }

  function Quote(s: string): string {
    "\"" + Escape(s) + "\""
  }

  function Serialize(v: Json): string
    decreases v
  {
    match v
    case Null => "null"
    case Bool(b) => if b then "true" else "false"
    case Str(s) => Quote(s)
    case Arr(items) => "[" + SerializeItems(items) + "]"
    case Obj(fields) => "{" + SerializeFields(fields) + "}"
  }

  function SerializeItems(items: seq<Json>): string
    decreases items
  {
    if items == [] then ""
    else if |items| == 1 then Serialize(items[0])
    else Serialize(items[0]) + "," + SerializeItems(items[1..])
  }

  function SerializeFields(fields: seq<Field>): string
    decreases fields
  {
    if fields == [] then ""
    else if |fields| == 1 then SerializeField(fields[0])
    else SerializeField(fields[0]) + "," + SerializeFields(fields[1..])
  }

  function SerializeField(f: Field): string
    decreases f
  {
    Quote(f.key) + ":" + Serialize(f.val)
  }

  /* ---------------- parser ---------------- */

  /** Reads a string body up to its closing quote; the rest follows the quote. */
  function ParseString(s: string): (r: Option<(string, string)>)
    ensures r.Some? ==> |r.value.1| < |s|
  {
    if s == [] then None
    else if s[0] == '"' then Some(([], s[1..]))
    else if s[0] == '\\' then
      if |s| >= 2 && (s[1] == '"' || s[1] == '\\') then
        match ParseString(s[2..])
        case None => None
        case Some((body, rest)) => Some(([s[1]] + body, rest))
      else None
    else
      match ParseString(s[1..])
      case None => None
      case Some((body, rest)) => Some(([s[0]] + body, rest))
  }

  function ParseValue(s: string): (r: Option<(Json, string)>)
    decreases |s|, 0
    ensures r.Some? ==> |r.value.1| < |s|
  {
    if s == [] then None
    else if s[0] == 'n' then
      if |s| >= 4 && s[..4] == "null" then Some((Null, s[4..])) else None
    else if s[0] == 't' then
      if |s| >= 4 && s[..4] == "true" then Some((Bool(true), s[4..])) else None
    else if s[0] == 'f' then
      if |s| >= 5 && s[..5] == "false" then Some((Bool(false), s[5..])) else None
    else if s[0] == '"' then
      match ParseString(s[1..])
      case None => None
      case Some((body, rest)) => Some((Str(body), rest))
    else if s[0] == '[' then
      match ParseItems(s[1..])
      case None => None
      case Some((items, rest)) => Some((Arr(items), rest))
    else if s[0] == '{' then
      match ParseFields(s[1..])
      case None => None
      case Some((fields, rest)) => Some((Obj(fields), rest))
    else None
  }

  /** The elements of an array after its `[`, through its `]`. */
  function ParseItems(s: string): (r: Option<(seq<Json>, string)>)
    decreases |s|, 2
    ensures r.Some? ==> |r.value.1| < |s|
  {
    if s != [] && s[0] == ']' then Some(([], s[1..])) else ParseMoreItems(s)
  }

  /** One or more elements separated by `,`, through the closing `]`. */
  function ParseMoreItems(s: string): (r: Option<(seq<Json>, string)>)
    decreases |s|, 1
    ensures r.Some? ==> |r.value.1| < |s|
  {
    match ParseValue(s)
    case None => None
    case Some((v, rest)) =>
      if rest != [] && rest[0] == ']' then Some(([v], rest[1..]))
      else if rest != [] && rest[0] == ',' then
        match ParseMoreItems(rest[1..])
        case None => None
        case Some((vs, rest')) => Some(([v] + vs, rest'))
      else None
  }

  /** The fields of an object after its `{`, through its `}`. */
  function ParseFields(s: string): (r: Option<(seq<Field>, string)>)
    decreases |s|, 2
    ensures r.Some? ==> |r.value.1| < |s|
  {
    if s != [] && s[0] == '}' then Some(([], s[1..])) else ParseMoreFields(s)
  }

  /** One or more `"key":value` fields separated by `,`, through the closing `}`. */
  function ParseMoreFields(s: string): (r: Option<(seq<Field>, string)>)
    decreases |s|, 1
    ensures r.Some? ==> |r.value.1| < |s|
  {
    match ParseField(s)
    case None => None
    case Some((f, rest)) =>
      if rest != [] && rest[0] == '}' then Some(([f], rest[1..]))
      else if rest != [] && rest[0] == ',' then
        match ParseMoreFields(rest[1..])
        case None => None
        case Some((fs, rest')) => Some(([f] + fs, rest'))
      else None
  }

  function ParseField(s: string): (r: Option<(Field, string)>)
    decreases |s|, 0
    ensures r.Some? ==> |r.value.1| < |s|
  {
    if s == [] || s[0] != '"' then None
    else
      match ParseString(s[1..])
      case None => None
      case Some((key, rest)) =>
        if rest == [] || rest[0] != ':' then None
        else
          match ParseValue(rest[1..])
          case None => None
          case Some((v, rest')) => Some((Field(key, v), rest'))
  }

  /* ---------------- the stored blob ---------------- */

  /** What `set` stores for a session object. */
  function Encode(p: Payload): string {
    Serialize(Obj(p))
  }

  /** What `get` reads back: an object spanning the whole text, or nothing. */
  function Decode(s: string): Option<Payload> {
    match ParseValue(s)
    case Some((Obj(p), rest)) => if rest == [] then Some(p) else None
    case _ => None
  }

  /* ---------------- parse(serialize(v)) ---------------- */

  lemma {:induction false} ParseQuoted(s: string, rest: string)
    ensures ParseString(Escape(s) + "\"" + rest) == Some((s, rest))
  {
    if s == [] {
      assert Escape(s) + "\"" + rest == "\"" + rest;
    } else {
      ParseQuoted(s[1..], rest);
      var head := if s[0] == '"' || s[0] == '\\' then ['\\', s[0]] else [s[0]];
      assert Escape(s) == head + Escape(s[1..]);
      Regroup4(head, Escape(s[1..]), "\"", rest);
      StringStep(head, Escape(s[1..]) + "\"" + rest, s[1..], rest);
      assert [s[0]] + s[1..] == s;
    }
  }

  /** One character of a string body, escaped or not, followed by the rest of the body. */
  lemma StringStep(head: string, tail: string, body: string, rest: string)
    requires (|head| == 2 && head[0] == '\\' && (head[1] == '"' || head[1] == '\\'))
          || (|head| == 1 && head[0] != '"' && head[0] != '\\')
    requires ParseString(tail) == Some((body, rest))
    ensures ParseString(head + tail) == Some(([head[|head| - 1]] + body, rest))
  {
    assert (head + tail)[|head|..] == tail;
  }


  lemma {:induction false} ParseSerializedArr(items: seq<Json>, rest: string)
    ensures ParseValue("[" + SerializeItems(items) + "]" + rest) == Some((Arr(items), rest))
    decreases items, 2
  {
    var inner := SerializeItems(items) + "]" + rest;
    if items == [] {
      assert inner == "]" + rest;
      assert inner[1..] == rest;
    } else {
      ParseSerializedItems(items, rest);
      SerializedHead(items);
      FirstOfSerialized(items[0]);
      assert inner[0] == Serialize(items[0])[0];
    }
    assert ParseItems(inner) == Some((items, rest));
    ArrOfItems("[", inner, items, rest);
    Regroup4("[", SerializeItems(items), "]", rest);
  }

  lemma {:induction false} ParseSerialized(v: Json, rest: string)
    ensures ParseValue(Serialize(v) + rest) == Some((v, rest))
    decreases v, 0
  {
    var t := Serialize(v) + rest;
    match v
    case Null =>
      assert t[..4] == "null" && t[4..] == rest;
    case Bool(b) =>
      if b {
        assert t[..4] == "true" && t[4..] == rest;
      } else {
        assert t[..5] == "false" && t[5..] == rest;
      }
    case Str(s) =>
      assert t == "\"" + (Escape(s) + "\"" + rest);
      assert t[1..] == Escape(s) + "\"" + rest;
      ParseQuoted(s, rest);
    case Arr(items) =>
      ParseSerializedArr(items, rest);
    case Obj(fields) =>
      ParseSerializedObj(fields, rest);
  }


  lemma {:induction false} ParseSerializedObj(fields: seq<Field>, rest: string)
    ensures ParseValue("{" + SerializeFields(fields) + "}" + rest) == Some((Obj(fields), rest))
    decreases fields, 2
  {
    var inner := SerializeFields(fields) + "}" + rest;
    if fields == [] {
      assert inner == "}" + rest;
      assert inner[1..] == rest;
    } else {
      ParseSerializedFields(fields, rest);
      FieldsOpenWithQuote(fields);
      assert inner[0] == '"';
    }
    assert ParseFields(inner) == Some((fields, rest));
    ObjOfFields("{", inner, fields, rest);
    Regroup4("{", SerializeFields(fields), "}", rest);
  }

  /** Parsing a bracketed array whose elements parse. */
  lemma ArrOfItems(open: string, inner: string, items: seq<Json>, rest: string)
    requires open == "[" && ParseItems(inner) == Some((items, rest))
    ensures ParseValue(open + inner) == Some((Arr(items), rest))
  {
    assert (open + inner)[1..] == inner;
  }

  /** Parsing a braced object whose fields parse. */
  lemma ObjOfFields(open: string, inner: string, fields: seq<Field>, rest: string)
    requires open == "{" && ParseFields(inner) == Some((fields, rest))
    ensures ParseValue(open + inner) == Some((Obj(fields), rest))
  {
    assert (open + inner)[1..] == inner;
  }

  /** Moves the brackets of a four-piece concatenation to the right. */
  lemma Regroup4(open: string, a: string, close: string, rest: string)
    ensures open + a + close + rest == open + (a + close + rest)
  {
  }


  /** The serialized fields of a non-empty object start with the quote of the first key. */
  lemma FieldsOpenWithQuote(fields: seq<Field>)
    requires fields != []
    ensures SerializeFields(fields) != [] && SerializeFields(fields)[0] == '"'
  {
    assert SerializeField(fields[0])[0] == '"';
  }

  /** The serialized elements of a non-empty array start with the first element. */
  lemma SerializedHead(items: seq<Json>)
    requires items != []
    ensures |Serialize(items[0])| <= |SerializeItems(items)|
    ensures SerializeItems(items)[..|Serialize(items[0])|] == Serialize(items[0])
  {
  }

  /** A serialized value is not empty and never starts with a closing bracket. */
  lemma FirstOfSerialized(v: Json)
    ensures Serialize(v) != [] && Serialize(v)[0] != ']'
  {
    match v
    case Arr(_) =>
    case Obj(_) =>
    case Str(_) =>
    case Null =>
    case Bool(_) =>
  }

  lemma {:induction false} ParseSerializedItems(items: seq<Json>, rest: string)
    requires items != []
    ensures ParseMoreItems(SerializeItems(items) + "]" + rest) == Some((items, rest))
    decreases items, 1
  {
    if |items| == 1 {
      ParseSerializedLastItem(items, rest);
    } else {
      ParseSerializedItems(items[1..], rest);
      ParseSerializedNextItem(items, rest);
    }
  }

  lemma ParseSerializedLastItem(items: seq<Json>, rest: string)
    requires |items| == 1
    ensures ParseMoreItems(SerializeItems(items) + "]" + rest) == Some((items, rest))
    decreases items, 0
  {
    ItemsTextLast(items, rest);
    ParseSerialized(items[0], "]" + rest);
    MoreItemsOfLast(SerializeItems(items) + "]" + rest, items[0], rest);
    assert [items[0]] == items;
  }

  lemma ParseSerializedNextItem(items: seq<Json>, rest: string)
    requires |items| > 1
    requires ParseMoreItems(SerializeItems(items[1..]) + "]" + rest) == Some((items[1..], rest))
    ensures ParseMoreItems(SerializeItems(items) + "]" + rest) == Some((items, rest))
    decreases items, 0
  {
    var tail := SerializeItems(items[1..]) + "]" + rest;
    ItemsTextNext(items, rest);
    ParseSerialized(items[0], "," + tail);
    MoreItemsOfNext(SerializeItems(items) + "]" + rest, items[0], tail, items[1..], rest);
    assert [items[0]] + items[1..] == items;
  }


  lemma ItemsTextLast(items: seq<Json>, rest: string)
    requires |items| == 1
    ensures SerializeItems(items) + "]" + rest == Serialize(items[0]) + ("]" + rest)
  {
  }

  lemma ItemsTextNext(items: seq<Json>, rest: string)
    requires |items| > 1
    ensures SerializeItems(items) + "]" + rest
         == Serialize(items[0]) + ("," + (SerializeItems(items[1..]) + "]" + rest))
  {
    Regroup(Serialize(items[0]), ",", SerializeItems(items[1..]), "]", rest);
  }

  /** Moves the brackets of a five-piece concatenation to the right. */
  lemma Regroup(a: string, sep: string, b: string, close: string, rest: string)
    ensures a + sep + b + close + rest == a + (sep + (b + close + rest))
  {
  }

  lemma MoreItemsOfLast(t: string, v: Json, rest: string)
    requires ParseValue(t) == Some((v, "]" + rest))
    ensures ParseMoreItems(t) == Some(([v], rest))
  {
    assert ("]" + rest)[1..] == rest;
  }

  lemma MoreItemsOfNext(t: string, v: Json, tail: string, vs: seq<Json>, rest: string)
    requires ParseValue(t) == Some((v, "," + tail))
    requires ParseMoreItems(tail) == Some((vs, rest))
    ensures ParseMoreItems(t) == Some(([v] + vs, rest))
  {
    assert ("," + tail)[1..] == tail;
  }

  lemma {:induction false} ParseSerializedField(f: Field, rest: string)
    ensures ParseField(SerializeField(f) + rest) == Some((f, rest))
    decreases f, 0
  {
    var t := SerializeField(f) + rest;
    var value := Serialize(f.val) + rest;
    var afterKey := ":" + value;
    assert t == "\"" + (Escape(f.key) + "\"" + afterKey);
    assert t[0] == '"';
    assert t[1..] == Escape(f.key) + "\"" + afterKey;
    ParseQuoted(f.key, afterKey);
    assert ParseString(t[1..]) == Some((f.key, afterKey));
    assert afterKey[0] == ':' && afterKey[1..] == value;
    ParseSerialized(f.val, rest);
    assert ParseValue(value) == Some((f.val, rest));
  }

  lemma {:induction false} ParseSerializedFields(fields: seq<Field>, rest: string)
    requires fields != []
    ensures ParseMoreFields(SerializeFields(fields) + "}" + rest) == Some((fields, rest))
    decreases fields, 1
  {
    if |fields| == 1 {
      ParseSerializedLastField(fields, rest);
    } else {
      ParseSerializedFields(fields[1..], rest);
      ParseSerializedNextField(fields, rest);
    }
  }

  lemma ParseSerializedLastField(fields: seq<Field>, rest: string)
    requires |fields| == 1
    ensures ParseMoreFields(SerializeFields(fields) + "}" + rest) == Some((fields, rest))
    decreases fields, 0
  {
    FieldsTextLast(fields, rest);
    ParseSerializedField(fields[0], "}" + rest);
    MoreFieldsOfLast(SerializeFields(fields) + "}" + rest, fields[0], rest);
    assert [fields[0]] == fields;
  }

  lemma ParseSerializedNextField(fields: seq<Field>, rest: string)
    requires |fields| > 1
    requires ParseMoreFields(SerializeFields(fields[1..]) + "}" + rest) == Some((fields[1..], rest))
    ensures ParseMoreFields(SerializeFields(fields) + "}" + rest) == Some((fields, rest))
    decreases fields, 0
  {
    var tail := SerializeFields(fields[1..]) + "}" + rest;
    FieldsTextNext(fields, rest);
    ParseSerializedField(fields[0], "," + tail);
    MoreFieldsOfNext(SerializeFields(fields) + "}" + rest, fields[0], tail, fields[1..], rest);
    assert [fields[0]] + fields[1..] == fields;
  }


  lemma FieldsTextLast(fields: seq<Field>, rest: string)
    requires |fields| == 1
    ensures SerializeFields(fields) + "}" + rest == SerializeField(fields[0]) + ("}" + rest)
  {
  }

  lemma FieldsTextNext(fields: seq<Field>, rest: string)
    requires |fields| > 1
    ensures SerializeFields(fields) + "}" + rest
         == SerializeField(fields[0]) + ("," + (SerializeFields(fields[1..]) + "}" + rest))
  {
    Regroup(SerializeField(fields[0]), ",", SerializeFields(fields[1..]), "}", rest);
  }

  lemma MoreFieldsOfLast(t: string, f: Field, rest: string)
    requires ParseField(t) == Some((f, "}" + rest))
    ensures ParseMoreFields(t) == Some(([f], rest))
  {
    assert ("}" + rest)[1..] == rest;
  }

  lemma MoreFieldsOfNext(t: string, f: Field, tail: string, fs: seq<Field>, rest: string)
    requires ParseField(t) == Some((f, "," + tail))
    requires ParseMoreFields(tail) == Some((fs, rest))
    ensures ParseMoreFields(t) == Some(([f] + fs, rest))
  {
    assert ("," + tail)[1..] == tail;
  }

  /* ---------------- serialize(parse(s)) ---------------- */

  lemma {:induction false} QuotedParsed(s: string)
    ensures ParseString(s).Some? ==> s == Escape(ParseString(s).value.0) + "\"" + ParseString(s).value.1
  {
    if s != [] && s[0] != '"' && ParseString(s).Some? {
      var (body, rest) := ParseString(s).value;
      var n := if s[0] == '\\' then 2 else 1;
      QuotedParsed(s[n..]);
      var (body', rest') := ParseString(s[n..]).value;
      assert body == [s[n - 1]] + body' && rest == rest';
      assert Escape(body) == s[..n] + Escape(body');
      Regroup4(s[..n], Escape(body'), "\"", rest);
      assert s == s[..n] + s[n..];
    }
  }


  lemma {:induction false} SerializeParsed(s: string)
    decreases |s|, 0
    ensures ParseValue(s).Some? ==> s == Serialize(ParseValue(s).value.0) + ParseValue(s).value.1
  {
    if ParseValue(s).Some? {
      var (v, rest) := ParseValue(s).value;
      if s[0] == 'n' || s[0] == 't' {
        assert s == s[..4] + s[4..];
      } else if s[0] == 'f' {
        assert s == s[..5] + s[5..];
      } else if s[0] == '"' {
        QuotedParsed(s[1..]);
        var (body, out) := ParseString(s[1..]).value;
        assert v == Str(body) && rest == out;
        Bracketed(s, "\"", Escape(body), "\"", rest);
      } else if s[0] == '[' {
        SerializeParsedItems(s[1..]);
        var (items, out) := ParseItems(s[1..]).value;
        assert v == Arr(items) && rest == out;
        Bracketed(s, "[", SerializeItems(items), "]", rest);
      } else {
        SerializeParsedFields(s[1..]);
        var (fields, out) := ParseFields(s[1..]).value;
        assert v == Obj(fields) && rest == out;
        Bracketed(s, "{", SerializeFields(fields), "}", rest);
      }
    }
  }

  /** A text that opens with `open` and continues with `inner`, `close` and `out`. */
  lemma Bracketed(s: string, open: string, inner: string, close: string, out: string)
    requires s != [] && open == [s[0]] && s[1..] == inner + close + out
    ensures s == open + inner + close + out
  {
    assert s == [s[0]] + s[1..];
  }

  lemma {:induction false} SerializeParsedItems(s: string)
    decreases |s|, 2
    ensures ParseItems(s).Some? ==> s == SerializeItems(ParseItems(s).value.0) + "]" + ParseItems(s).value.1
  {
    if s != [] && s[0] == ']' {
      assert s == "]" + s[1..];
    } else {
      SerializeParsedMoreItems(s);
    }
  }

  lemma {:induction false} SerializeParsedMoreItems(s: string)
    decreases |s|, 1
    ensures ParseMoreItems(s).Some? ==>
      ParseMoreItems(s).value.0 != [] &&
      s == SerializeItems(ParseMoreItems(s).value.0) + "]" + ParseMoreItems(s).value.1
  {
    if ParseMoreItems(s).Some? {
      SerializeParsed(s);
      var (v, rest) := ParseValue(s).value;
      if rest[0] == ']' {
        ItemsLastText(s, v, rest);
      } else {
        SerializeParsedMoreItems(rest[1..]);
        var (vs, out) := ParseMoreItems(rest[1..]).value;
        MoreItemsUnfold(s, v, rest);
        ItemsNextText(s, v, rest, vs, out);
      }
    }
  }

  lemma MoreItemsUnfold(s: string, v: Json, rest: string)
    requires ParseValue(s) == Some((v, rest)) && ParseMoreItems(s).Some? && rest[0] != ']'
    ensures rest != [] && rest[0] == ',' && ParseMoreItems(rest[1..]).Some?
    ensures ParseMoreItems(s) == Some(([v] + ParseMoreItems(rest[1..]).value.0, ParseMoreItems(rest[1..]).value.1))
  {
  }


  lemma ItemsLastText(s: string, v: Json, rest: string)
    requires ParseValue(s) == Some((v, rest)) && s == Serialize(v) + rest
    requires ParseMoreItems(s).Some? && rest[0] == ']'
    ensures ParseMoreItems(s).value.0 == [v]
    ensures s == SerializeItems([v]) + "]" + ParseMoreItems(s).value.1
  {
    assert rest == "]" + rest[1..];
  }

  lemma ItemsNextText(s: string, v: Json, rest: string, vs: seq<Json>, out: string)
    requires s == Serialize(v) + rest && rest != [] && rest[0] == ','
    requires vs != [] && rest[1..] == SerializeItems(vs) + "]" + out
    ensures s == SerializeItems([v] + vs) + "]" + out
  {
    var all := [v] + vs;
    assert all[0] == v && all[1..] == vs;
    assert rest == "," + rest[1..];
    ItemsTextNext(all, out);
  }


  lemma {:induction false} SerializeParsedFields(s: string)
    decreases |s|, 2
    ensures ParseFields(s).Some? ==> s == SerializeFields(ParseFields(s).value.0) + "}" + ParseFields(s).value.1
  {
    if s != [] && s[0] == '}' {
      assert s == "}" + s[1..];
    } else {
      SerializeParsedMoreFields(s);
    }
  }

  /** The text of a field, put back together from the pieces its parser took apart. */
  lemma FieldText(s: string, key: string, rest: string, value: string, out: string)
    requires s != [] && s[0] == '"' && s[1..] == key + "\"" + rest
    requires rest != [] && rest[0] == ':' && rest[1..] == value + out
    ensures s == "\"" + key + "\"" + ":" + value + out
  {
    assert rest == ":" + (value + out);
    assert s == "\"" + s[1..];
  }

  lemma {:induction false} SerializeParsedField(s: string)
    decreases |s|, 0
    ensures ParseField(s).Some? ==> s == SerializeField(ParseField(s).value.0) + ParseField(s).value.1
  {
    if ParseField(s).Some? {
      var (f, out) := ParseField(s).value;
      var (key, rest) := ParseString(s[1..]).value;
      QuotedParsed(s[1..]);
      var (v, out') := ParseValue(rest[1..]).value;
      SerializeParsed(rest[1..]);
      assert f == Field(key, v) && out == out';
      FieldText(s, Escape(key), rest, Serialize(v), out);
    }
  }

  lemma {:induction false} SerializeParsedMoreFields(s: string)
    decreases |s|, 1
    ensures ParseMoreFields(s).Some? ==>
      ParseMoreFields(s).value.0 != [] &&
      s == SerializeFields(ParseMoreFields(s).value.0) + "}" + ParseMoreFields(s).value.1
  {
    if ParseMoreFields(s).Some? {
      SerializeParsedField(s);
      var (f, rest) := ParseField(s).value;
      if rest[0] == '}' {
        FieldsLastText(s, f, rest);
      } else {
        SerializeParsedMoreFields(rest[1..]);
        var (fs, out) := ParseMoreFields(rest[1..]).value;
        MoreFieldsUnfold(s, f, rest);
        FieldsNextText(s, f, rest, fs, out);
      }
    }
  }

  lemma MoreFieldsUnfold(s: string, f: Field, rest: string)
    requires ParseField(s) == Some((f, rest)) && ParseMoreFields(s).Some? && rest[0] != '}'
    ensures rest != [] && rest[0] == ',' && ParseMoreFields(rest[1..]).Some?
    ensures ParseMoreFields(s) == Some(([f] + ParseMoreFields(rest[1..]).value.0, ParseMoreFields(rest[1..]).value.1))
  {
  }


  lemma FieldsLastText(s: string, f: Field, rest: string)
    requires ParseField(s) == Some((f, rest)) && s == SerializeField(f) + rest
    requires ParseMoreFields(s).Some? && rest[0] == '}'
    ensures ParseMoreFields(s).value.0 == [f]
    ensures s == SerializeFields([f]) + "}" + ParseMoreFields(s).value.1
  {
    assert rest == "}" + rest[1..];
  }

  lemma FieldsNextText(s: string, f: Field, rest: string, fs: seq<Field>, out: string)
    requires s == SerializeField(f) + rest && rest != [] && rest[0] == ','
    requires fs != [] && rest[1..] == SerializeFields(fs) + "}" + out
    ensures s == SerializeFields([f] + fs) + "}" + out
  {
    var all := [f] + fs;
    assert all[0] == f && all[1..] == fs;
    assert rest == "," + rest[1..];
    FieldsTextNext(all, out);
  }


  /**
   * A blob that reads back as an object is exactly the encoding of that
   * object: re-storing what was read rewrites the same text.
   */
  lemma EncodeDecoded(s: string)
    ensures Decode(s).Some? ==> Encode(Decode(s).value) == s
  {
    SerializeParsed(s);
    if Decode(s).Some? {
      assert s == Encode(Decode(s).value) + [];
    }
  }

  /** Reading a stored blob back gives the object that was stored. */
  lemma DecodeEncode(p: Payload)
    ensures Decode(Encode(p)) == Some(p)
  {
    ParseSerialized(Obj(p), []);
    assert Encode(p) + [] == Encode(p);
  }
}
