/**
 * The JSON writer of the web interop layer: `jsonValue` for nulls, whole
 * numbers, Booleans, strings and lists, `buildJsonArray`, and
 * `buildJsonObjectInternal`, which drops null fields. Every writer is proved
 * against the reader in `Json`: what it writes reads back as the value it was
 * given, with negative numbers wrapped to their low 32 bits.
 */
module JsInterop {
  import opened Text
  import Decimal
  import Json

  /** Kotlin's 64-bit `Long`, the type `Number.toLong()` gives. */
  type Long = n: int | -0x8000_0000_0000_0000 <= n < 0x8000_0000_0000_0000

  /** The values `jsonValue` writes: null, a whole number, a Boolean, a string or a list of values. */
  datatype Value =
    | Null
    | Number(n: Long)
    | Boolean(b: bool)
    | Str(s: string)
    | List(items: seq<Value>)

  /** The number 2^32. */
  const Two32: int := 0x1_0000_0000

  /**
   * The number `jsonValue` writes for `n`: `n` itself when it is not
   * negative, otherwise `n and 0xFFFFFFFF`, its low 32 bits read as an
   * unsigned number.
   */
  function Wrap(n: Long): (w: nat)
    ensures n >= 0 ==> w == n
    ensures n < 0 ==> w < Two32 && (w - n) % Two32 == 0
  {
    if n < 0 then n % Two32 else n
  }

  /** A negative number of at most 32 bits is written as that number plus 2^32: -1 becomes 4294967295. */
  lemma WrapSmallNegative(n: Long)
    requires -Two32 <= n < 0
    ensures Wrap(n) == n + Two32
  {
    var w := Wrap(n);
    assert 0 <= w < Two32 && (w - n) % Two32 == 0;
    assert 0 < w - n < 2 * Two32;
  }

  /** `toString()` of the wrapped number. */
  function NumberText(n: Long): string {
    Decimal.Show(Wrap(n))
  }

  /** `jsonValue` on the null, Number, Boolean, String and List branches. */
  function JsonValue(v: Value): string
    decreases v, 2
  {
    match v
    case Null => "null"
    case Number(n) => NumberText(n)
    case Boolean(b) => if b then "true" else "false"
    case Str(s) => Json.Quote(s)
    case List(items) => BuildJsonArray(items)
  }

  /** `buildJsonArray`: the element encodings joined by ", " in brackets. */
  function BuildJsonArray(values: seq<Value>): string
    decreases values, 1
  {
    Json.ArrayText(Encodings(values))
  }

  /** The encoding of every element, in order. */
  function Encodings(values: seq<Value>): (r: seq<string>)
    ensures |r| == |values|
    ensures forall i :: 0 <= i < |values| ==> r[i] == JsonValue(values[i])
    decreases values, 0
  {
    if |values| == 0 then [] else [JsonValue(values[0])] + Encodings(values[1..])
  }

  /** The JSON value a reader should see for `v`. */
  function ToNode(v: Value): Json.Node
    decreases v, 1
  {
    match v
    case Null => Json.JNull
    case Number(n) => Json.JNum(Wrap(n))
    case Boolean(b) => Json.JBool(b)
    case Str(s) => Json.JStr(s)
    case List(items) => Json.JArray(ToNodes(items))
  }

  function ToNodes(values: seq<Value>): (r: seq<Json.Node>)
    ensures |r| == |values|
    ensures forall i :: 0 <= i < |values| ==> r[i] == ToNode(values[i])
    decreases values, 0
  {
    if |values| == 0 then [] else [ToNode(values[0])] + ToNodes(values[1..])
  }

  /** What `jsonValue` writes reads back as the value it was given. */
  lemma {:induction false} JsonValueReads(v: Value)
    ensures Json.Reads(JsonValue(v), ToNode(v))
    decreases v
  {
    match v
    case Null => Json.ReadsNull();
    case Number(n) => Json.ReadsNumber(Wrap(n));
    case Boolean(b) => Json.ReadsBool(b);
    case Str(s) => Json.ReadsQuote(s);
    case List(items) =>
      forall i | 0 <= i < |items|
        ensures Json.Reads(Encodings(items)[i], ToNodes(items)[i])
      {
        JsonValueReads(items[i]);
      }
      Json.ReadsArray(Encodings(items), ToNodes(items));
  }

  /** What `buildJsonArray` writes reads back as the array of its elements, in order. */
  lemma BuildJsonArrayReads(values: seq<Value>)
    ensures Json.Reads(BuildJsonArray(values), Json.JArray(ToNodes(values)))
  {
    JsonValueReads(List(values));
  }

  /** The fields `buildJsonObjectInternal` keeps: those whose value is not null. */
  function NonNull(fields: seq<(string, Value)>): (r: seq<(string, Value)>)
    ensures |r| <= |fields|
    ensures forall i :: 0 <= i < |r| ==> !r[i].1.Null?
  {
    if |fields| == 0 then []
    else
      var last := fields[|fields| - 1];
      NonNull(fields[..|fields| - 1]) + (if last.1.Null? then [] else [last])
  }

  /** Filtering keeps the order: the kept fields of a concatenation are the kept fields of each part. */
  lemma {:induction false} NonNullAppend(a: seq<(string, Value)>, b: seq<(string, Value)>)
    ensures NonNull(a + b) == NonNull(a) + NonNull(b)
    decreases |b|
  {
    if |b| == 0 {
      assert a + b == a;
    } else {
      var c := b[..|b| - 1];
      var last := b[|b| - 1];
      assert (a + b)[..|a + b| - 1] == a + c;
      assert b[..|b| - 1] == c;
      NonNullAppend(a, c);
      AppendAssoc(NonNull(a), NonNull(c), if last.1.Null? then [] else [last]);
    }
  }

  /** One field is kept exactly when its value is not null. */
  lemma NonNullOne(f: (string, Value))
    ensures NonNull([f]) == if f.1.Null? then [] else [f]
  {
    assert [f][..0] == [];
  }

  /** Nothing is kept exactly when every value is null. */
  lemma {:induction false} NonNullEmpty(fields: seq<(string, Value)>)
    ensures NonNull(fields) == [] <==> forall i :: 0 <= i < |fields| ==> fields[i].1.Null?
    decreases |fields|
  {
    if |fields| > 0 {
      var init := fields[..|fields| - 1];
      NonNullEmpty(init);
      assert forall i :: 0 <= i < |init| ==> init[i] == fields[i];
    }
  }

  /** The member texts of the kept fields: the escaped key in quotes, a colon, the value's JSON. */
  function EntryPairs(fields: seq<(string, Value)>): (r: seq<(string, string)>)
    ensures |r| == |fields|
    ensures forall i :: 0 <= i < |fields| ==> r[i] == (fields[i].0, JsonValue(fields[i].1))
  {
    if |fields| == 0 then [] else [(fields[0].0, JsonValue(fields[0].1))] + EntryPairs(fields[1..])
  }

  /** What `buildJsonObjectInternal` returns. */
  function ObjectJson(fields: seq<(string, Value)>): string {
    Json.ObjectText(EntryPairs(NonNull(fields)))
  }

  /** One more field adds its member text to the parts when its value is not null. */
  lemma PartsSnoc(fields: seq<(string, Value)>, i: nat)
    requires i < |fields|
    ensures Json.EntryTexts(EntryPairs(NonNull(fields[..i + 1])))
         == Json.EntryTexts(EntryPairs(NonNull(fields[..i])))
            + (if fields[i].1.Null? then [] else [Json.EntryText(fields[i].0, JsonValue(fields[i].1))])
  {
    var f := fields[i];
    assert fields[..i + 1][..i] == fields[..i];
    var before := Json.EntryTexts(EntryPairs(NonNull(fields[..i])));
    var after := Json.EntryTexts(EntryPairs(NonNull(fields[..i + 1])));
    if !f.1.Null? {
      assert NonNull(fields[..i + 1]) == NonNull(fields[..i]) + [f];
      assert |after| == |before| + 1;
      assert forall k :: 0 <= k < |before| ==> after[k] == before[k];
    }
  }

  /**
   * `buildJsonObjectInternal`: a loop collecting the member text of every
   * field whose value is not null, then the parts joined by "," in braces.
   */
  method BuildJsonObjectInternal(fields: seq<(string, Value)>) returns (result: string)
    ensures result == ObjectJson(fields)
  {
    var parts: seq<string> := [];
    for i := 0 to |fields|
      invariant parts == Json.EntryTexts(EntryPairs(NonNull(fields[..i])))
    {
      var (key, value) := fields[i];
      if !value.Null? {
        var escaped := Json.EscapeJson(key);
        var jsonValueStr := JsonValue(value);
        var part := "\"" + escaped + "\"" + ":" + jsonValueStr;
        parts := parts + [part];
      }
      PartsSnoc(fields, i);
    }
    assert fields[..|fields|] == fields;
    var body := Join(parts, ",");
    result := "{" + body + "}";
  }

  /** The members a reader sees for the given fields, in order. */
  function MembersOf(fields: seq<(string, Value)>): (ms: seq<Json.Member>)
    ensures |ms| == |fields|
    ensures forall i :: 0 <= i < |fields| ==> ms[i] == Json.Member(fields[i].0, ToNode(fields[i].1))
  {
    if |fields| == 0 then [] else [Json.Member(fields[0].0, ToNode(fields[0].1))] + MembersOf(fields[1..])
  }

  /** The values of the given fields as a reader sees them. */
  function NodesOf(fields: seq<(string, Value)>): (ns: seq<Json.Node>)
    ensures |ns| == |fields|
    ensures forall i :: 0 <= i < |fields| ==> ns[i] == ToNode(fields[i].1)
  {
    if |fields| == 0 then [] else [ToNode(fields[0].1)] + NodesOf(fields[1..])
  }

  /**
   * What `buildJsonObjectInternal` writes reads back as an object holding
   * exactly the fields whose value is not null, in their order, each with
   * its value.
   */
  lemma ObjectJsonReads(fields: seq<(string, Value)>)
    ensures Json.Reads(ObjectJson(fields), Json.JObject(MembersOf(NonNull(fields))))
  {
    var kept := NonNull(fields);
    var pairs := EntryPairs(kept);
    var nodes := NodesOf(kept);
    forall i | 0 <= i < |pairs|
      ensures Json.Reads(pairs[i].1, nodes[i])
    {
      JsonValueReads(kept[i].1);
    }
    Json.ReadsObject(pairs, nodes);
    assert Json.Members(pairs, nodes) == MembersOf(kept);
  }

  /** The object is `{}` exactly when every value is null. */
  lemma ObjectJsonEmpty(fields: seq<(string, Value)>)
    ensures ObjectJson(fields) == "{}" <==> forall i :: 0 <= i < |fields| ==> fields[i].1.Null?
  {
    NonNullEmpty(fields);
    var texts := Json.EntryTexts(EntryPairs(NonNull(fields)));
    if |texts| > 0 {
      Json.JoinStart(texts, ",");
      assert |ObjectJson(fields)| > 2;
    } else {
      assert Join(texts, ",") == "";
    }
  }
}
