/**
 * The log formatter of the browser build: `formatJsObject` on null and on
 * the three SDK records it knows (user, device and device status), through
 * `jsonObject` and `jsonValue`. Unlike the interop writer it keeps null
 * fields, writes numbers with their sign, and embeds already formatted text
 * (`JsonRaw`) verbatim. Every record is proved to read back as a JSON object
 * holding its fields in order, a device's status as a nested object.
 */
module AppJs {
  import opened Wrappers
  import Decimal
  import Json

  /** The values `jsonValue` meets: null, a whole number, a Boolean, a string, or raw JSON text. */
  datatype Value =
    | Null
    | Number(n: int)
    | Boolean(b: bool)
    | Str(s: string)
    | Raw(text: string)

  /** A record field's value: anything but raw text. */
  type Scalar = v: Value | !v.Raw? witness Null

  /** The SDK records `formatKnownModel` lays out; `model` and `connectType` hold their `toString()`. */
  datatype Model =
    | UserInfo(uid: Scalar, name: Scalar, avatar: Scalar, country: Scalar)
    | DeviceInfo(model: string, sn: Scalar, status: Option<Model>)
    | DeviceStatus(sn: Scalar, connectType: string, isWearing: Scalar, batteryLevel: Scalar,
                   isCharging: Scalar, isInCase: Scalar)

  /** `toString()` of a whole number: a minus sign for a negative one, then its decimal digits. */
  function NumberText(n: int): string {
    if n < 0 then "-" + Decimal.Show(-n) else Decimal.Show(n)
  }

  /** `jsonValue`: numbers and Booleans by `toString()`, strings quoted and escaped, raw text as it is. */
  function JsonValue(v: Value): string {
    match v
    case Null => "null"
    case Number(n) => NumberText(n)
    case Boolean(b) => if b then "true" else "false"
    case Str(s) => Json.Quote(s)
    case Raw(text) => text
  }

  /** Each field's key and the text `jsonValue` gives its value. */
  function Pairs(fields: seq<(string, Value)>): (r: seq<(string, string)>)
    ensures |r| == |fields|
    ensures forall i :: 0 <= i < |fields| ==> r[i] == (fields[i].0, JsonValue(fields[i].1))
  {
    if |fields| == 0 then [] else [(fields[0].0, JsonValue(fields[0].1))] + Pairs(fields[1..])
  }

  /** `jsonObject`: every field, null ones included, joined by "," in braces. */
  function JsonObject(fields: seq<(string, Value)>): string {
    Json.ObjectText(Pairs(fields))
  }

  /** The fields `formatKnownModel` writes for each record, in order. */
  function Fields(m: Model): seq<(string, Value)>
    decreases m, 0
  {
    match m
    case UserInfo(uid, name, avatar, country) =>
      [("uid", uid), ("name", name), ("avatar", avatar), ("country", country)]
    case DeviceInfo(model, sn, status) =>
      [("model", Str(model)), ("sn", sn),
       ("status", match status case None => Null case Some(s) => Raw(FormatKnownModel(s)))]
    case DeviceStatus(sn, connectType, isWearing, batteryLevel, isCharging, isInCase) =>
      [("sn", sn), ("connectType", Str(connectType)), ("isWearing", isWearing),
       ("batteryLevel", batteryLevel), ("isCharging", isCharging), ("isInCase", isInCase)]
  }

  /** `formatKnownModel` on the three known records. */
  function FormatKnownModel(m: Model): string
    decreases m, 1
  {
    JsonObject(Fields(m))
  }

  /** `formatJsObject`: `"null"` for null, the record's layout otherwise. */
  function FormatJsObject(obj: Option<Model>): (r: string)
    ensures obj.None? ==> r == "null"
  {
    match obj
    case None => "null"
    case Some(m) => FormatKnownModel(m)
  }

  /** The JSON value a reader should see for a field. */
  function ToNode(v: Scalar): Json.Node {
    match v
    case Null => Json.JNull
    case Number(n) => Json.JNum(n)
    case Boolean(b) => Json.JBool(b)
    case Str(s) => Json.JStr(s)
  }

  /** The JSON object a reader should see for a record: its fields in order, the status nested. */
  function ModelNode(m: Model): Json.Node {
    match m
    case UserInfo(uid, name, avatar, country) =>
      Json.JObject([Json.Member("uid", ToNode(uid)), Json.Member("name", ToNode(name)),
                    Json.Member("avatar", ToNode(avatar)), Json.Member("country", ToNode(country))])
    case DeviceInfo(model, sn, status) =>
      Json.JObject([Json.Member("model", Json.JStr(model)), Json.Member("sn", ToNode(sn)),
                    Json.Member("status", match status case None => Json.JNull case Some(s) => ModelNode(s))])
    case DeviceStatus(sn, connectType, isWearing, batteryLevel, isCharging, isInCase) =>
      Json.JObject([Json.Member("sn", ToNode(sn)), Json.Member("connectType", Json.JStr(connectType)),
                    Json.Member("isWearing", ToNode(isWearing)), Json.Member("batteryLevel", ToNode(batteryLevel)),
                    Json.Member("isCharging", ToNode(isCharging)), Json.Member("isInCase", ToNode(isInCase))])
  }

  /** What `jsonValue` writes for a field reads back as that field's value. */
  lemma ScalarReads(v: Scalar)
    ensures Json.Reads(JsonValue(v), ToNode(v))
  {
    match v
    case Null => Json.ReadsNull();
    case Number(n) => Json.ReadsNumber(n);
    case Boolean(b) => Json.ReadsBool(b);
    case Str(s) => Json.ReadsQuote(s);
  }

  /** `jsonObject` of values that read back reads back as an object with all those fields, in order. */
  lemma JsonObjectReads(fields: seq<(string, Value)>, nodes: seq<Json.Node>)
    requires |fields| == |nodes|
    requires forall i :: 0 <= i < |fields| ==> Json.Reads(JsonValue(fields[i].1), nodes[i])
    ensures Json.Reads(JsonObject(fields), Json.JObject(Json.Members(Pairs(fields), nodes)))
  {
    Json.ReadsObject(Pairs(fields), nodes);
  }

  /** The value a reader should see for each field `Fields` lists, in the same order. */
  function FieldNodes(m: Model): seq<Json.Node> {
    match m
    case UserInfo(uid, name, avatar, country) =>
      [ToNode(uid), ToNode(name), ToNode(avatar), ToNode(country)]
    case DeviceInfo(model, sn, status) =>
      [Json.JStr(model), ToNode(sn), match status case None => Json.JNull case Some(s) => ModelNode(s)]
    case DeviceStatus(sn, connectType, isWearing, batteryLevel, isCharging, isInCase) =>
      [ToNode(sn), Json.JStr(connectType), ToNode(isWearing),
       ToNode(batteryLevel), ToNode(isCharging), ToNode(isInCase)]
  }

  /** Keys in `Fields` order, paired with `FieldNodes`, are the members `ModelNode` lists. */
  predicate MembersAgree(m: Model) {
    |Fields(m)| == |FieldNodes(m)| &&
    Json.Members(Pairs(Fields(m)), FieldNodes(m)) == ModelNode(m).members
  }

  /** The members agree element by element. */
  lemma MembersAgreeAt(m: Model)
    requires |Fields(m)| == |FieldNodes(m)| == |ModelNode(m).members|
    requires forall i :: 0 <= i < |Fields(m)| ==> ModelNode(m).members[i] == Json.Member(Fields(m)[i].0, FieldNodes(m)[i])
    ensures MembersAgree(m)
  {
    var ms := Json.Members(Pairs(Fields(m)), FieldNodes(m));
    assert forall i :: 0 <= i < |ms| ==> ms[i] == ModelNode(m).members[i];
  }

  lemma MembersMatch(m: Model)
    ensures MembersAgree(m)
  {
    match m
    case UserInfo(_, _, _, _) => MembersAgreeAt(m);
    case DeviceInfo(_, _, _) => MembersAgreeAt(m);
    case DeviceStatus(_, _, _, _, _, _) => MembersAgreeAt(m);
  }

  /** Every field's text reads back as the value `FieldNodes` gives it. */
  ghost predicate FieldsReadBack(m: Model) {
    |Fields(m)| == |FieldNodes(m)| &&
    forall i :: 0 <= i < |Fields(m)| ==> Json.Reads(JsonValue(Fields(m)[i].1), FieldNodes(m)[i])
  }

  lemma UserFieldsRead(uid: Scalar, name: Scalar, avatar: Scalar, country: Scalar)
    ensures FieldsReadBack(UserInfo(uid, name, avatar, country))
  {
    var m := UserInfo(uid, name, avatar, country);
    var fs, ns := Fields(m), FieldNodes(m);
    forall i | 0 <= i < |fs|
      ensures Json.Reads(JsonValue(fs[i].1), ns[i])
    {
      if i == 0 { ScalarReads(uid); }
      else if i == 1 { ScalarReads(name); }
      else if i == 2 { ScalarReads(avatar); }
      else { ScalarReads(country); }
    }
  }

  lemma {:induction false} DeviceFieldsRead(model: string, sn: Scalar, status: Option<Model>)
    ensures FieldsReadBack(DeviceInfo(model, sn, status))
    decreases DeviceInfo(model, sn, status), 0
  {
    var m := DeviceInfo(model, sn, status);
    var fs, ns := Fields(m), FieldNodes(m);
    forall i | 0 <= i < |fs|
      ensures Json.Reads(JsonValue(fs[i].1), ns[i])
    {
      if i == 0 { Json.ReadsQuote(model); }
      else if i == 1 { ScalarReads(sn); }
      else {
        match status {
          case None => Json.ReadsNull();
          case Some(s) => FormatKnownModelReads(s);
        }
      }
    }
  }

  lemma StatusFieldsRead(sn: Scalar, connectType: string, isWearing: Scalar, batteryLevel: Scalar,
                         isCharging: Scalar, isInCase: Scalar)
    ensures FieldsReadBack(DeviceStatus(sn, connectType, isWearing, batteryLevel, isCharging, isInCase))
  {
    var m := DeviceStatus(sn, connectType, isWearing, batteryLevel, isCharging, isInCase);
    var fs, ns := Fields(m), FieldNodes(m);
    forall i | 0 <= i < |fs|
      ensures Json.Reads(JsonValue(fs[i].1), ns[i])
    {
      if i == 0 { ScalarReads(sn); }
      else if i == 1 { Json.ReadsQuote(connectType); }
      else if i == 2 { ScalarReads(isWearing); }
      else if i == 3 { ScalarReads(batteryLevel); }
      else if i == 4 { ScalarReads(isCharging); }
      else { ScalarReads(isInCase); }
    }
  }

  /**
   * What `formatKnownModel` writes reads back as the record's fields in
   * order, null ones as null; a device's status reads back as the nested
   * status object, or null when the device has none.
   */
  lemma {:induction false} FormatKnownModelReads(m: Model)
    ensures Json.Reads(FormatKnownModel(m), ModelNode(m))
    decreases m, 1
  {
    match m {
      case UserInfo(uid, name, avatar, country) => UserFieldsRead(uid, name, avatar, country);
      case DeviceInfo(model, sn, status) => DeviceFieldsRead(model, sn, status);
      case DeviceStatus(sn, connectType, isWearing, batteryLevel, isCharging, isInCase) =>
        StatusFieldsRead(sn, connectType, isWearing, batteryLevel, isCharging, isInCase);
    }
    JsonObjectReads(Fields(m), FieldNodes(m));
    MembersMatch(m);
  }

  /** What `formatJsObject` writes reads back as null, or as the record's object. */
  lemma FormatJsObjectReads(obj: Option<Model>)
    ensures Json.Reads(FormatJsObject(obj), match obj case None => Json.JNull case Some(m) => ModelNode(m))
  {
    match obj
    case None => Json.ReadsNull();
    case Some(m) => FormatKnownModelReads(m);
  }
}
