/**
 * JSON text as the Kotlin serialisers write it: the five-character string
 * escape both `escapeJson` functions apply, array and object layouts as
 * `joinToString` produces them, and a reader for the JSON those writers
 * emit. The reader is the partner of every writer: reading back what a
 * writer wrote gives the value it was given.
 */
module Json {
  import opened Wrappers
  import opened Text
  import Decimal

  /** The five characters `escapeJson` rewrites. */
  predicate NeedsEscape(c: char) {
    c == '\\' || c == '"' || c == '\n' || c == '\r' || c == '\t'
  }

  /** The character a two-character escape `\x` stands for. */
  function Unescape(x: char): Option<char> {
    match x
      case '\\' => Some('\\')
      case '"' => Some('"')
      case 'n' => Some('\n')
      case 'r' => Some('\r')
      case 't' => Some('\t')
      case _ => None
  }

  /** One character's escape: a backslash pair for the five, the character itself otherwise. */
  function EscapeChar(c: char): (r: string)
    ensures !NeedsEscape(c) ==> r == [c]
    ensures NeedsEscape(c) ==> |r| == 2 && r[0] == '\\' && Unescape(r[1]) == Some(c)
  {
    match c
      case '\\' => "\\\\"
      case '"' => "\\\""
      case '\n' => "\\n"
      case '\r' => "\\r"
      case '\t' => "\\t"
      case _ => [c]
  }

  /** The escaped text: no raw newline, carriage return or tab is left. */
  function Escape(s: string): (r: string)
    ensures '\n' !in r && '\r' !in r && '\t' !in r
    ensures |r| >= |s|
  {
    if |s| == 0 then "" else EscapeChar(s[0]) + Escape(s[1..])
  }

  /** Escaping is done character by character. */
  lemma {:induction false} EscapeAppend(a: string, b: string)
    ensures Escape(a + b) == Escape(a) + Escape(b)
    decreases |a|
  {
    if |a| > 0 {
      assert (a + b)[0] == a[0];
      assert (a + b)[1..] == a[1..] + b;
      EscapeAppend(a[1..], b);
    } else {
      assert a + b == b;
    }
  }

  /** Escaping one more character appends its escape. */
  lemma EscapeSnoc(s: string, i: nat)
    requires i < |s|
    ensures Escape(s[..i + 1]) == Escape(s[..i]) + EscapeChar(s[i])
  {
    assert s[..i + 1] == s[..i] + [s[i]];
    EscapeAppend(s[..i], [s[i]]);
    assert [s[i]][1..] == [];
  }

  /** Text with none of the five characters is copied unchanged. */
  lemma {:induction false} EscapePlain(s: string)
    requires forall i :: 0 <= i < |s| ==> !NeedsEscape(s[i])
    ensures Escape(s) == s
    decreases |s|
  {
    if |s| > 0 {
      EscapePlain(s[1..]);
      assert [s[0]] + s[1..] == s;
    }
  }

  /**
   * `escapeJson`: a loop appending each character's escape to a builder.
   * Both `escapeJson` functions of the app have this body.
   */
  method EscapeJson(value: string) returns (r: string)
    ensures r == Escape(value)
  {
    r := "";
    for i := 0 to |value|
      invariant r == Escape(value[..i])
    {
      var ch := value[i];
      match ch {
        case '\\' => r := r + "\\\\";
        case '"' => r := r + "\\\"";
        case '\n' => r := r + "\\n";
        case '\r' => r := r + "\\r";
        case '\t' => r := r + "\\t";
        case _ => r := r + [ch];
      }
      EscapeSnoc(value, i);
    }
    assert value[..|value|] == value;
  }

  /** A JSON string literal: the escaped text in double quotes. */
  function Quote(s: string): string {
    "\"" + Escape(s) + "\""
  }

  /**
   * Reads the body of a string literal up to its closing quote, undoing the
   * escapes; gives the text and what follows the quote.
   */
  function ReadString(t: string): (r: Option<(string, string)>)
    ensures r.Some? ==> |r.value.1| < |t|
    decreases |t|
  {
    if |t| == 0 then None
    else if t[0] == '"' then Some(("", t[1..]))
    else if t[0] == '\\' then
      if |t| < 2 then None
      else match Unescape(t[1])
        case None => None
        case Some(c) =>
          (match ReadString(t[2..])
            case None => None
            case Some((s, rest)) => Some(([c] + s, rest)))
    else match ReadString(t[1..])
      case None => None
      case Some((s, rest)) => Some(([t[0]] + s, rest))
  }

  /** One escaped character, then text that reads back, reads back with that character in front. */
  lemma ReadEscapedChar(c: char, tail: string, s: string, rest: string)
    requires ReadString(tail) == Some((s, rest))
    ensures ReadString(EscapeChar(c) + tail) == Some(([c] + s, rest))
  {
    var t := EscapeChar(c) + tail;
    if NeedsEscape(c) {
      assert t[0] == '\\' && t[1] == EscapeChar(c)[1];
      assert t[2..] == tail;
    } else {
      assert t[0] == c;
      assert t[1..] == tail;
    }
  }

  /**
   * Escaped text never closes a string literal early: the first unescaped
   * quote after it is the one the writer put there, and the text reads back
   * unchanged.
   */
  lemma {:induction false} ReadEscaped(s: string, rest: string)
    ensures ReadString(Escape(s) + "\"" + rest) == Some((s, rest))
    decreases |s|
  {
    var t := Escape(s) + "\"" + rest;
    if |s| == 0 {
      assert t == "\"" + rest;
      assert t[1..] == rest;
    } else {
      var tail := Escape(s[1..]) + "\"" + rest;
      assert t == EscapeChar(s[0]) + tail;
      ReadEscaped(s[1..], rest);
      ReadEscapedChar(s[0], tail, s[1..], rest);
      assert [s[0]] + s[1..] == s;
    }
  }

  /** Escaping loses nothing: different texts escape differently. */
  lemma EscapeInjective(a: string, b: string)
    requires Escape(a) == Escape(b)
    ensures a == b
  {
    ReadEscaped(a, "");
    ReadEscaped(b, "");
  }

  /** The values JSON text denotes. */
  datatype Node =
    | JNull
    | JBool(b: bool)
    | JNum(n: int)
    | JStr(s: string)
    | JArray(items: seq<Node>)
    | JObject(members: seq<Member>)

  datatype Member = Member(key: string, value: Node)

  /** A run of decimal digits as a number, and what follows it. */
  function ReadDigits(t: string): (r: Option<(nat, string)>)
    ensures r.Some? ==> |r.value.1| < |t|
  {
    var n := Decimal.DigitRun(t);
    if n == 0 then None else Some((Decimal.Value(t[..n]), t[n..]))
  }

  /** Skips the spaces `joinToString(", ")` puts after a separator. */
  function SkipSpaces(t: string): (r: string)
    ensures |r| <= |t|
    ensures |r| > 0 ==> r[0] != ' '
  {
    if |t| > 0 && t[0] == ' ' then SkipSpaces(t[1..]) else t
  }

  /** Reads one JSON value from the front of `t`; gives the value and what follows it. */
  function ReadNode(t: string): (r: Option<(Node, string)>)
    ensures r.Some? ==> |r.value.1| < |t|
    decreases |t|, 1
  {
    if |t| == 0 then None
    else if t[0] == 'n' then
      if |t| >= 4 && t[..4] == "null" then Some((JNull, t[4..])) else None
    else if t[0] == 't' then
      if |t| >= 4 && t[..4] == "true" then Some((JBool(true), t[4..])) else None
    else if t[0] == 'f' then
      if |t| >= 5 && t[..5] == "false" then Some((JBool(false), t[5..])) else None
    else if t[0] == '"' then
      match ReadString(t[1..])
        case None => None
        case Some((s, rest)) => Some((JStr(s), rest))
    else if t[0] == '[' then
      match ReadArray(t[1..])
        case None => None
        case Some((items, rest)) => Some((JArray(items), rest))
    else if t[0] == '{' then
      match ReadObject(t[1..])
        case None => None
        case Some((members, rest)) => Some((JObject(members), rest))
    else if t[0] == '-' then
      match ReadDigits(t[1..])
        case None => None
        case Some((n, rest)) => Some((JNum(-(n as int)), rest))
    else
      match ReadDigits(t)
        case None => None
        case Some((n, rest)) => Some((JNum(n), rest))
  }

  /** The elements of an array after its `[`, through its `]`. */
  function ReadArray(t: string): (r: Option<(seq<Node>, string)>)
    ensures r.Some? ==> |r.value.1| < |t|
    decreases |t|, 3
  {
    if |t| > 0 && t[0] == ']' then Some(([], t[1..])) else ReadItems(t)
  }

  /** One or more elements separated by commas, through the closing `]`. */
  function ReadItems(t: string): (r: Option<(seq<Node>, string)>)
    ensures r.Some? ==> |r.value.1| < |t|
    decreases |t|, 2
  {
    match ReadNode(t)
      case None => None
      case Some((n, rest)) =>
        if |rest| > 0 && rest[0] == ']' then Some(([n], rest[1..]))
        else if |rest| > 0 && rest[0] == ',' then
          match ReadItems(SkipSpaces(rest[1..]))
            case None => None
            case Some((ns, after)) => Some(([n] + ns, after))
        else None
  }

  /** The members of an object after its `{`, through its `}`. */
  function ReadObject(t: string): (r: Option<(seq<Member>, string)>)
    ensures r.Some? ==> |r.value.1| < |t|
    decreases |t|, 3
  {
    if |t| > 0 && t[0] == '}' then Some(([], t[1..])) else ReadMembers(t)
  }

  /** One object member: a quoted key, a colon and a value. */
  function ReadMember(t: string): (r: Option<(Member, string)>)
    ensures r.Some? ==> |r.value.1| < |t|
    decreases |t|, 1
  {
    if |t| == 0 || t[0] != '"' then None
    else match ReadString(t[1..])
      case None => None
      case Some((key, afterKey)) =>
        if |afterKey| == 0 || afterKey[0] != ':' then None
        else match ReadNode(afterKey[1..])
          case None => None
          case Some((v, rest)) => Some((Member(key, v), rest))
  }

  /** One or more `"key":value` members separated by commas, through the closing `}`. */
  function ReadMembers(t: string): (r: Option<(seq<Member>, string)>)
    ensures r.Some? ==> |r.value.1| < |t|
    decreases |t|, 2
  {
    match ReadMember(t)
      case None => None
      case Some((m, rest)) =>
        if |rest| > 0 && rest[0] == '}' then Some(([m], rest[1..]))
        else if |rest| > 0 && rest[0] == ',' then
          match ReadMembers(SkipSpaces(rest[1..]))
            case None => None
            case Some((ms, after)) => Some(([m] + ms, after))
        else None
  }

  /** What may follow a value inside the writers' output: nothing, a separator or a closing bracket. */
  predicate Follows(r: string) {
    |r| == 0 || r[0] == ',' || r[0] == ']' || r[0] == '}'
  }

  /** `text` is the JSON for `n`: followed by anything that may follow a value, it reads back as `n`. */
  ghost predicate Reads(text: string, n: Node) {
    forall r :: Follows(r) ==> ReadNode(text + r) == Some((n, r))
  }

  /** A value's text is never empty and never starts with a space, a comma or a closing bracket. */
  lemma ReadsStart(text: string, n: Node)
    requires Reads(text, n)
    ensures |text| > 0 && text[0] != ' ' && text[0] != ',' && text[0] != ']' && text[0] != '}'
  {
    assert Follows("");
    assert text + "" == text;
    assert ReadNode(text) == Some((n, ""));
  }

  /** `joinToString(prefix = "[", postfix = "]")`: the element texts with ", " between them. */
  function ArrayText(texts: seq<string>): string {
    "[" + Join(texts, ", ") + "]"
  }

  /** One object member as the writers emit it: the quoted, escaped key, a colon, the value's text. */
  function EntryText(key: string, text: string): string {
    Quote(key) + ":" + text
  }

  function EntryTexts(pairs: seq<(string, string)>): (r: seq<string>)
    ensures |r| == |pairs|
    ensures forall i :: 0 <= i < |pairs| ==> r[i] == EntryText(pairs[i].0, pairs[i].1)
  {
    if |pairs| == 0 then [] else [EntryText(pairs[0].0, pairs[0].1)] + EntryTexts(pairs[1..])
  }

  /** `"{" + entries.joinToString(",") + "}"`. */
  function ObjectText(pairs: seq<(string, string)>): string {
    "{" + Join(EntryTexts(pairs), ",") + "}"
  }

  lemma ReadsNull()
    ensures Reads("null", JNull)
  {
    forall r | Follows(r)
      ensures ReadNode("null" + r) == Some((JNull, r))
    {
      var t := "null" + r;
      assert t[..4] == "null" && t[4..] == r;
    }
  }

  lemma ReadsBool(b: bool)
    ensures Reads(if b then "true" else "false", JBool(b))
  {
    forall r | Follows(r)
      ensures ReadNode((if b then "true" else "false") + r) == Some((JBool(b), r))
    {
      if b {
        var t := "true" + r;
        assert t[..4] == "true" && t[4..] == r;
      } else {
        var t := "false" + r;
        assert t[..5] == "false" && t[5..] == r;
      }
    }
  }

  lemma ReadsQuote(s: string)
    ensures Reads(Quote(s), JStr(s))
  {
    forall r | Follows(r)
      ensures ReadNode(Quote(s) + r) == Some((JStr(s), r))
    {
      var t := Quote(s) + r;
      assert t[1..] == Escape(s) + "\"" + r;
      ReadEscaped(s, r);
    }
  }

  /** The digits of a number, followed by something that is not a digit, read back as the number. */
  lemma ReadShow(n: nat, r: string)
    requires |r| == 0 || !Decimal.IsDigit(r[0])
    ensures ReadDigits(Decimal.Show(n) + r) == Some((n, r))
  {
    var d := Decimal.Show(n);
    var t := d + r;
    Decimal.DigitRunPrefix(d, r);
    assert t[..|d|] == d && t[|d|..] == r;
    Decimal.ValueShow(n);
  }

  lemma ReadsNumber(n: int)
    ensures n >= 0 ==> Reads(Decimal.Show(n), JNum(n))
    ensures n < 0 ==> Reads("-" + Decimal.Show(-n), JNum(n))
  {
    if n >= 0 {
      forall r | Follows(r)
        ensures ReadNode(Decimal.Show(n) + r) == Some((JNum(n), r))
      {
        ReadShow(n, r);
        assert (Decimal.Show(n) + r)[0] == Decimal.Show(n)[0];
      }
    } else {
      forall r | Follows(r)
        ensures ReadNode("-" + Decimal.Show(-n) + r) == Some((JNum(n), r))
      {
        var t := "-" + Decimal.Show(-n) + r;
        assert t[1..] == Decimal.Show(-n) + r;
        ReadShow(-n, r);
      }
    }
  }

  /** The last element of an array: a value, then `]`. */
  lemma ItemsEnd(first: string, n0: Node, r: string)
    requires Reads(first, n0)
    ensures ReadItems(first + "]" + r) == Some(([n0], r))
  {
    var rest := "]" + r;
    assert Follows(rest);
    assert first + "]" + r == first + rest;
    assert ReadNode(first + rest) == Some((n0, rest));
    assert rest[1..] == r;
  }

  /** An element, `", "`, then the remaining elements. */
  lemma ItemsNext(first: string, n0: Node, more: string, ns: seq<Node>, r: string)
    requires Reads(first, n0)
    requires |more| > 0 && more[0] != ' ' && ReadItems(more) == Some((ns, r))
    ensures ReadItems(first + ", " + more) == Some(([n0] + ns, r))
  {
    var rest := ", " + more;
    assert Follows(rest);
    assert first + ", " + more == first + rest;
    assert ReadNode(first + rest) == Some((n0, rest));
    assert rest[1..] == " " + more;
    assert (" " + more)[1..] == more;
    assert SkipSpaces(more) == more;
  }

  /** A join of two or more parts is the first part, the separator, then the join of the rest. */
  lemma JoinFront(parts: seq<string>, sep: string)
    requires |parts| >= 2
    ensures Join(parts, sep) == parts[0] + sep + Join(parts[1..], sep)
  {
  }

  /** Regrouping a four-part concatenation around its separator. */
  lemma Regroup(a: string, sep: string, b: string, c: string, d: string)
    ensures a + sep + b + c + d == a + sep + (b + c + d)
  {
  }

  /** A join starts with the start of its first part. */
  lemma JoinStart(parts: seq<string>, sep: string)
    requires |parts| >= 1 && |parts[0]| >= 1
    ensures |Join(parts, sep)| >= 1 && Join(parts, sep)[0] == parts[0][0]
  {
    if |parts| >= 2 {
      JoinFront(parts, sep);
    }
  }

  /** Elements that read back, joined with ", " and closed by `]`, read back as the list. */
  lemma {:induction false} ReadItemsJoin(texts: seq<string>, nodes: seq<Node>, r: string)
    requires |texts| == |nodes| >= 1
    requires forall i :: 0 <= i < |texts| ==> Reads(texts[i], nodes[i])
    ensures ReadItems(Join(texts, ", ") + "]" + r) == Some((nodes, r))
    decreases |texts|
  {
    if |texts| == 1 {
      assert Join(texts, ", ") == texts[0];
      ItemsEnd(texts[0], nodes[0], r);
      assert [nodes[0]] == nodes;
    } else {
      var tail := Join(texts[1..], ", ");
      JoinFront(texts, ", ");
      assert forall i :: 0 <= i < |texts| - 1 ==> texts[1..][i] == texts[i + 1] && nodes[1..][i] == nodes[i + 1];
      ReadItemsJoin(texts[1..], nodes[1..], r);
      ReadsStart(texts[1], nodes[1]);
      JoinStart(texts[1..], ", ");
      ItemsNext(texts[0], nodes[0], tail + "]" + r, nodes[1..], r);
      Regroup(texts[0], ", ", tail, "]", r);
      assert [nodes[0]] + nodes[1..] == nodes;
    }
  }

  lemma ReadArrayAt(texts: seq<string>, nodes: seq<Node>, r: string)
    requires |texts| == |nodes|
    requires forall i :: 0 <= i < |texts| ==> Reads(texts[i], nodes[i])
    ensures ReadNode(ArrayText(texts) + r) == Some((JArray(nodes), r))
  {
    var body := Join(texts, ", ") + "]" + r;
    assert ArrayText(texts) + r == "[" + body;
    assert ("[" + body)[1..] == body;
    if |texts| == 0 {
      assert body == "]" + r;
      assert body[1..] == r;
    } else {
      ReadsStart(texts[0], nodes[0]);
      JoinStart(texts, ", ");
      ReadItemsJoin(texts, nodes, r);
    }
  }

  /** An array of values that read back reads back as the array of their values. */
  lemma ReadsArray(texts: seq<string>, nodes: seq<Node>)
    requires |texts| == |nodes|
    requires forall i :: 0 <= i < |texts| ==> Reads(texts[i], nodes[i])
    ensures Reads(ArrayText(texts), JArray(nodes))
  {
    forall r | Follows(r)
      ensures ReadNode(ArrayText(texts) + r) == Some((JArray(nodes), r))
    {
      ReadArrayAt(texts, nodes, r);
    }
  }

  /** The members denoted by keys and value texts that read back as `nodes`. */
  function Members(pairs: seq<(string, string)>, nodes: seq<Node>): (ms: seq<Member>)
    requires |pairs| == |nodes|
    ensures |ms| == |pairs|
    ensures forall i :: 0 <= i < |pairs| ==> ms[i] == Member(pairs[i].0, nodes[i])
  {
    if |pairs| == 0 then [] else [Member(pairs[0].0, nodes[0])] + Members(pairs[1..], nodes[1..])
  }

  /** A member's text, split at its opening quote. */
  lemma EntryShape(key: string, text: string, r: string)
    ensures EntryText(key, text) + r == "\"" + (Escape(key) + "\"" + (":" + text + r))
  {
  }

  /** A member is read as its quoted key, a colon and its value. */
  lemma ReadMemberParts(t: string, key: string, after: string, n: Node, r: string)
    requires |t| > 0 && t[0] == '"' && ReadString(t[1..]) == Some((key, after))
    requires |after| > 0 && after[0] == ':' && ReadNode(after[1..]) == Some((n, r))
    ensures ReadMember(t) == Some((Member(key, n), r))
  {
  }

  /** The quoted key at the head of a member's text reads back as the key. */
  lemma ReadEntryKey(key: string, text: string, r: string)
    ensures var t := EntryText(key, text) + r;
            |t| > 0 && t[0] == '"' && ReadString(t[1..]) == Some((key, ":" + text + r))
  {
    var after := ":" + text + r;
    var t := EntryText(key, text) + r;
    EntryShape(key, text, r);
    assert t[1..] == Escape(key) + "\"" + after;
    ReadEscaped(key, after);
  }

  /** A member's text, then what follows it, reads back as that member. */
  lemma ReadEntry(key: string, text: string, n: Node, r: string)
    requires Reads(text, n) && Follows(r)
    ensures ReadMember(EntryText(key, text) + r) == Some((Member(key, n), r))
  {
    var after := ":" + text + r;
    ReadEntryKey(key, text, r);
    assert after[1..] == text + r;
    ReadMemberParts(EntryText(key, text) + r, key, after, n, r);
  }

  /** The last member, then `}`. */
  lemma MemberEnd(key: string, text: string, n: Node, r: string)
    requires Reads(text, n)
    ensures ReadMembers(EntryText(key, text) + "}" + r) == Some(([Member(key, n)], r))
  {
    var rest := "}" + r;
    assert Follows(rest);
    ReadEntry(key, text, n, rest);
    AppendAssoc(EntryText(key, text), "}", r);
    assert rest[1..] == r;
  }

  /** A member, `,`, then the remaining members. */
  lemma MemberNext(key: string, text: string, n: Node, more: string, ms: seq<Member>, r: string)
    requires Reads(text, n)
    requires |more| > 0 && more[0] == '"' && ReadMembers(more) == Some((ms, r))
    ensures ReadMembers(EntryText(key, text) + "," + more) == Some(([Member(key, n)] + ms, r))
  {
    var rest := "," + more;
    assert Follows(rest);
    ReadEntry(key, text, n, rest);
    AppendAssoc(EntryText(key, text), ",", more);
    assert rest[1..] == more;
    assert SkipSpaces(more) == more;
  }

  /** Members that read back, joined with "," and closed by `}`, read back as the members. */
  lemma {:induction false} ReadMembersJoin(pairs: seq<(string, string)>, nodes: seq<Node>, r: string)
    requires |pairs| == |nodes| >= 1
    requires forall i :: 0 <= i < |pairs| ==> Reads(pairs[i].1, nodes[i])
    ensures ReadMembers(Join(EntryTexts(pairs), ",") + "}" + r) == Some((Members(pairs, nodes), r))
    decreases |pairs|
  {
    var entries := EntryTexts(pairs);
    var key := pairs[0].0;
    var text := pairs[0].1;
    assert Reads(text, nodes[0]);
    if |pairs| == 1 {
      assert Join(entries, ",") == EntryText(key, text);
      MemberEnd(key, text, nodes[0], r);
      assert [Member(key, nodes[0])] == Members(pairs, nodes);
    } else {
      assert entries[1..] == EntryTexts(pairs[1..]);
      var tail := Join(entries[1..], ",");
      JoinFront(entries, ",");
      assert forall i :: 0 <= i < |pairs| - 1 ==> pairs[1..][i] == pairs[i + 1] && nodes[1..][i] == nodes[i + 1];
      ReadMembersJoin(pairs[1..], nodes[1..], r);
      JoinStart(entries[1..], ",");
      MemberNext(key, text, nodes[0], tail + "}" + r, Members(pairs[1..], nodes[1..]), r);
      assert entries[0] == EntryText(key, text);
      Regroup(EntryText(key, text), ",", tail, "}", r);
      assert [Member(key, nodes[0])] + Members(pairs[1..], nodes[1..]) == Members(pairs, nodes);
    }
  }

  lemma ReadObjectAt(pairs: seq<(string, string)>, nodes: seq<Node>, r: string)
    requires |pairs| == |nodes|
    requires forall i :: 0 <= i < |pairs| ==> Reads(pairs[i].1, nodes[i])
    ensures ReadNode(ObjectText(pairs) + r) == Some((JObject(Members(pairs, nodes)), r))
  {
    var body := Join(EntryTexts(pairs), ",") + "}" + r;
    assert ObjectText(pairs) + r == "{" + body;
    assert ("{" + body)[1..] == body;
    if |pairs| == 0 {
      assert body == "}" + r;
      assert body[1..] == r;
    } else {
      JoinStart(EntryTexts(pairs), ",");
      ReadMembersJoin(pairs, nodes, r);
    }
  }

  /** An object of members whose values read back reads back as those members, in order. */
  lemma ReadsObject(pairs: seq<(string, string)>, nodes: seq<Node>)
    requires |pairs| == |nodes|
    requires forall i :: 0 <= i < |pairs| ==> Reads(pairs[i].1, nodes[i])
    ensures Reads(ObjectText(pairs), JObject(Members(pairs, nodes)))
  {
    forall r | Follows(r)
      ensures ReadNode(ObjectText(pairs) + r) == Some((JObject(Members(pairs, nodes)), r))
    {
      ReadObjectAt(pairs, nodes, r);
    }
  }
}
