/**
 * The tab-file parser (teleprompter/src/parser/tab-parser.ts): a tab file's
 * title defaults to its file name without a `.txt`/`.tab` extension and with
 * dashes and underscores as spaces; the first fifteen lines may override
 * title, artist, tuning and tempo with `Key: value` header lines, a later
 * header overriding an earlier one. The regular expressions are modelled by
 * the functions below; the file's id and creation time are parameters.
 */
module TabParser {
  import opened Wrappers
  import opened Text
  import Decimal
  import Fragmenter
  import Store

  /** Only this many leading lines are examined for headers. */
  const HeaderLines := 15
  const DefaultArtist := "Unknown"
  const DefaultTuning := "Standard"

  const TitleKeys := ["Title", "Song", "Name"]
  const ArtistKeys := ["Artist", "By", "Band"]
  const TuningKeys := ["Tuning"]
  const BpmKeys := ["BPM", "Tempo"]

  /** ASCII letters to lower case; every other character unchanged. */
  function LowerAscii(c: char): char {
    if 'A' <= c <= 'Z' then (c as int + 32) as char else c
  }

  /**
   * `s` starts with `key`, compared as the `i` flag compares a key of ASCII
   * letters: a character matches a letter of either case and nothing else.
   */
  predicate StartsWithKey(s: string, key: string) {
    |key| <= |s| && forall i :: 0 <= i < |key| ==> LowerAscii(s[i]) == LowerAscii(key[i])
  }

  /** `\s*:` after a key: optional white space, then a colon; gives what follows the colon. */
  function AfterColon(s: string): (r: Option<string>)
    ensures r.Some? <==> LeadingWhitespace(s) < |s| && s[LeadingWhitespace(s)] == ':'
    ensures r.Some? ==> |r.value| < |s| && r.value == s[|s| - |r.value|..]
  {
    var w := LeadingWhitespace(s);
    if w < |s| && s[w] == ':' then Some(s[w + 1..]) else None
  }

  /** How many characters precede the first line terminator: how far `.+` reaches. */
  function LineLength(s: string): (n: nat)
    ensures n <= |s|
    ensures forall i :: 0 <= i < n ==> !IsLineTerminator(s[i])
    ensures n < |s| ==> IsLineTerminator(s[n])
  {
    if |s| == 0 || IsLineTerminator(s[0]) then 0 else 1 + LineLength(s[1..])
  }

  /**
   * `\s*(.+)`: the capture starts at the first character that is not white
   * space and runs to the end of the line. On text that does not end in
   * white space (every suffix of a trimmed line) the capture exists exactly
   * when the text is not empty, so no backtracking into the white space is
   * ever needed.
   */
  function TextCapture(s: string): (r: Option<string>)
    ensures r.Some? ==> |r.value| >= 1 && !IsJsWhitespace(r.value[0])
    ensures r.Some? ==> forall i :: 0 <= i < |r.value| ==> !IsLineTerminator(r.value[i])
    ensures |s| > 0 && !IsJsWhitespace(s[|s| - 1]) ==> r.Some?
  {
    var w := LeadingWhitespace(s);
    if w == |s| then None
    else
      var rest := s[w..];
      Some(rest[..LineLength(rest)])
  }

  /** `\s*(\d+)`: the digits that follow optional white space, at least one. */
  function DigitsCapture(s: string): (r: Option<string>)
    ensures r.Some? ==> |r.value| >= 1 && Decimal.AllDigits(r.value)
    ensures r.Some? <==> LeadingWhitespace(s) < |s| && Decimal.IsDigit(s[LeadingWhitespace(s)])
  {
    var rest := s[LeadingWhitespace(s)..];
    var n := Decimal.DigitRun(rest);
    if n == 0 then None else Some(rest[..n])
  }

  /** One alternative of a header pattern: the key, `\s*:`, then the value capture. */
  function MatchKey(s: string, key: string, digits: bool): (r: Option<string>)
    ensures r.Some? ==> StartsWithKey(s, key)
    ensures r.Some? && digits ==> |r.value| >= 1 && Decimal.AllDigits(r.value)
    ensures r.Some? && !digits ==> |r.value| >= 1 && !IsJsWhitespace(r.value[0])
  {
    if !StartsWithKey(s, key) then None
    else match AfterColon(s[|key|..])
      case None => None
      case Some(rest) => if digits then DigitsCapture(rest) else TextCapture(rest)
  }

  /**
   * `^(k1|k2|...)\s*:\s*(...)`: the capture of the first alternative that
   * matches, or none when no alternative does.
   */
  function MatchHeader(s: string, keys: seq<string>, digits: bool): (r: Option<string>)
    ensures r.None? <==> forall k :: k in keys ==> MatchKey(s, k, digits).None?
    ensures r.Some? && digits ==> |r.value| >= 1 && Decimal.AllDigits(r.value)
    ensures r.Some? && !digits ==> |r.value| >= 1 && !IsJsWhitespace(r.value[0])
  {
    if |keys| == 0 then None
    else
      var m := MatchKey(s, keys[0], digits);
      if m.Some? then m
      else
        var r := MatchHeader(s, keys[1..], digits);
        assert forall k :: k in keys ==> k == keys[0] || k in keys[1..];
        r
  }

  /** What one line declares: at most one field, tested in the order title, artist, tuning, tempo. */
  datatype Header = Title(title: string) | Artist(artist: string) | Tuning(tuning: string) | Bpm(bpm: nat) | NoHeader

  /**
   * The header a line declares, tried on the trimmed line. A text value is
   * the capture, trimmed, and is never blank; a tempo is the decimal value of
   * its digits.
   */
  function Classify(line: string): (h: Header)
    ensures h.Title? ==> h.title != "" && !IsJsWhitespace(h.title[0])
    ensures h.Artist? ==> h.artist != "" && !IsJsWhitespace(h.artist[0])
    ensures h.Tuning? ==> h.tuning != "" && !IsJsWhitespace(h.tuning[0])
  {
    var t := Trim(line);
    var title := MatchHeader(t, TitleKeys, false);
    var artist := MatchHeader(t, ArtistKeys, false);
    var tuning := MatchHeader(t, TuningKeys, false);
    var bpm := MatchHeader(t, BpmKeys, true);
    if title.Some? then Title(TrimNonBlank(title.value))
    else if artist.Some? then Artist(TrimNonBlank(artist.value))
    else if tuning.Some? then Tuning(TrimNonBlank(tuning.value))
    else if bpm.Some? then Bpm(Decimal.Value(bpm.value))
    else NoHeader
  }

  /** Trimming text that starts with a non-white-space character leaves it non-blank. */
  function TrimNonBlank(s: string): (r: string)
    requires |s| >= 1 && !IsJsWhitespace(s[0])
    ensures r == Trim(s) && r != "" && !IsJsWhitespace(r[0])
  {
    Trim(s)
  }

  /** The four fields a tab file's text and name determine. */
  datatype Meta = Meta(title: string, artist: string, tuning: string, bpm: Option<nat>)

  /** `filename.replace(/\.(txt|tab)$/i, '')`: one `.txt` or `.tab` at the very end, any case, is removed. */
  function StripExtension(name: string): (r: string)
    ensures r == name || (|name| >= 4 && r == name[..|name| - 4])
    ensures r != name <==>
      |name| >= 4 && name[|name| - 4] == '.' &&
      (StartsWithKey(name[|name| - 3..], "txt") || StartsWithKey(name[|name| - 3..], "tab"))
  {
    if |name| >= 4 && name[|name| - 4] == '.' &&
       (StartsWithKey(name[|name| - 3..], "txt") || StartsWithKey(name[|name| - 3..], "tab"))
    then name[..|name| - 4]
    else name
  }

  /** `.replace(/[-_]/g, ' ')`: every dash and underscore becomes a space. */
  function DashesToSpaces(s: string): (r: string)
    ensures |r| == |s|
    ensures forall i :: 0 <= i < |s| ==> r[i] == if s[i] == '-' || s[i] == '_' then ' ' else s[i]
    ensures '-' !in r && '_' !in r
  {
    if |s| == 0 then ""
    else [if s[0] == '-' || s[0] == '_' then ' ' else s[0]] + DashesToSpaces(s[1..])
  }

  /** The title a file has when none of its first lines declares one. */
  function DefaultTitle(filename: string): (r: string)
    ensures '-' !in r && '_' !in r
    ensures |r| == |filename| || |r| == |filename| - 4
  {
    DashesToSpaces(StripExtension(filename))
  }

  function Defaults(filename: string): Meta {
    Meta(DefaultTitle(filename), DefaultArtist, DefaultTuning, None)
  }

  /** The fields of `Meta`, to state facts about all four at once. */
  datatype Field = TitleField | ArtistField | TuningField | BpmField
  datatype FieldValue = Text(text: string) | Tempo(tempo: Option<nat>)

  function Get(m: Meta, f: Field): FieldValue {
    match f
      case TitleField => Text(m.title)
      case ArtistField => Text(m.artist)
      case TuningField => Text(m.tuning)
      case BpmField => Tempo(m.bpm)
  }

  /** The field a header sets, if any. */
  predicate Sets(h: Header, f: Field) {
    match f
      case TitleField => h.Title?
      case ArtistField => h.Artist?
      case TuningField => h.Tuning?
      case BpmField => h.Bpm?
  }

  /** The value a header assigns to the field it sets. */
  function Assigned(h: Header): FieldValue
    requires !h.NoHeader?
  {
    match h
      case Title(t) => Text(t)
      case Artist(a) => Text(a)
      case Tuning(t) => Text(t)
      case Bpm(n) => Tempo(Some(n))
  }

  /** A header line assigns its own field and leaves the other three alone. */
  function Apply(m: Meta, h: Header): (r: Meta)
    ensures forall f :: Get(r, f) == if Sets(h, f) then Assigned(h) else Get(m, f)
  {
    match h
      case Title(t) => m.(title := t)
      case Artist(a) => m.(artist := a)
      case Tuning(t) => m.(tuning := t)
      case Bpm(n) => m.(bpm := Some(n))
      case NoHeader => m
  }

  /** The header of each line, in order. */
  function Headers(lines: seq<string>): seq<Header> {
    seq(|lines|, i requires 0 <= i < |lines| => Classify(lines[i]))
  }

  /** The fields after applying the headers `hs` in order, starting from `m`. */
  function Fold(m: Meta, hs: seq<Header>): Meta {
    if |hs| == 0 then m else Apply(Fold(m, hs[..|hs| - 1]), hs[|hs| - 1])
  }

  /** `lines.slice(0, 15)` of the text's lines. */
  function HeaderLinesOf(content: string): (head: seq<string>)
    ensures |head| == Fragmenter.Min(HeaderLines, |Split(content)|)
    ensures head == Split(content)[..|head|]
  {
    var lines := Split(content);
    lines[..Fragmenter.Min(HeaderLines, |lines|)]
  }

  /** The fields `parseTabFile` computes for a text and a file name. */
  function Metadata(content: string, filename: string): Meta {
    Fold(Defaults(filename), Headers(HeaderLinesOf(content)))
  }

  function ToTabFile(m: Meta, id: string, content: string, createdAt: int): Store.TabFile {
    Store.TabFile(id, m.title, m.artist, m.tuning,
                  match m.bpm case None => None case Some(n) => Some(n),
                  content, createdAt)
  }

  /**
   * `parseTabFile`: the defaults, then a loop over the first fifteen lines in
   * which the first pattern a trimmed line matches assigns its field. The
   * file keeps its text unchanged.
   */
  method ParseTabFile(content: string, filename: string, id: string, createdAt: int) returns (file: Store.TabFile)
    ensures file == ToTabFile(Metadata(content, filename), id, content, createdAt)
  {
    var lines := Split(content);
    var title := DefaultTitle(filename);
    var artist := DefaultArtist;
    var tuning := DefaultTuning;
    var bpm: Option<nat> := None;
    var head := lines[..Fragmenter.Min(HeaderLines, |lines|)];
    ghost var headers := Headers(head);
    for k := 0 to |head|
      invariant Meta(title, artist, tuning, bpm) == Fold(Defaults(filename), headers[..k])
    {
      FoldStep(Defaults(filename), headers, k);
      assert headers[k] == Classify(head[k]);
      var trimmed := Trim(head[k]);
      var titleMatch := MatchHeader(trimmed, TitleKeys, false);
      if titleMatch.Some? {
        title := Trim(titleMatch.value);
        assert Classify(head[k]) == Title(title);
        continue;
      }
      var artistMatch := MatchHeader(trimmed, ArtistKeys, false);
      if artistMatch.Some? {
        artist := Trim(artistMatch.value);
        assert Classify(head[k]) == Artist(artist);
        continue;
      }
      var tuningMatch := MatchHeader(trimmed, TuningKeys, false);
      if tuningMatch.Some? {
        tuning := Trim(tuningMatch.value);
        assert Classify(head[k]) == Tuning(tuning);
        continue;
      }
      var bpmMatch := MatchHeader(trimmed, BpmKeys, true);
      if bpmMatch.Some? {
        bpm := Some(Decimal.Value(bpmMatch.value));
        assert Classify(head[k]) == Bpm(bpm.value);
      } else {
        assert Classify(head[k]) == NoHeader;
      }
    }
    assert headers[..|head|] == headers;
    file := Store.TabFile(id, title, artist, tuning,
                          match bpm case None => None case Some(n) => Some(n),
                          content, createdAt);
  }

  /** One more header is applied to the fields so far. */
  lemma FoldStep(m: Meta, hs: seq<Header>, k: nat)
    requires k < |hs|
    ensures Fold(m, hs[..k + 1]) == Apply(Fold(m, hs[..k]), hs[k])
  {
    assert hs[..k + 1][..k] == hs[..k];
  }

  /** Applying two runs of headers is applying the first, then the second from where it left off. */
  lemma {:induction false} FoldAppend(m: Meta, a: seq<Header>, b: seq<Header>)
    ensures Fold(m, a + b) == Fold(Fold(m, a), b)
    decreases |b|
  {
    if |b| > 0 {
      var ab := a + b;
      assert ab[..|ab| - 1] == a + b[..|b| - 1];
      assert ab[|ab| - 1] == b[|b| - 1];
      FoldAppend(m, a, b[..|b| - 1]);
    } else {
      assert a + b == a;
    }
  }

  /** A field no header sets keeps the value it started with. */
  lemma {:induction false} FoldUntouched(m: Meta, hs: seq<Header>, f: Field)
    requires forall j :: 0 <= j < |hs| ==> !Sets(hs[j], f)
    ensures Get(Fold(m, hs), f) == Get(m, f)
    decreases |hs|
  {
    if |hs| > 0 {
      var init := hs[..|hs| - 1];
      assert forall j :: 0 <= j < |init| ==> init[j] == hs[j];
      FoldUntouched(m, init, f);
    }
  }

  /** The last header that sets a field decides its value. */
  lemma {:induction false} FoldLastWins(m: Meta, hs: seq<Header>, f: Field, i: nat)
    requires i < |hs| && Sets(hs[i], f)
    requires forall j :: i < j < |hs| ==> !Sets(hs[j], f)
    ensures Get(Fold(m, hs), f) == Assigned(hs[i])
  {
    var front := hs[..i + 1];
    var back := hs[i + 1..];
    assert hs == front + back;
    FoldAppend(m, front, back);
    assert front[..i] == hs[..i];
    assert forall j :: 0 <= j < |back| ==> back[j] == hs[i + 1 + j];
    FoldUntouched(Fold(m, front), back, f);
  }

  /**
   * Later headers override earlier ones: a field takes the value of the last
   * of the first fifteen lines that sets it.
   */
  lemma LastHeaderWins(content: string, filename: string, f: Field, i: nat)
    requires i < |HeaderLinesOf(content)| && Sets(Classify(HeaderLinesOf(content)[i]), f)
    requires forall j :: i < j < |HeaderLinesOf(content)| ==> !Sets(Classify(HeaderLinesOf(content)[j]), f)
    ensures Get(Metadata(content, filename), f) == Assigned(Classify(HeaderLinesOf(content)[i]))
  {
    FoldLastWins(Defaults(filename), Headers(HeaderLinesOf(content)), f, i);
  }

  /** A field none of the first fifteen lines sets keeps its default. */
  lemma FieldDefault(content: string, filename: string, f: Field)
    requires forall j :: 0 <= j < |HeaderLinesOf(content)| ==> !Sets(Classify(HeaderLinesOf(content)[j]), f)
    ensures Get(Metadata(content, filename), f) == Get(Defaults(filename), f)
  {
    FoldUntouched(Defaults(filename), Headers(HeaderLinesOf(content)), f);
  }

  /** Whatever follows the fifteenth line cannot change the fields. */
  lemma LaterLinesIgnored(a: string, b: string, filename: string)
    requires |Split(a)| >= HeaderLines
    ensures Metadata(a + "\n" + b, filename) == Metadata(a, filename)
  {
    var whole := a + "\n" + b;
    SplitAppend(a, b);
    var hw := HeaderLinesOf(whole);
    var ha := HeaderLinesOf(a);
    assert |hw| == HeaderLines == |ha|;
    assert forall i :: 0 <= i < HeaderLines ==> hw[i] == Split(whole)[i] == Split(a)[i] == ha[i];
    assert hw == ha;
  }

  // ---------------------------------------------------------------------------
  // What a header line declares
  //
  // A header line is `lead`, a key spelled in any case, `gap`, a colon, `pad`,
  // the value and `trail`, where `lead`, `gap`, `pad` and `trail` are white
  // space and the value starts and ends with non-white-space. Every line whose
  // trimmed text matches one of the four patterns has this shape.

  /** Every key of the four header patterns. */
  const AllKeys := TitleKeys + ArtistKeys + TuningKeys + BpmKeys

  predicate AllWhitespace(s: string) {
    forall i :: 0 <= i < |s| ==> IsJsWhitespace(s[i])
  }

  /** `spelled` is `key` written in any mix of upper and lower case. */
  predicate SpelledAs(spelled: string, key: string) {
    |spelled| == |key| && StartsWithKey(spelled, key)
  }

  /** Text that starts and ends with a character that is not white space. */
  predicate Framed(value: string) {
    |value| >= 1 && !IsJsWhitespace(value[0]) && !IsJsWhitespace(value[|value| - 1])
  }

  /** The trimmed text of a header line. */
  function KeyCore(spelled: string, gap: string, pad: string, value: string): string {
    spelled + (gap + (":" + (pad + value)))
  }

  /** A header line. */
  function KeyLine(lead: string, spelled: string, gap: string, pad: string, value: string, trail: string): string {
    lead + (KeyCore(spelled, gap, pad, value) + trail)
  }

  /** The pieces of a header line for `key` have the shapes described above. */
  predicate KeyLineParts(lead: string, spelled: string, gap: string, pad: string, value: string, trail: string, key: string) {
    key in AllKeys && SpelledAs(spelled, key) && AllWhitespace(lead) && AllWhitespace(gap) &&
    AllWhitespace(pad) && Framed(value) && AllWhitespace(trail)
  }

  /** What `(.+)` then `.trim()` make of a value: its first line, trimmed. */
  function TextValue(value: string): (r: string)
    requires Framed(value)
    ensures r != "" && !IsJsWhitespace(r[0])
    ensures (forall i :: 0 <= i < |value| ==> !IsLineTerminator(value[i])) ==> r == value
  {
    var first := value[..LineLength(value)];
    assert first[0] == value[0];
    if LineLength(value) == |value| then
      assert first == value;
      TrimTrimmed(value);
      TrimNonBlank(first)
    else
      TrimNonBlank(first)
  }

  /** White space in front of text that starts with non-white-space is all `LeadingWhitespace` skips. */
  lemma {:induction false} LeadingWhitespaceOf(w: string, s: string)
    requires AllWhitespace(w) && |s| >= 1 && !IsJsWhitespace(s[0])
    ensures LeadingWhitespace(w + s) == |w|
    decreases |w|
  {
    if |w| == 0 {
      assert w + s == s;
    } else {
      assert (w + s)[1..] == w[1..] + s;
      LeadingWhitespaceOf(w[1..], s);
    }
  }

  /** White space after text that ends with non-white-space is all `TrailingWhitespace` counts. */
  lemma {:induction false} TrailingWhitespaceOf(s: string, w: string)
    requires AllWhitespace(w) && |s| >= 1 && !IsJsWhitespace(s[|s| - 1])
    ensures TrailingWhitespace(s + w) == |w|
    decreases |w|
  {
    if |w| == 0 {
      assert s + w == s;
    } else {
      assert (s + w)[..|s + w| - 1] == s + w[..|w| - 1];
      TrailingWhitespaceOf(s, w[..|w| - 1]);
    }
  }

  /** Text that neither starts nor ends with white space is its own trim. */
  lemma TrimTrimmed(s: string)
    requires Framed(s)
    ensures Trim(s) == s
  {
    assert LeadingWhitespace(s) == 0;
    assert s[0..] == s;
    assert TrailingWhitespace(s) == 0;
  }

  /** `trim()` removes exactly the white space around framed text. */
  lemma TrimAround(lead: string, core: string, trail: string)
    requires AllWhitespace(lead) && Framed(core) && AllWhitespace(trail)
    ensures Trim(lead + (core + trail)) == core
  {
    var x := lead + (core + trail);
    assert (core + trail)[0] == core[0];
    LeadingWhitespaceOf(lead, core + trail);
    assert x[|lead|..] == core + trail;
    TrailingWhitespaceOf(core, trail);
  }

  /** The last element of a concatenation with a non-empty right side is that side's last. */
  lemma LastOfAppend(a: string, b: string)
    requires |b| >= 1
    ensures (a + b)[|a + b| - 1] == b[|b| - 1]
  {
  }

  /** A key spelled in any case starts with a letter, so not with white space. */
  lemma SpelledStart(spelled: string, key: string)
    requires key in AllKeys && SpelledAs(spelled, key)
    ensures !IsJsWhitespace(spelled[0])
  {
    assert 'a' <= LowerAscii(key[0]) <= 'z';
    assert LowerAscii(spelled[0]) == LowerAscii(key[0]);
  }

  /** The trimmed text of a header line is its core, which starts with the key. */
  lemma KeyLineTrim(lead: string, spelled: string, gap: string, pad: string, value: string, trail: string, key: string)
    requires KeyLineParts(lead, spelled, gap, pad, value, trail, key)
    ensures Trim(KeyLine(lead, spelled, gap, pad, value, trail)) == KeyCore(spelled, gap, pad, value)
    ensures StartsWithKey(KeyCore(spelled, gap, pad, value), key)
  {
    var core := KeyCore(spelled, gap, pad, value);
    SpelledStart(spelled, key);
    assert core[0] == spelled[0];
    LastOfAppend(pad, value);
    LastOfAppend(":", pad + value);
    LastOfAppend(gap, ":" + (pad + value));
    LastOfAppend(spelled, gap + (":" + (pad + value)));
    TrimAround(lead, core, trail);
    assert forall i :: 0 <= i < |key| ==> core[i] == spelled[i];
  }

  /** After a key spelled in any case come white space and a colon; what follows the colon is the rest. */
  lemma KeyThenColon(spelled: string, key: string, gap: string, rest: string)
    requires SpelledAs(spelled, key) && AllWhitespace(gap)
    ensures StartsWithKey(spelled + (gap + (":" + rest)), key)
    ensures AfterColon((spelled + (gap + (":" + rest)))[|key|..]) == Some(rest)
  {
    var core := spelled + (gap + (":" + rest));
    var afterKey := gap + (":" + rest);
    assert forall i :: 0 <= i < |key| ==> core[i] == spelled[i];
    assert core[|key|..] == afterKey;
    LeadingWhitespaceOf(gap, ":" + rest);
    assert afterKey[|gap|..] == ":" + rest;
    assert afterKey[|gap|..][1..] == rest;
  }

  /** White space before a value that starts with non-white-space does not change either capture. */
  lemma CaptureAfterPad(pad: string, value: string)
    requires AllWhitespace(pad) && |value| >= 1 && !IsJsWhitespace(value[0])
    ensures TextCapture(pad + value) == Some(value[..LineLength(value)])
    ensures DigitsCapture(pad + value) == DigitsCapture(value)
  {
    LeadingWhitespaceOf(pad, value);
    assert (pad + value)[|pad|..] == value;
    assert LeadingWhitespace(value) == 0;
    assert value[0..] == value;
  }

  /**
   * The "if" direction of one alternative: a key in any case, white space, a
   * colon, white space and a value that starts with non-white-space match,
   * capturing the value's first line, or the digits the value starts with.
   */
  lemma MatchKeySpelled(spelled: string, key: string, gap: string, pad: string, value: string, digits: bool)
    requires SpelledAs(spelled, key) && AllWhitespace(gap) && AllWhitespace(pad)
    requires |value| >= 1 && !IsJsWhitespace(value[0])
    ensures MatchKey(KeyCore(spelled, gap, pad, value), key, digits) ==
            if digits then DigitsCapture(value) else Some(value[..LineLength(value)])
  {
    KeyThenColon(spelled, key, gap, pad + value);
    CaptureAfterPad(pad, value);
  }

  /** The keys of all four patterns differ in their first two letters, whatever the case. */
  lemma OnlyKey(t: string, key: string)
    requires key in AllKeys && StartsWithKey(t, key)
    ensures forall k :: k in AllKeys && k != key ==> !StartsWithKey(t, k)
  {
    var c0, c1 := LowerAscii(t[0]), LowerAscii(t[1]);
    assert c0 == LowerAscii(key[0]) && c1 == LowerAscii(key[1]);
    forall k | k in AllKeys && k != key
      ensures !StartsWithKey(t, k)
    {
      assert LowerAscii(k[0]) != c0 || LowerAscii(k[1]) != c1;
    }
  }

  /** When only `key` of a pattern's keys can start the line, the pattern matches as that alternative does. */
  lemma {:induction false} MatchHeaderOnly(t: string, keys: seq<string>, key: string, digits: bool)
    requires forall k :: k in keys && k != key ==> !StartsWithKey(t, k)
    ensures MatchHeader(t, keys, digits) == if key in keys then MatchKey(t, key, digits) else None
    decreases |keys|
  {
    if |keys| > 0 {
      assert forall k :: k in keys[1..] ==> k in keys;
      MatchHeaderOnly(t, keys[1..], key, digits);
      if keys[0] != key {
        assert key in keys <==> key in keys[1..];
      } else if key !in keys[1..] {
        assert MatchHeader(t, keys[1..], digits).None?;
      }
    }
  }

  /** The title, artist and tuning patterns on the trimmed text of a header line capture its value's first line. */
  lemma KeyLineText(lead: string, spelled: string, gap: string, pad: string, value: string, trail: string, key: string)
    requires KeyLineParts(lead, spelled, gap, pad, value, trail, key)
    ensures var t := Trim(KeyLine(lead, spelled, gap, pad, value, trail));
            && StartsWithKey(t, key)
            && MatchKey(t, key, false) == Some(value[..LineLength(value)])
            && MatchKey(t, key, true) == DigitsCapture(value)
  {
    KeyLineTrim(lead, spelled, gap, pad, value, trail, key);
    MatchKeySpelled(spelled, key, gap, pad, value, false);
    MatchKeySpelled(spelled, key, gap, pad, value, true);
  }

  /** The facts about a line's trimmed text that decide its header, for a line that starts with `key`. */
  predicate KeyMatches(line: string, value: string, key: string) {
    key in AllKeys && Framed(value) &&
    StartsWithKey(Trim(line), key) &&
    MatchKey(Trim(line), key, false) == Some(value[..LineLength(value)]) &&
    MatchKey(Trim(line), key, true) == DigitsCapture(value)
  }

  /** The first two characters of `t`, in lower case: they tell all the keys apart. */
  function Lead(t: string): (char, char)
    requires |t| >= 2
  {
    (LowerAscii(t[0]), LowerAscii(t[1]))
  }

  /** A line that starts with a key has that key's lead. */
  lemma LeadOfKey(t: string, key: string)
    requires key in AllKeys && StartsWithKey(t, key)
    ensures |t| >= 2 && Lead(t) == Lead(key)
  {
    assert LowerAscii(t[0]) == LowerAscii(key[0]) && LowerAscii(t[1]) == LowerAscii(key[1]);
  }

  /** A line whose lead is not that of `Title`, `Song` or `Name` does not match the title pattern. */
  lemma TitleFails(t: string)
    requires |t| >= 2 && Lead(t) != ('t', 'i') && Lead(t) != ('s', 'o') && Lead(t) != ('n', 'a')
    ensures MatchHeader(t, TitleKeys, false).None?
  {
    assert TitleKeys[1..] == ["Song", "Name"] && TitleKeys[1..][1..] == ["Name"];
    assert !StartsWithKey(t, "Title") && !StartsWithKey(t, "Song") && !StartsWithKey(t, "Name");
  }

  /** A line whose lead is not that of `Artist`, `By` or `Band` does not match the artist pattern. */
  lemma ArtistFails(t: string)
    requires |t| >= 2 && Lead(t) != ('a', 'r') && Lead(t) != ('b', 'y') && Lead(t) != ('b', 'a')
    ensures MatchHeader(t, ArtistKeys, false).None?
  {
    assert ArtistKeys[1..] == ["By", "Band"] && ArtistKeys[1..][1..] == ["Band"];
    assert !StartsWithKey(t, "Artist") && !StartsWithKey(t, "By") && !StartsWithKey(t, "Band");
  }

  /** A line whose lead is not that of `Tuning` does not match the tuning pattern. */
  lemma TuningFails(t: string)
    requires |t| >= 2 && Lead(t) != ('t', 'u')
    ensures MatchHeader(t, TuningKeys, false).None?
  {
    assert TuningKeys[1..] == [];
    assert !StartsWithKey(t, "Tuning");
  }

  /** On a line that starts with a title key, the title pattern matches as that key's alternative. */
  lemma TitleKeyMatches(t: string, key: string)
    requires key in TitleKeys && StartsWithKey(t, key)
    ensures MatchHeader(t, TitleKeys, false) == MatchKey(t, key, false)
  {
    OnlyKey(t, key);
    MatchHeaderOnly(t, TitleKeys, key, false);
  }

  /** On a line that starts with an artist key, only the artist pattern's alternative for it can match. */
  lemma ArtistKeyMatches(t: string, key: string)
    requires key in ArtistKeys && StartsWithKey(t, key)
    ensures MatchHeader(t, TitleKeys, false).None?
    ensures MatchHeader(t, ArtistKeys, false) == MatchKey(t, key, false)
  {
    OnlyKey(t, key);
    LeadOfKey(t, key);
    assert Lead(key) == ('a', 'r') || Lead(key) == ('b', 'y') || Lead(key) == ('b', 'a');
    TitleFails(t);
    MatchHeaderOnly(t, ArtistKeys, key, false);
  }

  /** On a line that starts with `Tuning`, only the tuning pattern can match. */
  lemma TuningKeyMatches(t: string, key: string)
    requires key in TuningKeys && StartsWithKey(t, key)
    ensures MatchHeader(t, TitleKeys, false).None? && MatchHeader(t, ArtistKeys, false).None?
    ensures MatchHeader(t, TuningKeys, false) == MatchKey(t, key, false)
  {
    OnlyKey(t, key);
    LeadOfKey(t, key);
    assert Lead(key) == ('t', 'u');
    TitleFails(t);
    ArtistFails(t);
    MatchHeaderOnly(t, TuningKeys, key, false);
  }

  /** On a line that starts with a tempo key, only the tempo pattern's alternative for it can match. */
  lemma TempoKeyMatches(t: string, key: string)
    requires key in BpmKeys && StartsWithKey(t, key)
    ensures MatchHeader(t, TitleKeys, false).None? && MatchHeader(t, ArtistKeys, false).None?
    ensures MatchHeader(t, TuningKeys, false).None?
    ensures MatchHeader(t, BpmKeys, true) == MatchKey(t, key, true)
  {
    OnlyKey(t, key);
    LeadOfKey(t, key);
    assert Lead(key) == ('b', 'p') || Lead(key) == ('t', 'e');
    TitleFails(t);
    ArtistFails(t);
    TuningFails(t);
    MatchHeaderOnly(t, BpmKeys, key, true);
  }

  lemma ClassifyTitle(line: string, value: string, key: string)
    requires key in TitleKeys && KeyMatches(line, value, key)
    ensures Classify(line) == Title(TextValue(value))
  {
    TitleKeyMatches(Trim(line), key);
  }

  lemma ClassifyArtist(line: string, value: string, key: string)
    requires key in ArtistKeys && KeyMatches(line, value, key)
    ensures Classify(line) == Artist(TextValue(value))
  {
    ArtistKeyMatches(Trim(line), key);
  }

  lemma ClassifyTuning(line: string, value: string, key: string)
    requires key in TuningKeys && KeyMatches(line, value, key)
    ensures Classify(line) == Tuning(TextValue(value))
  {
    TuningKeyMatches(Trim(line), key);
  }

  lemma ClassifyTempo(line: string, value: string, key: string)
    requires key in BpmKeys && KeyMatches(line, value, key)
    ensures Classify(line) == match DigitsCapture(value) case Some(d) => Bpm(Decimal.Value(d)) case None => NoHeader
  {
    TempoKeyMatches(Trim(line), key);
  }

  /** A `Title:`, `Song:` or `Name:` line, in any case and spacing, sets the title to its value's first line, trimmed. */
  lemma TitleLine(lead: string, spelled: string, gap: string, pad: string, value: string, trail: string, key: string)
    requires key in TitleKeys && KeyLineParts(lead, spelled, gap, pad, value, trail, key)
    ensures Classify(KeyLine(lead, spelled, gap, pad, value, trail)) == Title(TextValue(value))
  {
    KeyLineText(lead, spelled, gap, pad, value, trail, key);
    ClassifyTitle(KeyLine(lead, spelled, gap, pad, value, trail), value, key);
  }

  /** An `Artist:`, `By:` or `Band:` line, in any case and spacing, sets the artist to its value's first line, trimmed. */
  lemma ArtistLine(lead: string, spelled: string, gap: string, pad: string, value: string, trail: string, key: string)
    requires key in ArtistKeys && KeyLineParts(lead, spelled, gap, pad, value, trail, key)
    ensures Classify(KeyLine(lead, spelled, gap, pad, value, trail)) == Artist(TextValue(value))
  {
    KeyLineText(lead, spelled, gap, pad, value, trail, key);
    ClassifyArtist(KeyLine(lead, spelled, gap, pad, value, trail), value, key);
  }

  /** A `Tuning:` line, in any case and spacing, sets the tuning to its value's first line, trimmed. */
  lemma TuningLine(lead: string, spelled: string, gap: string, pad: string, value: string, trail: string, key: string)
    requires key in TuningKeys && KeyLineParts(lead, spelled, gap, pad, value, trail, key)
    ensures Classify(KeyLine(lead, spelled, gap, pad, value, trail)) == Tuning(TextValue(value))
  {
    KeyLineText(lead, spelled, gap, pad, value, trail, key);
    ClassifyTuning(KeyLine(lead, spelled, gap, pad, value, trail), value, key);
  }

  /**
   * A `BPM:` or `Tempo:` line, in any case and spacing, declares the tempo
   * its value starts with, or nothing when the value does not start with a
   * digit.
   */
  lemma TempoLine(lead: string, spelled: string, gap: string, pad: string, value: string, trail: string, key: string)
    requires key in BpmKeys && KeyLineParts(lead, spelled, gap, pad, value, trail, key)
    ensures Classify(KeyLine(lead, spelled, gap, pad, value, trail)) ==
            match DigitsCapture(value) case Some(d) => Bpm(Decimal.Value(d)) case None => NoHeader
  {
    KeyLineText(lead, spelled, gap, pad, value, trail, key);
    ClassifyTempo(KeyLine(lead, spelled, gap, pad, value, trail), value, key);
  }

  /** A pattern matches only a line that starts with one of its keys. */
  lemma MatchHeaderKey(t: string, keys: seq<string>, digits: bool)
    ensures MatchHeader(t, keys, digits).Some? ==> exists k :: k in keys && StartsWithKey(t, k)
  {
    if MatchHeader(t, keys, digits).Some? {
      var k :| k in keys && MatchKey(t, k, digits).Some?;
    }
  }

  /** The converse of the four lemmas above: a line declares a field only if its trimmed text starts with a key of that field. */
  lemma HeaderNeedsKey(line: string)
    ensures var h := Classify(line);
            && (h.Title? ==> exists k :: k in TitleKeys && StartsWithKey(Trim(line), k))
            && (h.Artist? ==> exists k :: k in ArtistKeys && StartsWithKey(Trim(line), k))
            && (h.Tuning? ==> StartsWithKey(Trim(line), "Tuning"))
            && (h.Bpm? ==> exists k :: k in BpmKeys && StartsWithKey(Trim(line), k))
  {
    var t := Trim(line);
    MatchHeaderKey(t, TitleKeys, false);
    MatchHeaderKey(t, ArtistKeys, false);
    MatchHeaderKey(t, TuningKeys, false);
    MatchHeaderKey(t, BpmKeys, true);
  }

  /** `\s*(\d+)` on a digit run followed by a non-digit captures the run. */
  lemma DigitsOfRun(digits: string, rest: string)
    requires |digits| >= 1 && Decimal.AllDigits(digits)
    requires |rest| == 0 || !Decimal.IsDigit(rest[0])
    ensures DigitsCapture(digits + rest) == Some(digits)
  {
    var value := digits + rest;
    assert value[0] == digits[0];
    assert LeadingWhitespace(value) == 0;
    assert value[0..] == value;
    Decimal.DigitRunPrefix(digits, rest);
    assert value[..|digits|] == digits;
  }

  /** A tempo value is the decimal value of its leading digits, whatever text follows them. */
  lemma TempoHeader(lead: string, spelled: string, gap: string, pad: string, digits: string, rest: string, trail: string, key: string)
    requires key in BpmKeys && KeyLineParts(lead, spelled, gap, pad, digits + rest, trail, key)
    requires |digits| >= 1 && Decimal.AllDigits(digits)
    requires |rest| == 0 || !Decimal.IsDigit(rest[0])
    ensures Classify(KeyLine(lead, spelled, gap, pad, digits + rest, trail)) == Bpm(Decimal.Value(digits))
  {
    DigitsOfRun(digits, rest);
    TempoLine(lead, spelled, gap, pad, digits + rest, trail, key);
  }

  /** A tempo value that does not start with a digit declares nothing, so the tempo is left as it was. */
  lemma TempoNotNumber(lead: string, spelled: string, gap: string, pad: string, value: string, trail: string, key: string)
    requires key in BpmKeys && KeyLineParts(lead, spelled, gap, pad, value, trail, key)
    requires !Decimal.IsDigit(value[0])
    ensures Classify(KeyLine(lead, spelled, gap, pad, value, trail)) == NoHeader
  {
    TempoLine(lead, spelled, gap, pad, value, trail, key);
  }
}
