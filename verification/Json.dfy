/**
  Serialized messages: JSON text as the server's encoder writes it, why no such text holds a raw
  newline (section 7 of RFC 8259: control characters inside strings must be escaped), and the
  client's reader, which gets back the value that was sent.
*/
module Json {
  import opened Framing

  datatype Value =
    | Null
    | Bool(b: bool)
    | Number(text: string)
    | Text(s: string)
    | Array(items: seq<Value>)
    | Object(members: seq<Member>)

  datatype Member = Member(name: string, value: Value)

  /** Numbers are written with digits, signs, a point and an exponent. */
  predicate NumberText(text: string) {
    text != "" && forall c :: c in text ==> NumberChar(c)
  }

  predicate NumberChar(c: char) {
    '0' <= c <= '9' || c in {'-', '+', '.', 'e', 'E'}
  }

  predicate WellFormed(v: Value)
    decreases v
  {
    match v
    case Number(text) => NumberText(text)
    case Array(items) => forall i :: 0 <= i < |items| ==> WellFormed(items[i])
    case Object(members) => forall i :: 0 <= i < |members| ==> WellFormed(members[i].value)
    case _ => true
  }

  function HexDigit(n: int): char
    requires 0 <= n < 16
  {
    "0123456789abcdef"[n]
  }

  /** \u and four hexadecimal digits. */
  function Unicode(code: int): string
    requires 0 <= code < 0x1_0000
  {
    ['\\', 'u', HexDigit(code / 4096), HexDigit(code / 256 % 16), HexDigit(code / 16 % 16), HexDigit(code % 16)]
  }

  /** Quotes, back slashes, control characters, the three characters that matter to HTML and the
      two line separators are escaped; everything else stands for itself. */
  function Escape(c: char): string {
    if c == '"' || c == '\\' then ['\\', c]
    else if c == '\U{08}' then "\\b"
    else if c == '\U{0c}' then "\\f"
    else if c == '\n' then "\\n"
    else if c == '\r' then "\\r"
    else if c == '\t' then "\\t"
    else if c < ' ' || c in {'<', '>', '&', '\U{2028}', '\U{2029}'} then Unicode(c as int)
    else [c]
  }

  function EscapeAll(s: string): string {
    if s == "" then "" else Escape(s[0]) + EscapeAll(s[1..])
  }

  function Quoted(s: string): string {
    "\"" + EscapeAll(s) + "\""
  }

  function Encode(v: Value): string
    decreases v
  {
    match v
    case Null => "null"
    case Bool(b) => if b then "true" else "false"
    case Number(text) => text
    case Text(s) => Quoted(s)
    case Array(items) => "[" + EncodeItems(items) + "]"
    case Object(members) => "{" + EncodeMembers(members) + "}"
  }

  function EncodeItems(items: seq<Value>): string
    decreases items
  {
    if items == [] then ""
    else Encode(items[0]) + (if |items| > 1 then "," else "") + EncodeItems(items[1..])
  }

  function EncodeMember(m: Member): string
    decreases m
  {
    Quoted(m.name) + ":" + Encode(m.value)
  }

  function EncodeMembers(members: seq<Member>): string
    decreases members
  {
    if members == [] then ""
    else EncodeMember(members[0]) + (if |members| > 1 then "," else "") + EncodeMembers(members[1..])
  }

  // ----- No control characters -----

  predicate NoControls(s: string) {
    forall i :: 0 <= i < |s| ==> s[i] >= ' '
  }

  lemma EscapeHasNoControls(c: char)
    ensures NoControls(Escape(c))
  {
  }

  lemma {:induction false} EscapedHasNoControls(s: string)
    ensures NoControls(EscapeAll(s))
  {
    if s != "" {
      EscapeHasNoControls(s[0]);
      EscapedHasNoControls(s[1..]);
    }
  }

  lemma QuotedHasNoControls(s: string)
    ensures NoControls(Quoted(s))
  {
    EscapedHasNoControls(s);
  }

  lemma {:induction false} EncodedHasNoControls(v: Value)
    requires WellFormed(v)
    ensures NoControls(Encode(v))
    decreases v
  {
    match v
    case Number(text) =>
      forall i | 0 <= i < |text| ensures text[i] >= ' ' {
        assert text[i] in text;
      }
    case Text(s) => QuotedHasNoControls(s);
    case Array(items) => ItemsHaveNoControls(items);
    case Object(members) => MembersHaveNoControls(members);
    case _ =>
  }

  lemma {:induction false} ItemsHaveNoControls(items: seq<Value>)
    requires forall i :: 0 <= i < |items| ==> WellFormed(items[i])
    ensures NoControls(EncodeItems(items))
    decreases items
  {
    if items != [] {
      EncodedHasNoControls(items[0]);
      ItemsHaveNoControls(items[1..]);
    }
  }

  lemma {:induction false} MembersHaveNoControls(members: seq<Member>)
    requires forall i :: 0 <= i < |members| ==> WellFormed(members[i].value)
    ensures NoControls(EncodeMembers(members))
    decreases members
  {
    if members != [] {
      QuotedHasNoControls(members[0].name);
      EncodedHasNoControls(members[0].value);
      MembersHaveNoControls(members[1..]);
    }
  }

  /** Whatever a value holds, its serialized form is a message that framing preserves. */
  lemma EncodedIsMessage(v: Value)
    requires WellFormed(v)
    ensures IsMessage(Encode(v))
  {
    EncodedHasNoControls(v);
    var m := Encode(v);
    if v.Number? {
      assert m[0] in v.text && m[|m| - 1] in v.text;
    }
  }

  function EncodeBatch(values: seq<Value>): seq<string> {
    seq(|values|, i requires 0 <= i < |values| => Encode(values[i]))
  }

  function EncodeGroup(group: seq<seq<Value>>): seq<seq<string>> {
    seq(|group|, i requires 0 <= i < |group| => EncodeBatch(group[i]))
  }

  function EncodeGroups(groups: seq<seq<seq<Value>>>): seq<seq<seq<string>>> {
    seq(|groups|, i requires 0 <= i < |groups| => EncodeGroup(groups[i]))
  }

  /** Framing round trip for serialized values: however batches of values are queued and grouped
      into frames, the client gets back exactly the serialized values, in order. */
  lemma SerializedRoundTrip(groups: seq<seq<seq<Value>>>)
    requires forall i, j, k :: 0 <= i < |groups| && 0 <= j < |groups[i]| && 0 <= k < |groups[i][j]| ==>
               WellFormed(groups[i][j][k])
    requires forall i :: 0 <= i < |groups| ==> groups[i] != []
    ensures ReceiveAll(Frames(EncodeGroups(groups))) == ConcatGroups(EncodeGroups(groups))
  {
    var texts := EncodeGroups(groups);
    forall i | 0 <= i < |texts| ensures texts[i] != [] && AllMessages(texts[i]) {
      GroupIsMessages(groups[i]);
    }
    RoundTrip(texts);
  }

  lemma GroupIsMessages(group: seq<seq<Value>>)
    requires forall j, k :: 0 <= j < |group| && 0 <= k < |group[j]| ==> WellFormed(group[j][k])
    ensures AllMessages(EncodeGroup(group))
  {
    forall j, k | 0 <= j < |group| && 0 <= k < |group[j]| ensures IsMessage(EncodeGroup(group)[j][k]) {
      EncodedIsMessage(group[j][k]);
    }
  }

  // ----- Reading -----

  /** A value and the text after it, or no value. */
  datatype Parse<T> = Read(value: T, rest: string) | Bad

  function HexValue(c: char): int {
    if '0' <= c <= '9' then c as int - '0' as int
    else if 'a' <= c <= 'f' then c as int - 'a' as int + 10
    else if 'A' <= c <= 'F' then c as int - 'A' as int + 10
    else -1
  }

  /** The character of four hexadecimal digits.  Halves of surrogate pairs, which the encoder never
      writes, are not read. */
  function ReadUnicode(digits: string): Parse<char>
    requires |digits| == 4
  {
    var (a, b, c, d) := (HexValue(digits[0]), HexValue(digits[1]), HexValue(digits[2]), HexValue(digits[3]));
    if a < 0 || b < 0 || c < 0 || d < 0 then Bad
    else
      var code := 4096 * a + 256 * b + 16 * c + d;
      if 0xD800 <= code < 0xE000 then Bad else Read(code as char, "")
  }

  /** The character that a back slash and what follows it stand for. */
  function ReadEscape(s: string): (r: Parse<char>)
    requires s != ""
    ensures r.Read? ==> |r.rest| < |s|
  {
    if |s| == 1 then Bad
    else
      match s[1]
      case '"' => Read('"', s[2..])
      case '\\' => Read('\\', s[2..])
      case '/' => Read('/', s[2..])
      case 'b' => Read('\U{08}', s[2..])
      case 'f' => Read('\U{0c}', s[2..])
      case 'n' => Read('\n', s[2..])
      case 'r' => Read('\r', s[2..])
      case 't' => Read('\t', s[2..])
      case 'u' =>
        if |s| < 6 then Bad
        else if ReadUnicode(s[2..6]).Read? then Read(ReadUnicode(s[2..6]).value, s[6..])
        else Bad
      case _ => Bad
  }

  /** A character of a string, and the text after it. */
  function ReadChar(s: string): (r: Parse<char>)
    requires s != ""
    ensures r.Read? ==> |r.rest| < |s|
  {
    if s[0] == '\\' then ReadEscape(s) else if s[0] < ' ' then Bad else Read(s[0], s[1..])
  }

  /** A string up to its closing quote. */
  function ReadText(s: string): (r: Parse<string>)
    ensures r.Read? ==> |r.rest| < |s|
    decreases |s|
  {
    if s == "" then Bad
    else if s[0] == '"' then Read("", s[1..])
    else
      match ReadChar(s)
      case Bad => Bad
      case Read(c, rest) =>
        match ReadText(rest)
        case Bad => Bad
        case Read(text, rest') => Read([c] + text, rest')
  }

  /** The longest run of number characters at the front. */
  function ReadNumber(s: string): (r: (string, string))
    ensures |r.0| + |r.1| == |s|
  {
    if s != "" && NumberChar(s[0]) then ([s[0]] + ReadNumber(s[1..]).0, ReadNumber(s[1..]).1) else ("", s)
  }

  /** The value of a fixed word. */
  function ReadWord(s: string, word: string, v: Value): (r: Parse<Value>)
    requires word != ""
    ensures r.Read? ==> |r.rest| < |s|
  {
    if |word| <= |s| && s[..|word|] == word then Read(v, s[|word|..]) else Bad
  }

  predicate StartsWith(s: string, c: char) {
    s != "" && s[0] == c
  }

  function ReadValue(s: string): (r: Parse<Value>)
    ensures r.Read? ==> |r.rest| < |s|
    decreases |s|, 0
  {
    if s == "" then Bad
    else if s[0] == 'n' then ReadWord(s, "null", Null)
    else if s[0] == 't' then ReadWord(s, "true", Bool(true))
    else if s[0] == 'f' then ReadWord(s, "false", Bool(false))
    else if s[0] == '"' then
      match ReadText(s[1..])
      case Bad => Bad
      case Read(text, rest) => Read(Text(text), rest)
    else if s[0] == '[' then
      if StartsWith(s[1..], ']') then Read(Array([]), s[2..])
      else
        match ReadItems(s[1..])
        case Bad => Bad
        case Read(items, rest) => Read(Array(items), rest)
    else if s[0] == '{' then
      if StartsWith(s[1..], '}') then Read(Object([]), s[2..])
      else
        match ReadMembers(s[1..])
        case Bad => Bad
        case Read(members, rest) => Read(Object(members), rest)
    else if NumberChar(s[0]) then Read(Number(ReadNumber(s).0), ReadNumber(s).1)
    else Bad
  }

  /** One item or more, up to the closing bracket. */
  function ReadItems(s: string): (r: Parse<seq<Value>>)
    ensures r.Read? ==> |r.rest| < |s|
    decreases |s|, 1
  {
    match ReadValue(s)
    case Bad => Bad
    case Read(v, rest) =>
      if StartsWith(rest, ']') then Read([v], rest[1..])
      else if StartsWith(rest, ',') then
        match ReadItems(rest[1..])
        case Bad => Bad
        case Read(vs, rest') => Read([v] + vs, rest')
      else Bad
  }

  /** A quoted name, a colon and a value. */
  function ReadMember(s: string): (r: Parse<Member>)
    ensures r.Read? ==> |r.rest| < |s|
    decreases |s|, 1
  {
    if !StartsWith(s, '"') then Bad
    else
      match ReadText(s[1..])
      case Bad => Bad
      case Read(name, rest) =>
        if !StartsWith(rest, ':') then Bad
        else
          match ReadValue(rest[1..])
          case Bad => Bad
          case Read(v, rest') => Read(Member(name, v), rest')
  }

  /** One member or more, up to the closing brace. */
  function ReadMembers(s: string): (r: Parse<seq<Member>>)
    ensures r.Read? ==> |r.rest| < |s|
    decreases |s|, 2
  {
    match ReadMember(s)
    case Bad => Bad
    case Read(m, rest) =>
      if StartsWith(rest, '}') then Read([m], rest[1..])
      else if StartsWith(rest, ',') then
        match ReadMembers(rest[1..])
        case Bad => Bad
        case Read(ms, rest') => Read([m] + ms, rest')
      else Bad
  }

  // ----- The reader undoes the encoder -----

  lemma UnicodeReads(c: char)
    requires c as int < 0xD800 || 0xE000 <= c as int < 0x1_0000
    ensures ReadUnicode(Unicode(c as int)[2..]) == Read(c, "")
  {
    var code := c as int;
    var (x, y, z, w) := (code / 4096, code / 256 % 16, code / 16 % 16, code % 16);
    FourDigits(code);
    HexReads(x);
    HexReads(y);
    HexReads(z);
    HexReads(w);
    var digits := Unicode(code)[2..];
    assert digits == [HexDigit(x), HexDigit(y), HexDigit(z), HexDigit(w)];
  }

  lemma FourDigits(code: int)
    ensures code == 4096 * (code / 4096) + 256 * (code / 256 % 16) + 16 * (code / 16 % 16) + code % 16
  {
    var (a, b) := (code / 16, code / 256);
    assert b == a / 16 && code / 4096 == b / 16;
  }

  lemma HexReads(n: int)
    requires 0 <= n < 16
    ensures HexValue(HexDigit(n)) == n
  {
    assert n < 10 ==> HexDigit(n) as int == '0' as int + n;
    assert n >= 10 ==> HexDigit(n) as int == 'a' as int + n - 10;
  }

  lemma HexEscapeReads(c: char, rest: string)
    requires c as int < 0xD800
    ensures ReadEscape(Unicode(c as int) + rest) == Read(c, rest)
  {
    var u := Unicode(c as int);
    UnicodeReads(c);
    assert (u + rest)[2..6] == u[2..] && (u + rest)[6..] == rest;
  }

  lemma CharReads(c: char, rest: string)
    ensures Escape(c)[0] != '"' && ReadChar(Escape(c) + rest) == Read(c, rest)
  {
    if |Escape(c)| == 2 {
      assert (Escape(c) + rest)[2..] == rest;
    } else if Escape(c) == [c] {
      assert ([c] + rest)[1..] == rest;
    } else {
      assert c < ' ' || c in {'<', '>', '&', '\U{2028}', '\U{2029}'};
      HexEscapeReads(c, rest);
    }
  }

  lemma {:induction false} TextReads(s: string, rest: string)
    ensures ReadText(EscapeAll(s) + "\"" + rest) == Read(s, rest)
  {
    var text := EscapeAll(s) + "\"" + rest;
    if s == "" {
      assert text[1..] == rest;
    } else {
      var tail := EscapeAll(s[1..]) + "\"" + rest;
      assert text == Escape(s[0]) + tail;
      CharReads(s[0], tail);
      TextReads(s[1..], rest);
      assert [s[0]] + s[1..] == s;
    }
  }

  lemma QuotedReads(s: string, rest: string)
    ensures StartsWith(Quoted(s) + rest, '"') && ReadText((Quoted(s) + rest)[1..]) == Read(s, rest)
  {
    TextReads(s, rest);
    Unquote(EscapeAll(s), rest);
  }

  lemma Unquote(text: string, rest: string)
    ensures ("\"" + text + "\"" + rest)[1..] == text + "\"" + rest
  {
  }

  /** What follows a value in a larger one. */
  predicate EndsValue(rest: string) {
    rest == "" || !NumberChar(rest[0])
  }

  lemma {:induction false} NumberReads(text: string, rest: string)
    requires EndsValue(rest) && forall c :: c in text ==> NumberChar(c)
    ensures ReadNumber(text + rest) == (text, rest)
  {
    if text == "" {
      assert text + rest == rest;
    } else {
      NumberReads(text[1..], rest);
      assert (text + rest)[1..] == text[1..] + rest;
      assert [text[0]] + text[1..] == text && text[0] in text;
    }
  }

  /** The first character tells the kinds of value apart. */
  lemma FirstChar(v: Value)
    requires WellFormed(v)
    ensures Encode(v) != ""
    ensures match v
            case Null => Encode(v)[0] == 'n'
            case Bool(_) => Encode(v)[0] in {'t', 'f'}
            case Number(_) => NumberChar(Encode(v)[0])
            case Text(_) => Encode(v)[0] == '"'
            case Array(_) => Encode(v)[0] == '['
            case Object(_) => Encode(v)[0] == '{'
  {
    if v.Number? {
      assert v.text[0] in v.text;
    }
  }

  lemma LastItem(s: string, v: Value, rest: string)
    requires ReadValue(s) == Read(v, "]" + rest)
    ensures ReadItems(s) == Read([v], rest)
  {
    assert ("]" + rest)[1..] == rest;
  }

  lemma NextItem(s: string, v: Value, tail: string, vs: seq<Value>, rest: string)
    requires ReadValue(s) == Read(v, "," + tail) && ReadItems(tail) == Read(vs, rest)
    ensures ReadItems(s) == Read([v] + vs, rest)
  {
    assert ("," + tail)[1..] == tail;
  }

  lemma WholeArray(s: string, items: seq<Value>, rest: string)
    requires s != "" && !StartsWith(s, ']') && ReadItems(s) == Read(items, rest)
    ensures ReadValue("[" + s) == Read(Array(items), rest)
  {
    assert ("[" + s)[1..] == s;
  }

  lemma LastMember(s: string, m: Member, rest: string)
    requires ReadMember(s) == Read(m, "}" + rest)
    ensures ReadMembers(s) == Read([m], rest)
  {
    assert ("}" + rest)[1..] == rest;
  }

  lemma NextMember(s: string, m: Member, tail: string, ms: seq<Member>, rest: string)
    requires ReadMember(s) == Read(m, "," + tail) && ReadMembers(tail) == Read(ms, rest)
    ensures ReadMembers(s) == Read([m] + ms, rest)
  {
    assert ("," + tail)[1..] == tail;
  }

  lemma MemberReads(m: Member, rest: string)
    requires ReadValue(Encode(m.value) + rest) == Read(m.value, rest)
    ensures ReadMember(EncodeMember(m) + rest) == Read(m, rest)
  {
    var (s, name) := (Encode(m.value) + rest, Quoted(m.name));
    QuotedReads(m.name, ":" + s);
    assert (":" + s)[1..] == s;
    Regroup(name, Encode(m.value), rest);
  }

  lemma Regroup(name: string, value: string, rest: string)
    ensures name + ":" + value + rest == name + (":" + (value + rest))
  {
  }

  lemma WholeObject(s: string, members: seq<Member>, rest: string)
    requires s != "" && !StartsWith(s, '}') && ReadMembers(s) == Read(members, rest)
    ensures ReadValue("{" + s) == Read(Object(members), rest)
  {
    assert ("{" + s)[1..] == s;
  }

  lemma SimpleReads(v: Value, rest: string)
    requires WellFormed(v) && EndsValue(rest) && (v.Null? || v.Bool? || v.Number? || v.Text?)
    ensures ReadValue(Encode(v) + rest) == Read(v, rest)
  {
    var s := Encode(v) + rest;
    FirstChar(v);
    match v
    case Null => assert s[..4] == "null" && s[4..] == rest;
    case Bool(b) =>
      assert s[..if b then 4 else 5] == Encode(v) && s[if b then 4 else 5..] == rest;
    case Number(text) => NumberReads(text, rest);
    case Text(t) => QuotedReads(t, rest);
  }

  /** The client reads back the value that was encoded, and nothing of what follows it. */
  lemma {:induction false} ReadsWhatWasWritten(v: Value, rest: string)
    requires WellFormed(v) && EndsValue(rest)
    ensures ReadValue(Encode(v) + rest) == Read(v, rest)
    decreases v, 1
  {
    match v
    case Array(items) => ArrayReads(items, rest);
    case Object(members) => ObjectReads(members, rest);
    case _ => SimpleReads(v, rest);
  }

  lemma {:induction false} ArrayReads(items: seq<Value>, rest: string)
    requires forall i :: 0 <= i < |items| ==> WellFormed(items[i])
    ensures ReadValue(Encode(Array(items)) + rest) == Read(Array(items), rest)
    decreases items, 1
  {
    var tail := EncodeItems(items) + "]" + rest;
    assert Encode(Array(items)) + rest == "[" + tail;
    if items == [] {
      assert tail == "]" + rest && ("[" + tail)[1..] == tail && ("[" + tail)[2..] == rest;
    } else {
      FirstChar(items[0]);
      assert tail[0] == Encode(items[0])[0];
      ItemsRead(items, rest);
      WholeArray(tail, items, rest);
    }
  }

  lemma {:induction false} ItemsRead(items: seq<Value>, rest: string)
    requires items != [] && forall i :: 0 <= i < |items| ==> WellFormed(items[i])
    ensures ReadItems(EncodeItems(items) + "]" + rest) == Read(items, rest)
    decreases items, 0
  {
    var s := EncodeItems(items) + "]" + rest;
    if |items| == 1 {
      assert s == Encode(items[0]) + ("]" + rest);
      ReadsWhatWasWritten(items[0], "]" + rest);
      LastItem(s, items[0], rest);
      assert [items[0]] == items;
    } else {
      var tail := EncodeItems(items[1..]) + "]" + rest;
      assert s == Encode(items[0]) + ("," + tail);
      ReadsWhatWasWritten(items[0], "," + tail);
      ItemsRead(items[1..], rest);
      NextItem(s, items[0], tail, items[1..], rest);
      assert [items[0]] + items[1..] == items;
    }
  }

  lemma {:induction false} ObjectReads(members: seq<Member>, rest: string)
    requires forall i :: 0 <= i < |members| ==> WellFormed(members[i].value)
    ensures ReadValue(Encode(Object(members)) + rest) == Read(Object(members), rest)
    decreases members, 1
  {
    var tail := EncodeMembers(members) + "}" + rest;
    assert Encode(Object(members)) + rest == "{" + tail;
    if members == [] {
      assert tail == "}" + rest && ("{" + tail)[1..] == tail && ("{" + tail)[2..] == rest;
    } else {
      assert EncodeMember(members[0])[0] == '"';
      assert tail[0] == EncodeMember(members[0])[0];
      MembersRead(members, rest);
      WholeObject(tail, members, rest);
    }
  }

  lemma MembersText(members: seq<Member>, rest: string)
    requires members != []
    ensures EncodeMembers(members) + "}" + rest == EncodeMember(members[0]) + MembersLeft(members, rest)
  {
    var (first, more) := (EncodeMember(members[0]), EncodeMembers(members[1..]));
    var sep := if |members| > 1 then "," else "";
    assert EncodeMembers(members) == first + sep + more;
    assert |members| == 1 ==> more == "";
    RegroupRest(first, sep, more, rest);
  }

  lemma RegroupRest(first: string, sep: string, more: string, rest: string)
    ensures first + sep + more + "}" + rest == first + (sep + (more + "}" + rest))
    ensures "" + ("" + "}" + rest) == "}" + rest
  {
  }

  /** The text after the first member. */
  function MembersLeft(members: seq<Member>, rest: string): string
    requires members != []
  {
    if |members| == 1 then "}" + rest else "," + (EncodeMembers(members[1..]) + "}" + rest)
  }

  lemma {:induction false} MembersRead(members: seq<Member>, rest: string)
    requires members != [] && forall i :: 0 <= i < |members| ==> WellFormed(members[i].value)
    ensures ReadMembers(EncodeMembers(members) + "}" + rest) == Read(members, rest)
    decreases members, 0
  {
    var (s, m) := (EncodeMembers(members) + "}" + rest, members[0]);
    MembersText(members, rest);
    ReadsWhatWasWritten(m.value, MembersLeft(members, rest));
    MemberReads(m, MembersLeft(members, rest));
    if |members| == 1 {
      LastMember(s, m, rest);
      assert [m] == members;
    } else {
      MembersRead(members[1..], rest);
      NextMember(s, m, EncodeMembers(members[1..]) + "}" + rest, members[1..], rest);
      assert [m] + members[1..] == members;
    }
  }

  function ValuesOf(groups: seq<seq<seq<Value>>>): seq<Value> {
    if groups == [] then [] else ValuesOf(groups[..|groups| - 1]) + ValuesOfGroup(groups[|groups| - 1])
  }

  function ValuesOfGroup(group: seq<seq<Value>>): seq<Value> {
    if group == [] then [] else ValuesOfGroup(group[..|group| - 1]) + group[|group| - 1]
  }

  lemma {:induction false} GroupIsValues(group: seq<seq<Value>>)
    ensures Concat(EncodeGroup(group)) == EncodeBatch(ValuesOfGroup(group))
  {
    if group != [] {
      var front := group[..|group| - 1];
      GroupIsValues(front);
      assert EncodeGroup(group)[..|group| - 1] == EncodeGroup(front);
    }
  }

  lemma {:induction false} GroupsAreValues(groups: seq<seq<seq<Value>>>)
    ensures ConcatGroups(EncodeGroups(groups)) == EncodeBatch(ValuesOf(groups))
  {
    if groups != [] {
      var front := groups[..|groups| - 1];
      GroupsAreValues(front);
      GroupIsValues(groups[|groups| - 1]);
      assert EncodeGroups(groups)[..|groups| - 1] == EncodeGroups(front);
    }
  }

  ghost predicate AllWellFormed(groups: seq<seq<seq<Value>>>) {
    forall i, j, k :: 0 <= i < |groups| && 0 <= j < |groups[i]| && 0 <= k < |groups[i][j]| ==>
      WellFormed(groups[i][j][k])
  }

  lemma {:induction false} GroupValuesAreWellFormed(group: seq<seq<Value>>)
    requires forall j, k :: 0 <= j < |group| && 0 <= k < |group[j]| ==> WellFormed(group[j][k])
    ensures forall v :: v in ValuesOfGroup(group) ==> WellFormed(v)
  {
    if group != [] {
      GroupValuesAreWellFormed(group[..|group| - 1]);
    }
  }

  lemma {:induction false} ValuesAreWellFormed(groups: seq<seq<seq<Value>>>)
    requires AllWellFormed(groups)
    ensures forall v :: v in ValuesOf(groups) ==> WellFormed(v)
  {
    if groups != [] {
      ValuesAreWellFormed(groups[..|groups| - 1]);
      GroupValuesAreWellFormed(groups[|groups| - 1]);
    }
  }

  /** From end to end: the values queued, encoded, grouped into frames, split and read back are
      exactly the values queued, in order, with nothing left over. */
  lemma ValuesArrive(groups: seq<seq<seq<Value>>>)
    requires AllWellFormed(groups) && forall i :: 0 <= i < |groups| ==> groups[i] != []
    ensures var lines := ReceiveAll(Frames(EncodeGroups(groups)));
            && |lines| == |ValuesOf(groups)|
            && forall i :: 0 <= i < |lines| ==> ReadValue(lines[i]) == Read(ValuesOf(groups)[i], "")
  {
    var (lines, values) := (ReceiveAll(Frames(EncodeGroups(groups))), ValuesOf(groups));
    SerializedRoundTrip(groups);
    GroupsAreValues(groups);
    ValuesAreWellFormed(groups);
    forall i | 0 <= i < |lines| ensures ReadValue(lines[i]) == Read(values[i], "") {
      assert values[i] in values;
      ReadsWhatWasWritten(values[i], "");
      assert lines[i] + "" == lines[i];
    }
  }
}
