// JSON text as JSON.stringify writes it and as JSON.parse reads it back
// (RFC 8259), for the values the program serialises: objects, strings, integers,
// booleans and null.
module Json {
  import opened Text

  datatype Member = Member(key: string, value: Value)

  datatype Value =
    | Null
    | Bool(b: bool)
    | Num(n: int)
    | Str(s: string)
    | Obj(members: seq<Member>)

  // ----- Writing -------------------------------------------------------------

  function HexChar(d: nat): (c: char)
    requires d < 16
  {
    if d < 10 then DigitChar(d) else 'a' + (d - 10) as char
  }

  /** One character inside a string literal (section 7 of RFC 8259). */
  function Escape(c: char): (s: string) {
    if c == '"' then "\\\""
    else if c == '\\' then "\\\\"
    else if c == '\n' then "\\n"
    else if c == '\r' then "\\r"
    else if c == '\t' then "\\t"
    else if c as int == 8 then "\\b"
    else if c as int == 12 then "\\f"
    else if c as int < 0x20 then ['\\', 'u', '0', '0', HexChar(c as int / 16), HexChar(c as int % 16)]
    else [c]
  }

  function EscapeAll(s: string): string {
    if s == [] then [] else Escape(s[0]) + EscapeAll(s[1..])
  }

  function Quote(s: string): string {
    "\"" + EscapeAll(s) + "\""
  }

  function WriteInt(n: int): string {
    if n < 0 then "-" + Dec(-n) else Dec(n)
  }

  function Write(v: Value): string
    decreases v, 0
  {
    match v
    case Null => "null"
    case Bool(b) => if b then "true" else "false"
    case Num(n) => WriteInt(n)
    case Str(s) => Quote(s)
    case Obj(ms) => "{" + WriteMembers(ms) + "}"
  }

  function WriteMembers(ms: seq<Member>): string
    decreases ms, 1
  {
    if ms == [] then ""
    else if |ms| == 1 then WriteMember(ms[0])
    else WriteMember(ms[0]) + "," + WriteMembers(ms[1..])
  }

  function WriteMember(m: Member): string
    decreases m, 1
  {
    Quote(m.key) + ":" + Write(m.value)
  }

  // ----- Reading -------------------------------------------------------------

  function HexValue(c: char): Option<nat> {
    if IsDigit(c) then Some(DigitValue(c))
    else if 'a' <= c <= 'f' then Some(c as int - 'a' as int + 10)
    else if 'A' <= c <= 'F' then Some(c as int - 'A' as int + 10)
    else None
  }

  /** The character of a `\uXXXX` escape; surrogates are not characters. */
  function HexEscape(a: char, b: char, c: char, d: char): Option<char> {
    match (HexValue(a), HexValue(b), HexValue(c), HexValue(d))
    case (Some(w), Some(x), Some(y), Some(z)) =>
      var code := ((w * 16 + x) * 16 + y) * 16 + z;
      if code < 0xD800 || 0xE000 <= code < 0x10000 then Some(code as char) else None
    case _ => None
  }

  function SimpleEscape(c: char): Option<char> {
    if c == '"' || c == '\\' || c == '/' then Some(c)
    else if c == 'n' then Some('\n')
    else if c == 'r' then Some('\r')
    else if c == 't' then Some('\t')
    else if c == 'b' then Some(8 as char)
    else if c == 'f' then Some(12 as char)
    else None
  }

  datatype Read<T> = Bad | Got(value: T, rest: string)

  /** The rest of a string literal whose opening quote has been read. */
  function ReadBody(t: string): (r: Read<string>)
    ensures r.Got? ==> |r.rest| < |t|
  {
    if t == [] || t[0] as int < 0x20 then Bad
    else if t[0] == '"' then Got("", t[1..])
    else if t[0] != '\\' then Prepend(t[0], ReadBody(t[1..]))
    else if |t| >= 6 && t[1] == 'u' then
      match HexEscape(t[2], t[3], t[4], t[5])
      case Some(c) => Prepend(c, ReadBody(t[6..]))
      case None => Bad
    else if |t| >= 2 && SimpleEscape(t[1]).Some? then
      Prepend(SimpleEscape(t[1]).value, ReadBody(t[2..]))
    else Bad
  }

  function Prepend(c: char, r: Read<string>): Read<string> {
    match r
    case Bad => Bad
    case Got(s, rest) => Got([c] + s, rest)
  }

  /** How many digits `t` begins with. */
  function DigitRun(t: string): (k: nat)
    ensures k <= |t| && AllDigits(t[..k])
    ensures k < |t| ==> !IsDigit(t[k])
  {
    if t == [] || !IsDigit(t[0]) then 0
    else
      var k := 1 + DigitRun(t[1..]);
      assert t[..k] == [t[0]] + t[1..][..k - 1];
      k
  }

  function ReadNat(t: string): (r: Read<Value>)
    ensures r.Got? ==> |r.rest| < |t|
  {
    var k := DigitRun(t);
    if k == 0 then Bad else Got(Num(DecValue(t[..k])), t[k..])
  }

  function ReadWord(t: string, word: string, v: Value): (r: Read<Value>)
    requires word != []
    ensures r.Got? ==> |r.rest| < |t|
  {
    if word <= t then Got(v, t[|word|..]) else Bad
  }

  function ReadValue(t: string): (r: Read<Value>)
    ensures r.Got? ==> |r.rest| < |t|
    decreases |t|, 0
  {
    if t == [] then Bad
    else if t[0] == '"' then
      match ReadBody(t[1..])
      case Bad => Bad
      case Got(s, rest) => Got(Str(s), rest)
    else if t[0] == '-' then
      match ReadNat(t[1..])
      case Bad => Bad
      case Got(v, rest) => if v.Num? then Got(Num(-v.n), rest) else Bad
    else if IsDigit(t[0]) then ReadNat(t)
    else if t[0] == 'n' then ReadWord(t, "null", Null)
    else if t[0] == 't' then ReadWord(t, "true", Bool(true))
    else if t[0] == 'f' then ReadWord(t, "false", Bool(false))
    else if t[0] == '{' && |t| >= 2 && t[1] == '}' then Got(Obj([]), t[2..])
    else if t[0] == '{' then
      match ReadMembers(t[1..])
      case Bad => Bad
      case Got(ms, rest) => Got(Obj(ms), rest)
    else Bad
  }

  /** One or more members up to and including the closing brace. */
  function ReadMembers(t: string): (r: Read<seq<Member>>)
    ensures r.Got? ==> |r.rest| < |t|
    decreases |t|, 1
  {
    match ReadMember(t)
    case Bad => Bad
    case Got(m, rest) =>
      if rest == [] then Bad
      else if rest[0] == '}' then Got([m], rest[1..])
      else if rest[0] == ',' then
        match ReadMembers(rest[1..])
        case Bad => Bad
        case Got(ms, more) => Got([m] + ms, more)
      else Bad
  }

  function ReadMember(t: string): (r: Read<Member>)
    ensures r.Got? ==> |r.rest| < |t|
    decreases |t|, 0
  {
    if t == [] || t[0] != '"' then Bad
    else
      match ReadBody(t[1..])
      case Bad => Bad
      case Got(key, after) =>
        if after == [] || after[0] != ':' then Bad
        else
          match ReadValue(after[1..])
          case Bad => Bad
          case Got(v, rest) => Got(Member(key, v), rest)
  }

  /** JSON.parse: the whole text must be one value. */
  function Parse(t: string): Option<Value> {
    match ReadValue(t)
    case Bad => None
    case Got(v, rest) => if rest == [] then Some(v) else None
  }

  /** Reading a property of a parsed object; the last of several counts. */
  function Prop(v: Value, key: string): Option<Value> {
    if v.Obj? then PropIn(v.members, key) else None
  }

  function PropIn(ms: seq<Member>, key: string): Option<Value> {
    if ms == [] then None
    else if ms[|ms| - 1].key == key then Some(ms[|ms| - 1].value)
    else PropIn(ms[..|ms| - 1], key)
  }

  predicate DistinctKeys(ms: seq<Member>) {
    forall i, j :: 0 <= i < j < |ms| ==> ms[i].key != ms[j].key
  }

  lemma {:induction false} DistinctProp(ms: seq<Member>, i: nat)
    requires DistinctKeys(ms) && i < |ms|
    ensures PropIn(ms, ms[i].key) == Some(ms[i].value)
    decreases |ms|
  {
    if i < |ms| - 1 {
      DistinctProp(ms[..|ms| - 1], i);
    }
  }

  // ----- Round trip ----------------------------------------------------------

  lemma {:induction false} BodyRoundTrip(s: string, rest: string)
    ensures ReadBody(EscapeAll(s) + "\"" + rest) == Got(s, rest)
  {
    if s == [] {
      assert EscapeAll(s) + "\"" + rest == "\"" + rest;
    } else {
      var tail := EscapeAll(s[1..]) + "\"" + rest;
      BodyRoundTrip(s[1..], rest);
      EscapedHead(s[0], tail);
      assert EscapeAll(s) + "\"" + rest == Escape(s[0]) + tail;
      assert s == [s[0]] + s[1..];
    }
  }

  predicate TwoCharEscape(c: char) {
    c == '"' || c == '\\' || c == '\n' || c == '\r' || c == '\t' || c as int == 8 || c as int == 12
  }

  lemma EscapedHead(c: char, tail: string)
    ensures ReadBody(Escape(c) + tail) == Prepend(c, ReadBody(tail))
  {
    if TwoCharEscape(c) {
      EscapedSimple(c, tail);
    } else if c as int < 0x20 {
      EscapedControl(c, tail);
    } else {
      assert (Escape(c) + tail)[1..] == tail;
    }
  }

  lemma EscapedSimple(c: char, tail: string)
    requires TwoCharEscape(c)
    ensures ReadBody(Escape(c) + tail) == Prepend(c, ReadBody(tail))
  {
    var t := Escape(c) + tail;
    assert t[2..] == tail;
    assert t[1] != 'u' && SimpleEscape(t[1]) == Some(c);
  }

  lemma EscapedControl(c: char, tail: string)
    requires c as int < 0x20 && !TwoCharEscape(c)
    ensures ReadBody(Escape(c) + tail) == Prepend(c, ReadBody(tail))
  {
    var hi, lo := c as int / 16, c as int % 16;
    var t := Escape(c) + tail;
    HexCharValue(hi);
    HexCharValue(lo);
    assert HexValue('0') == Some(0);
    assert HexEscape('0', '0', HexChar(hi), HexChar(lo)) == Some(c);
    assert t[6..] == tail;
  }

  lemma HexCharValue(d: nat)
    requires d < 16
    ensures HexValue(HexChar(d)) == Some(d)
  {
  }

  lemma {:induction false} DigitRunOf(d: string, rest: string)
    requires AllDigits(d)
    requires rest == [] || !IsDigit(rest[0])
    ensures DigitRun(d + rest) == |d|
  {
    if d == [] {
      assert d + rest == rest;
    } else {
      DigitRunOf(d[1..], rest);
      assert (d + rest)[1..] == d[1..] + rest;
    }
  }

  lemma ReadNatOfDec(n: nat, rest: string)
    requires rest == [] || !IsDigit(rest[0])
    ensures ReadNat(Dec(n) + rest) == Got(Num(n), rest)
  {
    var t := Dec(n) + rest;
    DigitRunOf(Dec(n), rest);
    assert t[..|Dec(n)|] == Dec(n) && t[|Dec(n)|..] == rest;
    DecRoundTrip(n);
  }

  lemma WordRoundTrip(word: string, v: Value, rest: string)
    requires word != []
    ensures ReadWord(word + rest, word, v) == Got(v, rest)
  {
    assert (word + rest)[..|word|] == word && (word + rest)[|word|..] == rest;
  }

  lemma ReadObject(body: string, ms: seq<Member>, rest: string)
    requires body != [] && body[0] != '}'
    requires ReadMembers(body) == Got(ms, rest)
    ensures ReadValue("{" + body) == Got(Obj(ms), rest)
  {
    var t := "{" + body;
    assert t[0] == '{' && t[1] == body[0] && t[1..] == body;
  }

  lemma ReadEmpty(rest: string)
    ensures ReadValue(Write(Obj([])) + rest) == Got(Obj([]), rest)
  {
    assert Write(Obj([])) == "{" + "" + "}";
    var t := "{}" + rest;
    assert t[0] == '{' && t[1] == '}' && t[2..] == rest;
  }

  lemma ReadOneMore(t: string, m: Member, more: string, ms: seq<Member>, rest: string)
    requires ReadMember(t) == Got(m, "," + more)
    requires ReadMembers(more) == Got(ms, rest)
    ensures ReadMembers(t) == Got([m] + ms, rest)
  {
    assert ("," + more)[1..] == more;
  }

  lemma ReadLast(t: string, m: Member, rest: string)
    requires ReadMember(t) == Got(m, "}" + rest)
    ensures ReadMembers(t) == Got([m], rest)
  {
    assert ("}" + rest)[1..] == rest;
  }

  lemma ReadMemberAt(key: string, v: Value, body: string, value: string, rest: string)
    requires ReadBody(body) == Got(key, ":" + value)
    requires ReadValue(value) == Got(v, rest)
    ensures ReadMember("\"" + body) == Got(Member(key, v), rest)
  {
    var t := "\"" + body;
    assert t[1..] == body && (":" + value)[1..] == value;
  }

  lemma ReadQuoted(body: string, s: string, rest: string)
    requires ReadBody(body) == Got(s, rest)
    ensures ReadValue("\"" + body) == Got(Str(s), rest)
  {
    assert ("\"" + body)[1..] == body;
  }

  lemma ReadString(s: string, rest: string)
    ensures ReadValue(Quote(s) + rest) == Got(Str(s), rest)
  {
    var body := EscapeAll(s) + "\"" + rest;
    BodyRoundTrip(s, rest);
    ReadQuoted(body, s, rest);
    QuoteText(s, rest);
  }

  lemma QuoteText(s: string, rest: string)
    ensures Quote(s) + rest == "\"" + (EscapeAll(s) + "\"" + rest)
  {
    var body := EscapeAll(s);
    assert ("\"" + body + "\"") + rest == "\"" + (body + "\"" + rest);
  }

  lemma ReadInt(n: int, rest: string)
    requires rest == [] || !IsDigit(rest[0])
    ensures ReadValue(WriteInt(n) + rest) == Got(Num(n), rest)
  {
    if n < 0 {
      ReadNatOfDec(-n, rest);
      ReadNegative(Dec(-n) + rest, -n, rest);
      ConcatAssoc("-", Dec(-n), rest);
    } else {
      ReadNatOfDec(n, rest);
      ReadPositive(Dec(n), rest);
    }
  }

  lemma ReadNegative(t: string, n: int, rest: string)
    requires ReadNat(t) == Got(Num(n), rest)
    ensures ReadValue("-" + t) == Got(Num(-n), rest)
  {
    assert ("-" + t)[1..] == t;
  }

  lemma ReadPositive(d: string, rest: string)
    requires d != [] && IsDigit(d[0])
    ensures ReadValue(d + rest) == ReadNat(d + rest)
  {
    assert (d + rest)[0] == d[0];
  }

  /** A written value is read back, whatever follows it (a number must not run on). */
  lemma {:induction false} ValueRoundTrip(v: Value, rest: string)
    requires rest == [] || !IsDigit(rest[0])
    ensures ReadValue(Write(v) + rest) == Got(v, rest)
    decreases v, 0
  {
    match v
    case Null => WordRoundTrip("null", Null, rest);
    case Bool(b) => WordRoundTrip(Write(v), v, rest);
    case Num(n) => ReadInt(n, rest);
    case Str(s) => ReadString(s, rest);
    case Obj(ms) =>
      if ms == [] {
        ReadEmpty(rest);
      } else {
        MembersRoundTrip(ms, rest);
        MembersBegin(ms);
        ReadObject(WriteMembers(ms) + "}" + rest, ms, rest);
        ObjectText(ms, rest);
      }
  }

  lemma ObjectText(ms: seq<Member>, rest: string)
    ensures Write(Obj(ms)) + rest == "{" + (WriteMembers(ms) + "}" + rest)
  {
    var body := WriteMembers(ms);
    assert ("{" + body + "}") + rest == "{" + (body + "}" + rest);
  }

  /** The text of a member, cut at its opening quote. */
  lemma MemberText(m: Member, rest: string)
    ensures WriteMember(m) + rest == "\"" + (EscapeAll(m.key) + "\"" + (":" + (Write(m.value) + rest)))
  {
    var key, value := EscapeAll(m.key), Write(m.value);
    QuoteText(m.key, ":" + (value + rest));
    ConcatAssoc(":", value, rest);
    ConcatAssoc(Quote(m.key), ":" + value, rest);
    ConcatAssoc(Quote(m.key), ":", value);
  }

  /** The text of a list of members, cut after the first. */
  lemma MembersText(ms: seq<Member>, rest: string)
    requires ms != []
    ensures |ms| == 1 ==> WriteMembers(ms) + "}" + rest == WriteMember(ms[0]) + ("}" + rest)
    ensures |ms| > 1 ==>
      WriteMembers(ms) + "}" + rest == WriteMember(ms[0]) + ("," + (WriteMembers(ms[1..]) + "}" + rest))
  {
    var m := WriteMember(ms[0]);
    if |ms| > 1 {
      Regroup(m, WriteMembers(ms[1..]), rest);
    } else {
      assert m + "}" + rest == m + ("}" + rest);
    }
  }

  lemma Regroup(m: string, more: string, rest: string)
    ensures (m + "," + more) + "}" + rest == m + ("," + (more + "}" + rest))
  {
  }

  lemma MembersBegin(ms: seq<Member>)
    requires ms != []
    ensures WriteMembers(ms) != [] && WriteMembers(ms)[0] == '"'
  {
    assert WriteMember(ms[0])[0] == '"';
  }

  lemma {:induction false} MembersRoundTrip(ms: seq<Member>, rest: string)
    requires ms != []
    ensures ReadMembers(WriteMembers(ms) + "}" + rest) == Got(ms, rest)
    decreases ms, 1
  {
    var m := ms[0];
    if |ms| == 1 {
      MemberRoundTrip(m, "}" + rest);
      OneRead(ms, rest);
    } else {
      MembersRoundTrip(ms[1..], rest);
      MemberRoundTrip(m, "," + (WriteMembers(ms[1..]) + "}" + rest));
      MoreRead(ms, rest);
    }
  }

  lemma OneRead(ms: seq<Member>, rest: string)
    requires |ms| == 1 && ReadMember(WriteMember(ms[0]) + ("}" + rest)) == Got(ms[0], "}" + rest)
    ensures ReadMembers(WriteMembers(ms) + "}" + rest) == Got(ms, rest)
  {
    MembersText(ms, rest);
    ReadLast(WriteMembers(ms) + "}" + rest, ms[0], rest);
    assert ms == [ms[0]];
  }

  lemma MoreRead(ms: seq<Member>, rest: string)
    requires |ms| > 1
    requires var more := WriteMembers(ms[1..]) + "}" + rest;
      && ReadMember(WriteMember(ms[0]) + ("," + more)) == Got(ms[0], "," + more)
      && ReadMembers(more) == Got(ms[1..], rest)
    ensures ReadMembers(WriteMembers(ms) + "}" + rest) == Got(ms, rest)
  {
    MembersText(ms, rest);
    ReadOneMore(WriteMembers(ms) + "}" + rest, ms[0], WriteMembers(ms[1..]) + "}" + rest, ms[1..], rest);
    assert ms == [ms[0]] + ms[1..];
  }

  lemma {:induction false} MemberRoundTrip(m: Member, rest: string)
    requires rest == [] || !IsDigit(rest[0])
    ensures ReadMember(WriteMember(m) + rest) == Got(m, rest)
    decreases m, 1
  {
    var value := Write(m.value) + rest;
    var body := EscapeAll(m.key) + "\"" + (":" + value);
    ValueRoundTrip(m.value, rest);
    BodyRoundTrip(m.key, ":" + value);
    ReadMemberAt(m.key, m.value, body, value, rest);
    MemberText(m, rest);
  }

  /** JSON.parse inverts JSON.stringify. */
  lemma ParseWrite(v: Value)
    ensures Parse(Write(v)) == Some(v)
  {
    ValueRoundTrip(v, "");
    assert Write(v) + "" == Write(v);
  }
}
