// The log stream as text/event-stream: the frames the server writes, the stream parser of
// the browser (section 9.2.6 of the WHATWG HTML Standard) and the client's handler.
module EventStream {
  import opened Text
  import opened Json
  import opened Runs
  import opened Utf8

  datatype Channel = Out | Err

  datatype LogLine = LogLine(channel: Channel, processName: string, pmId: int, message: string, timestamp: int)

  function LineValue(l: LogLine): Value {
    Obj([Member("channel", Str(if l.channel.Out? then "out" else "err")),
         Member("processName", Str(l.processName)),
         Member("pmId", Num(l.pmId)),
         Member("message", Str(l.message)),
         Member("timestamp", Num(l.timestamp))])
  }

  // ----- Server --------------------------------------------------------------

  datatype Frame = Log(line: LogLine) | Ready | Ping

  /** What `res.write` is given for each frame. */
  function FrameText(f: Frame): string {
    match f
    case Log(line) => "data: " + Write(LineValue(line)) + "\n\n"
    case Ready => "event: ready\ndata: {}\n\n"
    case Ping => ": ping\n\n"
  }

  function Wire(fs: seq<Frame>): string {
    FlatMap(FrameText, fs)
  }

  function LinesOf(fs: seq<Frame>): seq<LogLine> {
    if fs == [] then []
    else (if fs[0].Log? then [fs[0].line] else []) + LinesOf(fs[1..])
  }

  // ----- Browser -------------------------------------------------------------

  datatype Event = Event(kind: string, data: string)

  /** The parser between two characters: the line so far, whether the last character was a
      CR that a LF would complete, whether the stream has begun, the event's buffers, and
      the events dispatched. */
  datatype Parser = Parser(line: string, afterCr: bool, begun: bool, kind: string, data: string, events: seq<Event>)

  const BOM: char := 0xFEFF as char

  const START: Parser := Parser("", false, false, "", "", [])

  function Feed(p: Parser, c: char): Parser {
    if !p.begun && c == BOM then p.(begun := true)
    else if c == '\n' && p.afterCr then p.(afterCr := false)
    else if c == '\n' then EndLine(p)
    else if c == '\r' then EndLine(p).(afterCr := true)
    else p.(line := p.line + [c], afterCr := false, begun := true)
  }

  function EndLine(p: Parser): (q: Parser)
    ensures p.events <= q.events
  {
    var q := p.(line := "", afterCr := false, begun := true);
    if p.line == "" then Dispatch(q)
    else if p.line[0] == ':' then q
    else
      var i := IndexOf(p.line, ':');
      if i < |p.line| then Field(q, p.line[..i], AfterSpace(p.line[i + 1..]))
      else Field(q, p.line, "")
  }

  function AfterSpace(s: string): string {
    if s != [] && s[0] == ' ' then s[1..] else s
  }

  function Field(p: Parser, name: string, value: string): Parser {
    if name == "event" then p.(kind := value)
    else if name == "data" then p.(data := p.data + value + "\n")
    else p
  }

  function Dispatch(p: Parser): (q: Parser)
    ensures p.events <= q.events
  {
    if p.data == "" then p.(kind := "")
    else
      var kind := if p.kind == "" then "message" else p.kind;
      p.(kind := "", data := "", events := p.events + [Event(kind, p.data[..|p.data| - 1])])
  }

  function FeedAll(p: Parser, s: string): Parser {
    Folded(Feed, p, s)
  }

  // ----- Client --------------------------------------------------------------

  /** What `handle` passes to onLine: the parsed JSON, or the raw text in a stand-in line. */
  datatype Delivery = Parsed(value: Value) | Raw(text: string)

  function Handle(data: string): Delivery {
    match Parse(data)
    case Some(v) => Parsed(v)
    case None => Raw(data)
  }

  /** Listeners exist for `log` and for unnamed (`message`) events. */
  function DeliverOne(e: Event): seq<Delivery> {
    if e.kind == "log" || e.kind == "message" then [Handle(e.data)] else []
  }

  function Deliver(events: seq<Event>): seq<Delivery> {
    FlatMap(DeliverOne, events)
  }

  function Delivered(wire: string): seq<Delivery> {
    Deliver(FeedAll(START, wire).events)
  }

  /** onLine is given an object whose properties are those of the line. */
  predicate Carries(d: Delivery, l: LogLine) {
    && d.Parsed?
    && Prop(d.value, "channel") == Some(Str(if l.channel == Out then "out" else "err"))
    && Prop(d.value, "processName") == Some(Str(l.processName))
    && Prop(d.value, "pmId") == Some(Num(l.pmId))
    && Prop(d.value, "message") == Some(Str(l.message))
    && Prop(d.value, "timestamp") == Some(Num(l.timestamp))
  }

  predicate CarryAll(ds: seq<Delivery>, lines: seq<LogLine>) {
    |ds| == |lines| && forall i :: 0 <= i < |ds| ==> Carries(ds[i], lines[i])
  }

  lemma LineKeysDiffer(l: LogLine)
    ensures DistinctKeys(LineValue(l).members)
  {
    assert "channel"[0] != "message"[0];
    assert |"channel"| == 7 && |"processName"| == 11 && |"pmId"| == 4 && |"message"| == 7 && |"timestamp"| == 9;
  }

  lemma LineCarries(l: LogLine)
    ensures Carries(Parsed(LineValue(l)), l)
  {
    var ms := LineValue(l).members;
    LineKeysDiffer(l);
    DistinctProp(ms, 0);
    DistinctProp(ms, 1);
    DistinctProp(ms, 2);
    DistinctProp(ms, 3);
    DistinctProp(ms, 4);
  }

  lemma {:induction false} DeliveriesCarry(lines: seq<LogLine>)
    ensures CarryAll(Deliveries(lines), lines)
  {
    if lines != [] {
      LineCarries(lines[0]);
      DeliveriesCarry(lines[1..]);
    }
  }

  function Deliveries(lines: seq<LogLine>): seq<Delivery> {
    if lines == [] then [] else [Parsed(LineValue(lines[0]))] + Deliveries(lines[1..])
  }

  // ----- One frame at a time -------------------------------------------------

  lemma FeedConcat(p: Parser, s: string, t: string)
    ensures FeedAll(p, s + t) == FeedAll(FeedAll(p, s), t)
  {
    FoldedConcat(Feed, p, s, t);
  }

  predicate NoBreaks(s: string) {
    forall i :: 0 <= i < |s| ==> s[i] != '\n' && s[i] != '\r'
  }

  /** Characters other than line ends just extend the line. */
  lemma {:induction false} FeedPlain(p: Parser, s: string)
    requires NoBreaks(s) && s != []
    requires p.begun || s[0] != BOM
    ensures FeedAll(p, s) == p.(line := p.line + s, afterCr := false, begun := true)
    decreases |s|
  {
    var q := Feed(p, s[0]);
    if |s| == 1 {
      assert s == [s[0]];
      assert FeedAll(q, s[1..]) == q;
    } else {
      FeedPlain(q, s[1..]);
      assert p.line + [s[0]] + s[1..] == p.line + s;
    }
  }

  /** A whole line and its LF. */
  lemma FeedLine(p: Parser, s: string)
    requires NoBreaks(s) && s != [] && p.line == "" && s[0] != BOM
    ensures FeedAll(p, s + "\n") == EndLine(p.(line := s, afterCr := false, begun := true))
  {
    FeedPlain(p, s);
    FeedConcat(p, s, "\n");
    assert p.line + s == s;
    var q := FeedAll(p, s);
    assert FeedAll(q, "\n") == FeedAll(Feed(q, '\n'), "\n"[1..]);
    assert "\n"[1..] == "";
  }

  /** Written JSON has no line end in it: they are escaped inside strings. */
  lemma {:induction false} EscapedHasNoBreaks(s: string)
    ensures NoBreaks(EscapeAll(s))
  {
    if s != [] {
      EscapedHasNoBreaks(s[1..]);
      EscapeHasNoBreaks(s[0]);
    }
  }

  lemma EscapeHasNoBreaks(c: char)
    ensures NoBreaks(Escape(c))
  {
  }

  lemma {:induction false} WrittenHasNoBreaks(v: Value)
    ensures NoBreaks(Write(v))
    decreases v, 0
  {
    match v
    case Obj(ms) => MembersHaveNoBreaks(ms);
    case Str(s) => EscapedHasNoBreaks(s);
    case Num(n) => IntHasNoBreaks(n);
    case Bool(b) =>
    case Null =>
  }

  lemma IntHasNoBreaks(n: int)
    ensures NoBreaks(WriteInt(n))
  {
    var d := Dec(if n < 0 then -n else n);
    assert forall i :: 0 <= i < |d| ==> IsDigit(d[i]);
  }

  lemma {:induction false} MembersHaveNoBreaks(ms: seq<Member>)
    ensures NoBreaks(WriteMembers(ms))
    decreases ms, 1
  {
    if ms != [] {
      MemberHasNoBreaks(ms[0]);
      if |ms| > 1 {
        MembersHaveNoBreaks(ms[1..]);
      }
    }
  }

  lemma {:induction false} MemberHasNoBreaks(m: Member)
    ensures NoBreaks(WriteMember(m))
    decreases m, 1
  {
    EscapedHasNoBreaks(m.key);
    WrittenHasNoBreaks(m.value);
  }

  /** Between frames: at a line start with empty buffers. */
  predicate Idle(p: Parser) {
    p.line == "" && p.kind == "" && p.data == ""
  }

  function EventOf(f: Frame): seq<Event> {
    match f
    case Log(line) => [Event("message", Write(LineValue(line)))]
    case Ready => [Event("ready", "{}")]
    case Ping => []
  }

  lemma FeedBlank(p: Parser)
    requires p.line == "" && !p.afterCr
    ensures FeedAll(p, "\n") == Dispatch(p.(begun := true))
  {
    assert "\n"[1..] == "";
    assert FeedAll(p, "\n") == FeedAll(Feed(p, '\n'), "");
  }

  lemma {:induction false} IndexAfter(name: string, rest: string)
    requires ':' !in name
    ensures IndexOf(name + (":" + rest), ':') == |name|
  {
    var s := name + (":" + rest);
    if name != [] {
      assert s[0] == name[0] && name[0] in name;
      assert s[1..] == name[1..] + (":" + rest);
      IndexAfter(name[1..], rest);
    } else {
      assert s == ":" + rest;
    }
  }

  lemma EndField(p: Parser, name: string, value: string)
    requires name != [] && ':' !in name && p.line == name + (":" + (" " + value))
    ensures EndLine(p) == Field(p.(line := "", afterCr := false, begun := true), name, value)
  {
    var s := p.line;
    IndexAfter(name, " " + value);
    assert s[0] == name[0] && name[0] in name;
    assert s[..|name|] == name;
    assert s[|name| + 1..] == " " + value;
    assert (" " + value)[1..] == value;
  }

  /** A line `name: value` sets that field. */
  lemma FeedField(p: Parser, name: string, value: string)
    requires p.line == "" && name != [] && ':' !in name && name[0] != BOM
    requires NoBreaks(name) && NoBreaks(value)
    ensures FeedAll(p, name + (":" + (" " + value)) + "\n") == Field(p.(afterCr := false, begun := true), name, value)
  {
    var s := name + (":" + (" " + value));
    assert NoBreaks(s) && s[0] == name[0];
    FeedLine(p, s);
    EndField(p.(line := s, afterCr := false, begun := true), name, value);
  }

  lemma FeedData(p: Parser, payload: string)
    requires p.line == "" && NoBreaks(payload)
    ensures FeedAll(p, "data: " + payload + "\n") ==
            p.(afterCr := false, begun := true, data := p.data + payload + "\n")
  {
    FeedField(p, "data", payload);
    assert "data" + (":" + (" " + payload)) == "data: " + payload;
  }

  /** A data line and a blank line dispatch one event and leave the parser idle. */
  lemma FeedPayload(p: Parser, payload: string)
    requires p.line == "" && p.data == "" && NoBreaks(payload)
    ensures var q := FeedAll(p, "data: " + payload + "\n\n");
            Idle(q) && q.events == p.events + [Event(if p.kind == "" then "message" else p.kind, payload)]
  {
    var line := "data: " + payload + "\n";
    FeedData(p, payload);
    var q := FeedAll(p, line);
    assert "data: " + payload + "\n\n" == line + "\n";
    FeedConcat(p, line, "\n");
    FeedBlank(q);
    assert q.data == payload + "\n" && q.data[..|q.data| - 1] == payload;
  }

  lemma FeedLog(p: Parser, line: LogLine)
    requires Idle(p)
    ensures var q := FeedAll(p, FrameText(Log(line)));
            Idle(q) && q.events == p.events + EventOf(Log(line))
  {
    WrittenHasNoBreaks(LineValue(line));
    FeedPayload(p, Write(LineValue(line)));
  }

  lemma FeedReady(p: Parser)
    requires Idle(p)
    ensures var q := FeedAll(p, FrameText(Ready));
            Idle(q) && q.events == p.events + EventOf(Ready)
  {
    var first := "event" + (":" + (" " + "ready")) + "\n";
    var second := "data: " + "{}" + "\n\n";
    ReadyText();
    FeedConcat(p, first, second);
    FeedField(p, "event", "ready");
    FeedPayload(FeedAll(p, first), "{}");
  }

  lemma ReadyText()
    ensures FrameText(Ready) == ("event" + (":" + (" " + "ready")) + "\n") + ("data: " + "{}" + "\n\n")
  {
  }

  lemma FeedPing(p: Parser)
    requires Idle(p)
    ensures var q := FeedAll(p, FrameText(Ping));
            Idle(q) && q.events == p.events + EventOf(Ping)
  {
    var line := ": ping" + "\n";
    assert FrameText(Ping) == line + "\n";
    FeedComment(p, ": ping");
    FeedConcat(p, line, "\n");
    FeedBlank(FeedAll(p, line));
  }

  lemma FeedComment(p: Parser, s: string)
    requires p.line == "" && s != [] && s[0] == ':' && NoBreaks(s)
    ensures FeedAll(p, s + "\n") == p.(afterCr := false, begun := true)
  {
    FeedLine(p, s);
  }

  lemma FeedFrame(p: Parser, f: Frame)
    requires Idle(p)
    ensures var q := FeedAll(p, FrameText(f));
            Idle(q) && q.events == p.events + EventOf(f)
  {
    match f
    case Log(line) => FeedLog(p, line);
    case Ready => FeedReady(p);
    case Ping => FeedPing(p);
  }

  // ----- The whole stream ----------------------------------------------------

  function EventsOf(fs: seq<Frame>): seq<Event> {
    if fs == [] then [] else EventOf(fs[0]) + EventsOf(fs[1..])
  }

  lemma {:induction false} FeedFrames(p: Parser, fs: seq<Frame>)
    requires Idle(p)
    ensures FeedAll(p, Wire(fs)).events == p.events + EventsOf(fs)
    decreases |fs|
  {
    if fs != [] {
      FeedFrame(p, fs[0]);
      FeedConcat(p, FrameText(fs[0]), Wire(fs[1..]));
      FeedFrames(FeedAll(p, FrameText(fs[0])), fs[1..]);
    }
  }

  lemma DeliverFrame(f: Frame)
    ensures Deliver(EventOf(f)) == if f.Log? then [Parsed(LineValue(f.line))] else []
  {
    if f.Log? {
      ParseWrite(LineValue(f.line));
    }
    var es := EventOf(f);
    if es != [] {
      assert es[1..] == [];
      assert Deliver(es) == DeliverOne(es[0]) + FlatMap(DeliverOne, es[1..]);
    }
  }

  lemma {:induction false} DeliverFrames(fs: seq<Frame>)
    ensures Deliver(EventsOf(fs)) == Deliveries(LinesOf(fs))
  {
    if fs != [] {
      DeliverFrames(fs[1..]);
      FlatMapConcat(DeliverOne, EventOf(fs[0]), EventsOf(fs[1..]));
      DeliverFrame(fs[0]);
      if fs[0].Log? {
        var lines := LinesOf(fs);
        assert lines == [fs[0].line] + LinesOf(fs[1..]);
        assert lines[0] == fs[0].line && lines[1..] == LinesOf(fs[1..]);
      } else {
        assert LinesOf(fs) == LinesOf(fs[1..]);
      }
    }
  }

  /** Whatever the log messages contain and however ready frames and pings are mixed in,
      the client's callback gets exactly the logged lines, in order, each as an object with
      the line's channel, process name, id, message and time. */
  lemma StreamRoundTrip(fs: seq<Frame>)
    ensures Delivered(Wire(fs)) == Deliveries(LinesOf(fs))
    ensures CarryAll(Delivered(Wire(fs)), LinesOf(fs))
  {
    FeedFrames(START, fs);
    assert [] + EventsOf(fs) == EventsOf(fs);
    DeliverFrames(fs);
    DeliveriesCarry(LinesOf(fs));
  }

  lemma {:induction false} EventsOnlyGrow(p: Parser, s: string)
    ensures p.events <= FeedAll(p, s).events
    decreases |s|
  {
    if s != [] {
      EventsOnlyGrow(Feed(p, s[0]), s[1..]);
      FeedAppends(p, s[0]);
    }
  }

  lemma FeedAppends(p: Parser, c: char)
    ensures p.events <= Feed(p, c).events
  {
  }

  lemma CutTextDeliversPrefix(fs: seq<Frame>, m: nat)
    requires m <= |Wire(fs)|
    ensures Delivered(Wire(fs)[..m]) <= Deliveries(LinesOf(fs))
  {
    var head, tail := Wire(fs)[..m], Wire(fs)[m..];
    assert Wire(fs) == head + tail;
    FeedConcat(START, head, tail);
    EventsOnlyGrow(FeedAll(START, head), tail);
    DeliverPrefix(FeedAll(START, head).events, FeedAll(START, Wire(fs)).events);
    StreamRoundTrip(fs);
  }

  /** The same with the bytes of the connection in between. */
  lemma BytesRoundTrip(fs: seq<Frame>)
    ensures Delivered(Decode(Encode(Wire(fs)))) == Deliveries(LinesOf(fs))
    ensures CarryAll(Delivered(Decode(Encode(Wire(fs)))), LinesOf(fs))
  {
    DecodeEncode(Wire(fs));
    StreamRoundTrip(fs);
  }

  /** A connection cut after any number of bytes, also inside a character, has delivered a
      prefix of the lines: nothing partial, nothing out of order. */
  lemma CutStreamDeliversPrefix(fs: seq<Frame>, n: nat)
    requires n <= |Encode(Wire(fs))|
    ensures var got := Delivered(Decode(Encode(Wire(fs))[..n]));
      && got <= Deliveries(LinesOf(fs))
      && |got| <= |LinesOf(fs)| && CarryAll(got, LinesOf(fs)[..|got|])
  {
    var m, r := DecodeCut(Wire(fs), n);
    CutTextDeliversPrefix(fs, m);
    FeedConcat(START, Wire(fs)[..m], r);
    if r != "" {
      FeedPlain(FeedAll(START, Wire(fs)[..m]), r);
    }
    DeliveriesCarry(LinesOf(fs));
    CarryPrefix(Delivered(Decode(Encode(Wire(fs))[..n])), Deliveries(LinesOf(fs)), LinesOf(fs));
  }

  lemma CarryPrefix(got: seq<Delivery>, all: seq<Delivery>, lines: seq<LogLine>)
    requires got <= all && CarryAll(all, lines)
    ensures |got| <= |lines| && CarryAll(got, lines[..|got|])
  {
  }

  lemma DeliverPrefix(a: seq<Event>, b: seq<Event>)
    requires a <= b
    ensures Deliver(a) <= Deliver(b)
  {
    assert b == a + b[|a|..];
    FlatMapConcat(DeliverOne, a, b[|a|..]);
  }
}
