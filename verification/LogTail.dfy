// readTailLines reads at most the last 128 KiB of a log file and returns up to 100
// non-empty lines. The specification is the simple reader: all non-empty lines of the file.
module LogTail {
  import opened Text
  import opened Utf8
  import opened EventStream

  const BACKLOG_LINES: nat := 100
  const BACKLOG_TAIL_BYTES: nat := 131072

  // ----- The simple reader ---------------------------------------------------

  function StripLast<T(==)>(s: seq<T>, x: T): seq<T> {
    if s != [] && s[|s| - 1] == x then s[..|s| - 1] else s
  }

  /** split(/\r?\n/) for the given line feed and carriage return. */
  function Split<T(==)>(s: seq<T>, lf: T, cr: T): (r: seq<seq<T>>)
    ensures r != []
  {
    var i := IndexOf(s, lf);
    if i == |s| then [s] else [StripLast(s[..i], cr)] + Split(s[i + 1..], lf, cr)
  }

  function NonEmpty<T>(ls: seq<seq<T>>): seq<seq<T>> {
    if ls == [] then []
    else (if |ls[0]| > 0 then [ls[0]] else []) + NonEmpty(ls[1..])
  }

  function Lines<T(==)>(s: seq<T>, lf: T, cr: T): seq<seq<T>> {
    NonEmpty(Split(s, lf, cr))
  }

  /** slice(-n). */
  function Last<T>(s: seq<T>, n: nat): (r: seq<T>)
    ensures |r| == (if |s| <= n then |s| else n) && IsSuffix(r, s)
  {
    if |s| <= n then s else s[|s| - n..]
  }

  predicate IsSuffix<T(==)>(a: seq<T>, b: seq<T>) {
    |a| <= |b| && a == b[|b| - |a|..]
  }

  /** The non-empty lines of a file, as text. */
  function FileLines(file: seq<Byte>): seq<string> {
    Lines(Decode(file), '\n', '\r')
  }

  // ----- The bounded reader --------------------------------------------------

  /** What is kept of a window that starts at byte `start`: mid-file, the first of its
      non-empty lines is dropped as likely partial. */
  function Kept(file: seq<Byte>, start: nat): seq<string>
    requires start <= |file|
  {
    var lines := FileLines(file[start..]);
    if start > 0 && lines != [] then lines[1..] else lines
  }

  function TailFrom(file: seq<Byte>, start: nat): seq<string>
    requires start <= |file|
  {
    Last(Kept(file, start), BACKLOG_LINES)
  }

  function WindowStart(size: nat): nat {
    if size > BACKLOG_TAIL_BYTES then size - BACKLOG_TAIL_BYTES else 0
  }

  function TailLines(file: seq<Byte>): seq<string> {
    TailFrom(file, WindowStart(|file|))
  }

  /** The window is the end of the file, all of it if it fits, and never larger than 128 KiB. */
  lemma WindowIsTail(size: nat)
    ensures WindowStart(size) <= size
    ensures size - WindowStart(size) == if size <= 131072 then size else 131072
  {
  }

  /** Opens, reads the window into a buffer, decodes, splits, filters, drops, slices.
      `None` is a file that cannot be opened or read. */
  method ReadTailLines(file: Option<seq<Byte>>) returns (lines: seq<string>)
    ensures lines == if file.None? then [] else TailLines(file.value)
  {
    if file.None? {
      return [];
    }
    var size := |file.value|;
    var start := if size - BACKLOG_TAIL_BYTES > 0 then size - BACKLOG_TAIL_BYTES else 0;
    var length := size - start;
    if length <= 0 {
      assert file.value[0..] == [];
      return [];
    }
    var buffer := new Byte[length];
    Read(file.value, buffer, start);
    lines := FilterNonEmpty(Split(Decode(buffer[..]), '\n', '\r'));
    assert lines == FileLines(file.value[start..]);
    if start > 0 && |lines| > 0 {
      lines := lines[1..];
    }
    assert lines == Kept(file.value, start) && start == WindowStart(size);
    if |lines| > BACKLOG_LINES {
      lines := lines[|lines| - BACKLOG_LINES..];
    }
  }

  /** handle.read(buffer, 0, length, start), reading the full length. */
  method Read(file: seq<Byte>, buffer: array<Byte>, start: nat)
    requires start + buffer.Length == |file|
    modifies buffer
    ensures buffer[..] == file[start..]
  {
    var k := 0;
    while k < buffer.Length
      invariant 0 <= k <= buffer.Length
      invariant forall j :: 0 <= j < k ==> buffer[j] == file[start + j]
    {
      buffer[k] := file[start + k];
      k := k + 1;
    }
  }

  method FilterNonEmpty(pieces: seq<string>) returns (lines: seq<string>)
    ensures lines == NonEmpty(pieces)
  {
    lines := [];
    var i := 0;
    while i < |pieces|
      invariant 0 <= i <= |pieces|
      invariant lines + NonEmpty(pieces[i..]) == NonEmpty(pieces)
    {
      if |pieces[i]| > 0 {
        lines := lines + [pieces[i]];
      }
      i := i + 1;
    }
  }

  // ----- Lines of bytes and lines of text ------------------------------------

  function DecodeEach(ls: seq<seq<Byte>>): (r: seq<string>)
    ensures |r| == |ls|
    ensures forall i :: 0 <= i < |ls| ==> r[i] == Decode(ls[i])
  {
    seq(|ls|, i requires 0 <= i < |ls| => Decode(ls[i]))
  }

  lemma DecodeStripped(b: seq<Byte>)
    ensures StripLast(Decode(b), '\r') == Decode(StripLast(b, CR))
  {
    if b != [] && b[|b| - 1] == CR {
      var a := b[..|b| - 1];
      assert b == a + [CR] + [];
      DecodeSplits(a, CR, []);
      assert Decode(b)[..|Decode(b)| - 1] == Decode(a);
    } else {
      LastCr(b);
    }
  }

  /** Text ends in a carriage return only if the bytes do. */
  lemma {:induction false} LastCr(b: seq<Byte>)
    requires b == [] || b[|b| - 1] != CR
    ensures Decode(b) == "" || Decode(b)[|Decode(b)| - 1] != '\r'
    decreases |b|
  {
    if b != [] {
      var n := DecodeOne(b).used;
      if n == |b| {
        assert Decode(b) == [DecodeOne(b).c];
        if DecodeOne(b).c == '\r' {
          DecodeOneAscii(b, CR);
        }
      } else {
        LastCr(b[n..]);
        assert Decode(b[n..]) != "";
      }
    }
  }

  lemma {:induction false} DecodedSplit(b: seq<Byte>)
    ensures Split(Decode(b), '\n', '\r') == DecodeEach(Split(b, LF, CR))
    decreases |b|
  {
    var i := IndexOf(b, LF);
    if i == |b| {
      DecodeMakesNoAscii(b, LF);
      SplitNone(b, LF, CR);
      SplitNone(Decode(b), '\n', '\r');
    } else {
      var head, rest := b[..i], b[i + 1..];
      assert b == head + [LF] + rest;
      DecodeSplits(head, LF, rest);
      DecodeMakesNoAscii(head, LF);
      SplitStep(head, LF, CR, rest);
      SplitStep(Decode(head), '\n', '\r', Decode(rest));
      DecodeStripped(head);
      DecodedSplit(rest);
      DecodeEachCons(StripLast(head, CR), Split(rest, LF, CR));
    }
  }

  lemma DecodeEachCons(l: seq<Byte>, ls: seq<seq<Byte>>)
    ensures DecodeEach([l] + ls) == [Decode(l)] + DecodeEach(ls)
  {
  }

  lemma FirstIndex<T>(a: seq<T>, x: T, b: seq<T>)
    requires x !in a
    ensures IndexOf(a + [x] + b, x) == |a|
  {
    var s := a + [x] + b;
    assert s[|a|] == x;
    forall j | 0 <= j < |a| ensures s[j] != x {
      assert s[j] == a[j];
    }
  }

  lemma SplitNone<T>(s: seq<T>, lf: T, cr: T)
    requires lf !in s
    ensures Split(s, lf, cr) == [s]
  {
    assert IndexOf(s, lf) == |s|;
  }

  lemma SplitStep<T>(head: seq<T>, lf: T, cr: T, rest: seq<T>)
    requires lf !in head
    ensures Split(head + [lf] + rest, lf, cr) == [StripLast(head, cr)] + Split(rest, lf, cr)
  {
    var s := head + [lf] + rest;
    FirstIndex(head, lf, rest);
    assert s[..|head|] == head && s[|head| + 1..] == rest;
  }

  lemma {:induction false} DecodedNonEmpty(ls: seq<seq<Byte>>)
    ensures NonEmpty(DecodeEach(ls)) == DecodeEach(NonEmpty(ls))
    decreases |ls|
  {
    if ls != [] {
      DecodedNonEmpty(ls[1..]);
      assert DecodeEach(ls)[1..] == DecodeEach(ls[1..]);
      assert Decode(ls[0]) == "" <==> ls[0] == [];
    }
  }

  /** Cutting into lines commutes with decoding, for any bytes at all. */
  lemma LinesDecode(b: seq<Byte>)
    ensures FileLines(b) == DecodeEach(Lines(b, LF, CR))
  {
    DecodedSplit(b);
    DecodedNonEmpty(Split(b, LF, CR));
  }

  // ----- What the lines of a text file are -----------------------------------

  /** A line as a program writes it: its text, then CRLF or a bare LF. */
  datatype Written = Written(text: string, crlf: bool)

  /** Lines written one after another, and a last one that is not terminated (or is empty). */
  function FileText(ws: seq<Written>, last: string): string {
    if ws == [] then last
    else ws[0].text + (if ws[0].crlf then "\r\n" else "\n") + FileText(ws[1..], last)
  }

  /** No line feed inside and no carriage return at the end. */
  predicate Clean(text: string) {
    (forall i :: 0 <= i < |text| ==> text[i] != '\n') && (text != "" ==> text[|text| - 1] != '\r')
  }

  /** The texts that are not empty, in order. */
  function Texts(ws: seq<Written>, last: string): seq<string> {
    if ws == [] then (if |last| == 0 then [] else [last])
    else if |ws[0].text| == 0 then Texts(ws[1..], last)
    else [ws[0].text] + Texts(ws[1..], last)
  }

  lemma CleanLine(w: Written)
    requires Clean(w.text)
    ensures var head := w.text + (if w.crlf then "\r" else "");
      '\n' !in head && FirstLine(head, '\r') == if |w.text| == 0 then [] else [w.text]
  {
    var head := w.text + (if w.crlf then "\r" else "");
    OneLine(head, '\r');
    if w.crlf {
      assert head[..|head| - 1] == w.text;
    } else {
      assert head == w.text;
    }
  }

  lemma WrittenHead(w: Written, rest: string)
    ensures w.text + (if w.crlf then "\r\n" else "\n") + rest ==
      (w.text + (if w.crlf then "\r" else "")) + ['\n'] + rest
  {
    assert "\r\n" == "\r" + ['\n'];
    ConcatAssoc(w.text, "\r", ['\n']);
    assert w.text + "" == w.text;
  }

  lemma LastPiece(last: string)
    requires '\n' !in last
    ensures Lines(last, '\n', '\r') == if |last| == 0 then [] else [last]
  {
    SplitNone(last, '\n', '\r');
    var one := [last];
    assert one[1..] == [] && NonEmpty(one[1..]) == [];
  }

  lemma {:induction false} LinesOfText(ws: seq<Written>, last: string)
    requires (forall i :: 0 <= i < |ws| ==> Clean(ws[i].text)) && '\n' !in last
    ensures Lines(FileText(ws, last), '\n', '\r') == Texts(ws, last)
    decreases |ws|
  {
    if ws == [] {
      LastPiece(last);
    } else {
      LinesOfText(ws[1..], last);
      WrittenHead(ws[0], FileText(ws[1..], last));
      CleanLine(ws[0]);
      LinesStep(ws[0].text + (if ws[0].crlf then "\r" else ""), '\n', '\r', FileText(ws[1..], last));
    }
  }

  /** The lines of a file written in UTF-8 are its non-empty texts, in order, whichever line
      ends it uses. */
  lemma FileLinesAreTexts(ws: seq<Written>, last: string)
    requires (forall i :: 0 <= i < |ws| ==> Clean(ws[i].text)) && '\n' !in last
    ensures FileLines(Encode(FileText(ws, last))) == Texts(ws, last)
  {
    DecodeEncode(FileText(ws, last));
    LinesOfText(ws, last);
  }

  /** So the reader gives the last hundred of them, if the file fits the window. */
  lemma SmallTextFile(ws: seq<Written>, last: string)
    requires (forall i :: 0 <= i < |ws| ==> Clean(ws[i].text)) && '\n' !in last
    requires |Encode(FileText(ws, last))| <= 131072
    ensures var all, got := Texts(ws, last), TailLines(Encode(FileText(ws, last)));
      && |got| == (if |all| <= 100 then |all| else 100)
      && got == all[|all| - |got|..]
  {
    FileLinesAreTexts(ws, last);
    SmallFileIsExact(Encode(FileText(ws, last)));
  }

  // ----- Cutting a file at any byte ------------------------------------------

  lemma NonEmptyCons<T>(l: seq<T>, s: seq<seq<T>>)
    ensures NonEmpty([l] + s) == (if |l| > 0 then [l] else []) + NonEmpty(s)
  {
    assert ([l] + s)[0] == l && ([l] + s)[1..] == s;
  }

  lemma {:induction false} NonEmptyConcat<T>(a: seq<seq<T>>, b: seq<seq<T>>)
    ensures NonEmpty(a + b) == NonEmpty(a) + NonEmpty(b)
    decreases |a|
  {
    if a == [] {
      assert a + b == b;
    } else {
      NonEmptyConcat(a[1..], b);
      NonEmptyCons(a[0], a[1..]);
      NonEmptyCons(a[0], a[1..] + b);
      assert a == [a[0]] + a[1..];
      ConcatAssoc([a[0]], a[1..], b);
      ConcatAssoc(if |a[0]| > 0 then [a[0]] else [], NonEmpty(a[1..]), NonEmpty(b));
    }
  }

  /** The line a terminated piece without line feeds contributes: one or none. */
  function FirstLine<T(==)>(head: seq<T>, cr: T): seq<seq<T>> {
    NonEmpty([StripLast(head, cr)])
  }

  lemma OneLine<T>(head: seq<T>, cr: T)
    ensures FirstLine(head, cr) == if StripLast(head, cr) == [] then [] else [StripLast(head, cr)]
  {
    var one := [StripLast(head, cr)];
    assert one[1..] == [];
    assert NonEmpty(one[1..]) == [];
  }

  lemma LinesStep<T>(head: seq<T>, lf: T, cr: T, rest: seq<T>)
    requires lf !in head
    ensures Lines(head + [lf] + rest, lf, cr) == FirstLine(head, cr) + Lines(rest, lf, cr)
    ensures |FirstLine(head, cr)| <= 1
  {
    SplitStep(head, lf, cr, rest);
    NonEmptyConcat([StripLast(head, cr)], Split(rest, lf, cr));
  }

  lemma LinesOfNothing<T>(lf: T, cr: T)
    ensures Lines<T>([], lf, cr) == []
  {
    SplitNone<T>([], lf, cr);
    var none: seq<seq<T>> := [[]];
    assert NonEmpty(none) == NonEmpty(none[1..]);
  }

  lemma Regroup<T>(head: seq<T>, lf: T, rest: seq<T>, b: seq<T>)
    ensures (head + [lf] + rest) + [lf] + b == head + [lf] + (rest + [lf] + b)
  {
  }

  /** The lines of a file are those up to any line feed and those after it. */
  lemma {:induction false} LinesAcross<T>(a: seq<T>, lf: T, cr: T, b: seq<T>)
    ensures Lines(a + [lf] + b, lf, cr) == Lines(a + [lf], lf, cr) + Lines(b, lf, cr)
    decreases |a|
  {
    var i := IndexOf(a, lf);
    if i == |a| {
      LinesStep(a, lf, cr, b);
      LinesStep(a, lf, cr, []);
      LinesOfNothing(lf, cr);
      assert a + [lf] + [] == a + [lf];
    } else {
      var head, rest := a[..i], a[i + 1..];
      assert a == head + [lf] + rest;
      Regroup(head, lf, rest, b);
      LinesStep(head, lf, cr, rest + [lf] + b);
      assert a + [lf] == head + [lf] + (rest + [lf]);
      LinesStep(head, lf, cr, rest + [lf]);
      LinesAcross(rest, lf, cr, b);
      ConcatAssoc(FirstLine(head, cr), Lines(rest + [lf], lf, cr), Lines(b, lf, cr));
    }
  }

  lemma {:induction false} NonEmptyLength<T>(ls: seq<seq<T>>)
    ensures |NonEmpty(ls)| <= |ls|
  {
    if ls != [] {
      NonEmptyLength(ls[1..]);
    }
  }

  /** A line that is not blank where it is cut is not blank as a whole. */
  lemma {:induction false} FragmentOfLine<T>(a: seq<T>, start: nat, lf: T, cr: T)
    requires start <= |a| && lf !in a[start..] && lf != cr
    requires FirstLine(a[start..], cr) != []
    ensures Lines(a + [lf], lf, cr) != []
    decreases |a|
  {
    var i := IndexOf(a, lf);
    if i == |a| {
      LinesStep(a, lf, cr, []);
      assert a + [lf] + [] == a + [lf];
      LinesOfNothing(lf, cr);
      NotBlank(a, start, cr);
    } else {
      var head, rest := a[..i], a[i + 1..];
      forall k | start <= k < |a| ensures a[k] != lf {
        assert a[k] == a[start..][k - start];
      }
      assert i < start;
      assert a + [lf] == head + [lf] + (rest + [lf]);
      LinesStep(head, lf, cr, rest + [lf]);
      assert rest[start - i - 1..] == a[start..];
      FragmentOfLine(rest, start - i - 1, lf, cr);
    }
  }

  lemma NotBlank<T>(a: seq<T>, start: nat, cr: T)
    requires start <= |a| && FirstLine(a[start..], cr) != []
    ensures FirstLine(a, cr) != []
  {
    var f := a[start..];
    OneLine(f, cr);
    OneLine(a, cr);
    assert |f| >= 1 && a[|a| - 1] == f[|f| - 1];
  }

  // ----- The bounded reader against the simple one ---------------------------

  /** Byte lines kept of the window. */
  function KeptBytes(file: seq<Byte>, start: nat): seq<seq<Byte>>
    requires start <= |file|
  {
    var lines := Lines(file[start..], LF, CR);
    if start > 0 && lines != [] then lines[1..] else lines
  }

  lemma KeptDecodes(file: seq<Byte>, start: nat)
    requires start <= |file|
    ensures Kept(file, start) == DecodeEach(KeptBytes(file, start))
  {
    LinesDecode(file[start..]);
  }

  /** Mid-file, wherever the cut falls (inside a line, a CRLF or a character, or on a
      boundary), what is kept is a proper suffix of the file's lines. */
  lemma CutKeepsSuffix(file: seq<Byte>, start: nat)
    requires 0 < start <= |file|
    ensures IsSuffix(KeptBytes(file, start), Lines(file, LF, CR))
    ensures Lines(file, LF, CR) != [] ==> |KeptBytes(file, start)| < |Lines(file, LF, CR)|
  {
    var w := file[start..];
    var p := IndexOf(w, LF);
    if p == |w| {
      SplitNone(w, LF, CR);
      NonEmptyLength(Split(w, LF, CR));
    } else {
      var a, fragment, c := file[..start + p], w[..p], w[p + 1..];
      assert w == fragment + [LF] + c && file == a + [LF] + c && a[start..] == fragment;
      LinesStep(fragment, LF, CR, c);
      LinesAcross(a, LF, CR, c);
      if FirstLine(fragment, CR) != [] {
        FragmentOfLine(a, start, LF, CR);
      }
      DropFirst(FirstLine(fragment, CR), Lines(a + [LF], LF, CR), Lines(c, LF, CR));
    }
  }

  lemma DropFirst<T>(first: seq<T>, before: seq<T>, after: seq<T>)
    requires |first| <= 1 && (first != [] ==> before != [])
    ensures var w := first + after;
            var kept := if w != [] then w[1..] else w;
            IsSuffix(kept, before + after) && (before + after != [] ==> |kept| < |before + after|)
  {
  }

  lemma DecodeSuffix(a: seq<seq<Byte>>, b: seq<seq<Byte>>)
    requires IsSuffix(a, b)
    ensures IsSuffix(DecodeEach(a), DecodeEach(b))
  {
  }

  lemma SuffixTransitive<T>(a: seq<T>, b: seq<T>, c: seq<T>)
    requires IsSuffix(a, b) && IsSuffix(b, c)
    ensures IsSuffix(a, c)
  {
  }

  /** For every file and every cut the result is a suffix of the file's non-empty lines,
      at most 100 of them. */
  lemma TailIsSuffix(file: seq<Byte>, start: nat)
    requires start <= |file|
    ensures IsSuffix(TailFrom(file, start), FileLines(file)) && |TailFrom(file, start)| <= BACKLOG_LINES
  {
    KeptDecodes(file, start);
    LinesDecode(file);
    if start > 0 {
      CutKeepsSuffix(file, start);
      DecodeSuffix(KeptBytes(file, start), Lines(file, LF, CR));
    } else {
      assert file[0..] == file;
    }
    SuffixTransitive(TailFrom(file, start), Kept(file, start), FileLines(file));
  }

  /** The result is exactly the last 100 non-empty lines if and only if nothing was cut
      off, or the window shows at least 101 non-empty lines, or the file has none. */
  lemma TailIsExactWhen(file: seq<Byte>, start: nat)
    requires start <= |file|
    ensures TailFrom(file, start) == Last(FileLines(file), BACKLOG_LINES) <==>
      start == 0 || |FileLines(file[start..])| > BACKLOG_LINES || FileLines(file) == []
  {
    TailIsSuffix(file, start);
    if start == 0 {
      assert file[0..] == file;
    } else {
      KeptDecodes(file, start);
      LinesDecode(file);
      CutKeepsSuffix(file, start);
      DecodeSuffix(KeptBytes(file, start), Lines(file, LF, CR));
      LastOfSuffix(Kept(file, start), FileLines(file), BACKLOG_LINES);
    }
  }

  lemma LastOfSuffix<T>(a: seq<T>, b: seq<T>, n: nat)
    requires IsSuffix(a, b) && n > 0 && (b != [] ==> |a| < |b|)
    ensures Last(a, n) == Last(b, n) <==> |a| >= n || b == []
  {
    if |a| >= n {
      assert Last(a, n) == Last(b, n);
    }
  }

  lemma DecodedConcat(a: seq<seq<Byte>>, b: seq<seq<Byte>>)
    ensures DecodeEach(a + b) == DecodeEach(a) + DecodeEach(b)
  {
  }

  /** A cut right after a line feed leaves whole lines on both sides, and still the first
      line of the window is dropped. */
  lemma BoundaryCutDropsWholeLine(a: seq<Byte>, w: seq<Byte>)
    ensures var file, start := a + [LF] + w, |a| + 1;
      && FileLines(file) == FileLines(a + [LF]) + FileLines(w)
      && Kept(file, start) == if FileLines(w) == [] then [] else FileLines(w)[1..]
  {
    var file, start := a + [LF] + w, |a| + 1;
    assert file[start..] == w;
    LinesAcross(a, LF, CR, w);
    LinesDecode(file);
    LinesDecode(a + [LF]);
    LinesDecode(w);
    DecodedConcat(Lines(a + [LF], LF, CR), Lines(w, LF, CR));
  }

  /** Such a file: a line feed and then one line that fills the window. Nothing of the line is
      cut off, and yet the reader gives no line at all. */
  lemma OneFullLineIsLost(body: seq<Byte>)
    requires |body| == BACKLOG_TAIL_BYTES && LF !in body && body[|body| - 1] != CR
    ensures FileLines([LF] + body) == [Decode(body)] && TailLines([LF] + body) == []
  {
    var none: seq<Byte> := [];
    var file := none + [LF] + body;
    assert file == [LF] + body;
    BoundaryCutDropsWholeLine(none, body);
    OneLineOnly(body);
    LoneLineFeed();
    TailOfOne(file);
  }

  lemma LoneLineFeed()
    ensures FileLines([] + [LF]) == []
  {
    LinesDecode([] + [LF]);
    LinesStep([], LF, CR, []);
    LinesOfNothing(LF, CR);
    OneLine<Byte>([], CR);
    assert [] + [LF] + [] == [] + [LF];
  }

  lemma TailOfOne(file: seq<Byte>)
    requires |file| == BACKLOG_TAIL_BYTES + 1 && |Kept(file, 1)| == 0
    ensures TailLines(file) == []
  {
  }

  lemma OneLineOnly(body: seq<Byte>)
    requires body != [] && LF !in body && body[|body| - 1] != CR
    ensures FileLines(body) == [Decode(body)]
  {
    LinesDecode(body);
    SplitNone(body, LF, CR);
    var one := [body];
    assert one[1..] == [] && NonEmpty(one[1..]) == [];
  }

  /** A file that fits the window is read exactly. */
  lemma SmallFileIsExact(file: seq<Byte>)
    requires |file| <= BACKLOG_TAIL_BYTES
    ensures TailLines(file) == Last(FileLines(file), BACKLOG_LINES)
  {
    TailIsExactWhen(file, 0);
  }

  // ----- Replaying the backlog -----------------------------------------------

  /** A log file of the process: `NoPath` when the process has none. */
  datatype Source = NoPath | Path(file: Option<seq<Byte>>)

  function SourceLines(s: Source): seq<string> {
    if s.NoPath? || s.file.None? then [] else TailLines(s.file.value)
  }

  /** The frames for `lines`; the clock gives the time of each write. */
  function BacklogFrames(channel: Channel, name: string, pmId: int, lines: seq<string>, clock: nat -> int,
                         k: nat): seq<Frame> {
    seq(|lines|, i requires 0 <= i < |lines| => Log(LogLine(channel, name, pmId, lines[i], clock(k + i))))
  }

  method ReadSource(s: Source) returns (lines: seq<string>)
    ensures lines == SourceLines(s)
    ensures lines == match s case Path(Some(file)) => TailLines(file) case _ => []
  {
    if s.NoPath? {
      return [];
    }
    lines := ReadTailLines(s.file);
  }

  function Backlog(out: seq<string>, err: seq<string>, name: string, pmId: int, clock: nat -> int): seq<Frame> {
    BacklogFrames(Channel.Out, name, pmId, out, clock, 0)
    + BacklogFrames(Channel.Err, name, pmId, err, clock, |out|)
  }

  /** What happens after `ready`: a log line is emitted for some process, or time passes. */
  datatype Occurrence = Line(line: LogLine) | Heartbeat

  function Reaction(o: Occurrence, name: string, pmId: int): seq<Frame> {
    match o
    case Heartbeat => [Ping]
    case Line(line) => if line.pmId == pmId || line.processName == name then [Log(line)] else []
  }

  function LiveFrames(live: seq<Occurrence>, name: string, pmId: int): seq<Frame> {
    if live == [] then [] else LiveFrames(live[..|live| - 1], name, pmId) + Reaction(live[|live| - 1], name, pmId)
  }

  function StreamFrames(out: Source, err: Source, name: string, pmId: int, clock: nat -> int,
                        live: seq<Occurrence>): seq<Frame> {
    Backlog(SourceLines(out), SourceLines(err), name, pmId, clock) + [Ready] + LiveFrames(live, name, pmId)
  }

  lemma WireOne(f: Frame)
    ensures Wire([f]) == FrameText(f)
  {
    var one := [f];
    assert one[1..] == [];
    assert FlatMap(FrameText, one[1..]) == "";
  }

  lemma SentSoFar(was: string, a: seq<Frame>, b: seq<Frame>)
    ensures (was + Wire(a)) + Wire(b) == was + Wire(a + b)
  {
    FlatMapConcat(FrameText, a, b);
    ConcatAssoc(was, Wire(a), Wire(b));
  }

  class Response {
    var sent: string

    constructor ()
      ensures sent == ""
    {
      sent := "";
    }

    method Write(f: Frame)
      modifies this
      ensures sent == old(sent) + Wire([f])
    {
      WireOne(f);
      sent := sent + FrameText(f);
    }

    method WriteLogEvent(line: LogLine)
      modifies this
      ensures sent == old(sent) + Wire([Log(line)])
    {
      Write(Log(line));
    }

    method SendLines(lines: seq<string>, channel: Channel, name: string, pmId: int, clock: nat -> int, k: nat)
      modifies this
      ensures sent == old(sent) + Wire(BacklogFrames(channel, name, pmId, lines, clock, k))
    {
      ghost var frames := BacklogFrames(channel, name, pmId, lines, clock, k);
      ghost var was := sent;
      var i := 0;
      while i < |lines|
        invariant 0 <= i <= |lines|
        invariant sent == was + Wire(frames[..i])
      {
        WriteLogEvent(LogLine(channel, name, pmId, lines[i], clock(k + i)));
        SentSoFar(was, frames[..i], [frames[i]]);
        assert frames[..i + 1] == frames[..i] + [frames[i]];
        i := i + 1;
      }
      assert frames[..i] == frames;
    }

    /** Standard output's lines, then standard error's. */
    method SendBacklog(out: Source, err: Source, name: string, pmId: int, clock: nat -> int)
      modifies this
      ensures sent == old(sent) + Wire(Backlog(SourceLines(out), SourceLines(err), name, pmId, clock))
    {
      var outLines := ReadSource(out);
      SendLines(outLines, Channel.Out, name, pmId, clock, 0);
      var errLines := ReadSource(err);
      SendLines(errLines, Channel.Err, name, pmId, clock, |outLines|);
      SentSoFar(old(sent), BacklogFrames(Channel.Out, name, pmId, outLines, clock, 0),
                BacklogFrames(Channel.Err, name, pmId, errLines, clock, |outLines|));
    }

    /** What the listener and the heartbeat timer write, until the client goes away. */
    method SendLive(live: seq<Occurrence>, name: string, pmId: int)
      modifies this
      ensures sent == old(sent) + Wire(LiveFrames(live, name, pmId))
    {
      ghost var was := sent;
      var i := 0;
      while i < |live|
        invariant 0 <= i <= |live|
        invariant sent == was + Wire(LiveFrames(live[..i], name, pmId))
      {
        React(live[i], name, pmId);
        SentSoFar(was, LiveFrames(live[..i], name, pmId), Reaction(live[i], name, pmId));
        assert live[..i + 1][..i] == live[..i];
        i := i + 1;
      }
      assert live[..i] == live;
    }

    method React(o: Occurrence, name: string, pmId: int)
      modifies this
      ensures sent == old(sent) + Wire(Reaction(o, name, pmId))
    {
      match o
      case Heartbeat => Write(Ping);
      case Line(line) =>
        if line.pmId == pmId || line.processName == name {
          WriteLogEvent(line);
        }
    }

    /** The whole stream: backlog, ready, live part. */
    method Stream(out: Source, err: Source, name: string, pmId: int, clock: nat -> int, live: seq<Occurrence>)
      modifies this
      ensures sent == old(sent) + Wire(StreamFrames(out, err, name, pmId, clock, live))
    {
      ghost var backlog := Backlog(SourceLines(out), SourceLines(err), name, pmId, clock);
      SendBacklog(out, err, name, pmId, clock);
      Write(Ready);
      SentSoFar(old(sent), backlog, [Ready]);
      SendLive(live, name, pmId);
      SentSoFar(old(sent), backlog + [Ready], LiveFrames(live, name, pmId));
    }
  }

  // ----- What the client is given --------------------------------------------

  /** The lines of the process, by id or by name, in order. */
  function LinesOfProcess(live: seq<Occurrence>, name: string, pmId: int): seq<LogLine> {
    if live == [] then []
    else
      var rest, last := LinesOfProcess(live[..|live| - 1], name, pmId), live[|live| - 1];
      if last.Line? && (last.line.pmId == pmId || last.line.processName == name) then rest + [last.line] else rest
  }

  lemma LinesOfCons(f: Frame, s: seq<Frame>)
    ensures LinesOf([f] + s) == (if f.Log? then [f.line] else []) + LinesOf(s)
  {
    assert ([f] + s)[0] == f && ([f] + s)[1..] == s;
  }

  lemma {:induction false} LinesOfConcat(a: seq<Frame>, b: seq<Frame>)
    ensures LinesOf(a + b) == LinesOf(a) + LinesOf(b)
    decreases |a|
  {
    if a == [] {
      assert a + b == b;
    } else {
      LinesOfConcat(a[1..], b);
      LinesOfCons(a[0], a[1..]);
      LinesOfCons(a[0], a[1..] + b);
      assert a == [a[0]] + a[1..];
      ConcatAssoc([a[0]], a[1..], b);
      ConcatAssoc(if a[0].Log? then [a[0].line] else [], LinesOf(a[1..]), LinesOf(b));
    }
  }

  lemma LinesOfOne(f: Frame)
    ensures LinesOf([f]) == if f.Log? then [f.line] else []
  {
    assert [f][1..] == [];
    assert LinesOf([f][1..]) == [];
  }

  lemma {:induction false} LiveLines(live: seq<Occurrence>, name: string, pmId: int)
    ensures LinesOf(LiveFrames(live, name, pmId)) == LinesOfProcess(live, name, pmId)
    decreases |live|
  {
    if live != [] {
      var init, last := live[..|live| - 1], live[|live| - 1];
      LiveLines(init, name, pmId);
      LinesOfConcat(LiveFrames(init, name, pmId), Reaction(last, name, pmId));
      if last.Heartbeat? {
        LinesOfOne(Ping);
      } else {
        LinesOfOne(Log(last.line));
      }
    }
  }

  /** What the client of one stream is given in all: the tails of the two files, then every
      line emitted for the process after `ready`, by id or by name, and nothing else. If the
      connection is cut at any byte, it has been given a prefix of that. */
  lemma StreamReachesClient(out: Source, err: Source, name: string, pmId: int, clock: nat -> int,
                            live: seq<Occurrence>, n: nat)
    requires n <= |Encode(Wire(StreamFrames(out, err, name, pmId, clock, live)))|
    ensures var wire := Encode(Wire(StreamFrames(out, err, name, pmId, clock, live)));
            var backlog := LinesOf(Backlog(SourceLines(out), SourceLines(err), name, pmId, clock));
            var all := Deliveries(backlog + LinesOfProcess(live, name, pmId));
      Delivered(Decode(wire)) == all && Delivered(Decode(wire[..n])) <= all
    ensures var wire := Encode(Wire(StreamFrames(out, err, name, pmId, clock, live)));
            var backlog := LinesOf(Backlog(SourceLines(out), SourceLines(err), name, pmId, clock));
      CarryAll(Delivered(Decode(wire)), backlog + LinesOfProcess(live, name, pmId))
  {
    var frames := StreamFrames(out, err, name, pmId, clock, live);
    BytesRoundTrip(frames);
    CutStreamDeliversPrefix(frames, n);
    StreamLines(Backlog(SourceLines(out), SourceLines(err), name, pmId, clock), live, name, pmId);
  }

  /** The last hundred texts of a file, each as a line of the process. */
  ghost predicate Replays(lines: seq<LogLine>, channel: Channel, texts: seq<string>, name: string, pmId: int,
                          clock: nat -> int, k: nat) {
    && |lines| == (if |texts| <= 100 then |texts| else 100)
    && forall i :: 0 <= i < |lines| ==>
         lines[i] == LogLine(channel, name, pmId, texts[|texts| - |lines| + i], clock(k + i))
  }

  lemma TailIsReplayed(ws: seq<Written>, last: string, channel: Channel, name: string, pmId: int,
                       clock: nat -> int, k: nat)
    requires (forall i :: 0 <= i < |ws| ==> Clean(ws[i].text)) && '\n' !in last
    requires |Encode(FileText(ws, last))| <= 131072
    ensures var frames := BacklogFrames(channel, name, pmId, TailLines(Encode(FileText(ws, last))), clock, k);
      |LinesOf(frames)| == |frames| && Replays(LinesOf(frames), channel, Texts(ws, last), name, pmId, clock, k)
  {
    SmallTextFile(ws, last);
    LastAreReplayed(TailLines(Encode(FileText(ws, last))), Texts(ws, last), channel, name, pmId, clock, k);
  }

  lemma LastAreReplayed(got: seq<string>, all: seq<string>, channel: Channel, name: string, pmId: int,
                        clock: nat -> int, k: nat)
    requires |got| == (if |all| <= 100 then |all| else 100) && got == all[|all| - |got|..]
    ensures var frames := BacklogFrames(channel, name, pmId, got, clock, k);
      |LinesOf(frames)| == |frames| && Replays(LinesOf(frames), channel, all, name, pmId, clock, k)
  {
    LinesOfLogs(BacklogFrames(channel, name, pmId, got, clock, k));
  }

  /** Two text files of a process, written line by line and each small enough for the window:
      the client is given the last hundred texts of standard output, the last hundred of
      standard error and then the process's live lines, in order and each with its fields. */
  lemma TextFilesReachClient(outs: seq<Written>, lastOut: string, errs: seq<Written>, lastErr: string,
                             name: string, pmId: int, clock: nat -> int, live: seq<Occurrence>)
    returns (replayed: seq<LogLine>, replayedErr: seq<LogLine>)
    requires (forall i :: 0 <= i < |outs| ==> Clean(outs[i].text)) && '\n' !in lastOut
    requires (forall i :: 0 <= i < |errs| ==> Clean(errs[i].text)) && '\n' !in lastErr
    requires |Encode(FileText(outs, lastOut))| <= 131072 && |Encode(FileText(errs, lastErr))| <= 131072
    ensures Replays(replayed, Channel.Out, Texts(outs, lastOut), name, pmId, clock, 0)
    ensures Replays(replayedErr, Channel.Err, Texts(errs, lastErr), name, pmId, clock, |replayed|)
    ensures var out, err := Path(Some(Encode(FileText(outs, lastOut)))), Path(Some(Encode(FileText(errs, lastErr))));
      CarryAll(Delivered(Decode(Encode(Wire(StreamFrames(out, err, name, pmId, clock, live))))),
               replayed + replayedErr + LinesOfProcess(live, name, pmId))
  {
    var out, err := Path(Some(Encode(FileText(outs, lastOut)))), Path(Some(Encode(FileText(errs, lastErr))));
    var o, e := SourceLines(out), SourceLines(err);
    TailIsReplayed(outs, lastOut, Channel.Out, name, pmId, clock, 0);
    TailIsReplayed(errs, lastErr, Channel.Err, name, pmId, clock, |o|);
    StreamReachesClient(out, err, name, pmId, clock, live, 0);
    var outFrames := BacklogFrames(Channel.Out, name, pmId, o, clock, 0);
    var errFrames := BacklogFrames(Channel.Err, name, pmId, e, clock, |o|);
    LinesOfConcat(outFrames, errFrames);
    replayed, replayedErr := LinesOf(outFrames), LinesOf(errFrames);
  }

  lemma StreamLines(backlog: seq<Frame>, live: seq<Occurrence>, name: string, pmId: int)
    ensures LinesOf(backlog + [Ready] + LiveFrames(live, name, pmId)) ==
      LinesOf(backlog) + LinesOfProcess(live, name, pmId)
  {
    LinesOfConcat(backlog + [Ready], LiveFrames(live, name, pmId));
    LinesOfConcat(backlog, [Ready]);
    LinesOfOne(Ready);
    LiveLines(live, name, pmId);
  }

  lemma {:induction false} LinesOfLogs(frames: seq<Frame>)
    requires forall f :: f in frames ==> f.Log?
    ensures |LinesOf(frames)| == |frames|
    ensures forall i :: 0 <= i < |frames| ==> LinesOf(frames)[i] == frames[i].line
  {
    if frames != [] {
      LinesOfLogs(frames[1..]);
    }
  }

  lemma BacklogFrameAt(out: seq<string>, err: seq<string>, name: string, pmId: int, clock: nat -> int, i: nat)
    requires i < |out + err|
    ensures |Backlog(out, err, name, pmId, clock)| == |out + err|
    ensures Backlog(out, err, name, pmId, clock)[i] ==
      Log(LogLine(if i < |out| then Channel.Out else Channel.Err, name, pmId, (out + err)[i], clock(i)))
  {
  }

  lemma BacklogLines(out: seq<string>, err: seq<string>, name: string, pmId: int, clock: nat -> int)
    ensures var messages, lines := out + err, LinesOf(Backlog(out, err, name, pmId, clock));
      && |lines| == |messages|
      && forall i :: 0 <= i < |messages| ==>
           lines[i] == LogLine(if i < |out| then Channel.Out else Channel.Err, name, pmId, messages[i], clock(i))
  {
    var frames, messages := Backlog(out, err, name, pmId, clock), out + err;
    LinesOfLogs(frames);
    forall i | 0 <= i < |messages|
      ensures LinesOf(frames)[i] ==
        LogLine(if i < |out| then Channel.Out else Channel.Err, name, pmId, messages[i], clock(i))
    {
      BacklogFrameAt(out, err, name, pmId, clock, i);
    }
  }

  /** From the files to the browser: the client of a fresh stream is given, for standard
      output and then standard error, the last non-empty lines of each file in order. */
  lemma BacklogReachesClient(out: Source, err: Source, name: string, pmId: int, clock: nat -> int)
    ensures var messages := SourceLines(out) + SourceLines(err);
            var frames := Backlog(SourceLines(out), SourceLines(err), name, pmId, clock);
      && Delivered(Wire(frames)) == Deliveries(LinesOf(frames))
      && CarryAll(Delivered(Wire(frames)), LinesOf(frames))
      && |LinesOf(frames)| == |messages|
      && forall i :: 0 <= i < |messages| ==>
           LinesOf(frames)[i] ==
             LogLine(if i < |SourceLines(out)| then Channel.Out else Channel.Err, name, pmId, messages[i], clock(i))
  {
    BacklogLines(SourceLines(out), SourceLines(err), name, pmId, clock);
    StreamRoundTrip(Backlog(SourceLines(out), SourceLines(err), name, pmId, clock));
  }
}
