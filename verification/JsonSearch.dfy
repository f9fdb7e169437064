// Searching serialised JSON for a piece of text. `DELETE ... WHERE sess LIKE ?` with
// the pattern %"user":{"id":N,% looks at characters only; the theorem SearchIsExact says
// which values it finds, for every JSON value with any keys and any strings.
module JsonSearch {
  import opened Text
  import opened Json

  // ----- SQLite LIKE ---------------------------------------------------------

  /** SQLite's LIKE without ESCAPE: % is any run, _ any character, ASCII case ignored. */
  predicate Like(pattern: string, text: string)
    decreases |pattern| + |text|
  {
    if pattern == [] then text == []
    else if pattern[0] == '%' then
      Like(pattern[1..], text) || (text != [] && Like(pattern, text[1..]))
    else
      text != [] && (pattern[0] == '_' || Fold(pattern[0]) == Fold(text[0]))
      && Like(pattern[1..], text[1..])
  }

  ghost predicate Occurs(needle: string, text: string) {
    exists i :: 0 <= i <= |text| && Begins(text[i..], needle)
  }

  predicate NoWildcards(s: string) {
    forall i :: 0 <= i < |s| ==> s[i] != '%' && s[i] != '_'
  }

  lemma {:induction false} LikeAny(text: string)
    ensures Like("%", text)
  {
    if text != [] {
      LikeAny(text[1..]);
    } else {
      assert "%"[1..] == [];
    }
  }

  lemma {:induction false} LikePrefix(needle: string, text: string)
    requires NoWildcards(needle)
    ensures Like(needle + "%", text) <==> Begins(text, needle)
  {
    var p := needle + "%";
    if needle == [] {
      assert p == "%";
      LikeAny(text);
    } else {
      assert p[1..] == needle[1..] + "%" && p[0] == needle[0];
      if text != [] {
        LikePrefix(needle[1..], text[1..]);
        BeginsConcat(text, [needle[0]], needle[1..]);
        assert needle == [needle[0]] + needle[1..];
      }
    }
  }

  /** A pattern %needle% without inner wildcards is substring search up to ASCII case. */
  lemma {:induction false} LikeIsSearch(needle: string, text: string)
    requires NoWildcards(needle)
    ensures Like("%" + needle + "%", text) <==> Occurs(needle, text)
  {
    var p := "%" + needle + "%";
    assert p[1..] == needle + "%";
    LikePrefix(needle, text);
    assert text[0..] == text;
    if text != [] {
      LikeIsSearch(needle, text[1..]);
      OccursHeadOrTail(needle, text);
    } else if Occurs(needle, text) {
      assert text[0..] == text;
    }
  }

  lemma OccursHeadOrTail(needle: string, text: string)
    requires text != []
    ensures Occurs(needle, text) <==> Begins(text, needle) || Occurs(needle, text[1..])
  {
    if Occurs(needle, text) {
      var i :| 0 <= i <= |text| && Begins(text[i..], needle);
      if i == 0 {
        assert text[0..] == text;
      } else {
        assert text[1..][i - 1..] == text[i..];
      }
    }
    if Begins(text, needle) {
      assert text[0..] == text;
    }
    if Occurs(needle, text[1..]) {
      var i :| 0 <= i <= |text[1..]| && Begins(text[1..][i..], needle);
      assert text[1..][i..] == text[i + 1..];
    }
  }

  // ----- What the pattern means ---------------------------------------------

  /** The text the revocation pattern looks for, between its two wildcards. */
  function UserText(id: nat): string {
    "\"user\":" + IdText(id)
  }

  function IdText(id: nat): string {
    "{\"id\":" + Dec(id) + ","
  }

  /** Some quote inside `s` is followed by exactly `word`. */
  predicate AfterQuote(s: string, word: string) {
    s != [] && ((s[0] == '"' && FoldAll(s[1..]) == FoldAll(word)) || AfterQuote(s[1..], word))
  }

  /** `"key":` shows `"word":`: the key is the word, or ends in a quote and the word. */
  predicate Shows(key: string, word: string) {
    FoldAll(key) == FoldAll(word) || AfterQuote(key, word)
  }

  /** An object that begins with the member "id":id and has more members. */
  predicate IdObject(v: Value, id: nat) {
    v.Obj? && |v.members| >= 2
    && FoldAll(v.members[0].key) == FoldAll("id") && v.members[0].value == Num(id)
  }

  /** Somewhere in `v`, at any depth, a member shown as "user" holds an IdObject. */
  predicate Hit(v: Value, id: nat)
    decreases v, 0
  {
    v.Obj? && HitMembers(v.members, id)
  }

  predicate HitMembers(ms: seq<Member>, id: nat)
    decreases ms, 1
  {
    ms != [] && (HitMember(ms[0], id) || HitMembers(ms[1..], id))
  }

  predicate HitMember(m: Member, id: nat)
    decreases m, 1
  {
    (Shows(m.key, "user") && IdObject(m.value, id)) || Hit(m.value, id)
  }

  // ----- Matching inside one string literal ---------------------------------

  /** Characters that JSON strings carry unescaped. */
  predicate Plain(s: string) {
    forall i :: 0 <= i < |s| ==> s[i] != '"' && s[i] != '\\' && s[i] as int >= 0x20
  }

  lemma {:induction false} BodyAligned(s: string, word: string, rest: string)
    requires Plain(word)
    requires Begins(EscapeAll(s) + "\"" + rest, word + "\"")
    ensures |EscapeAll(s)| == |word| && FoldAll(s) == FoldAll(word)
  {
    var t := EscapeAll(s) + "\"" + rest;
    var w := word + "\"";
    assert Fold(t[0]) == Fold(w[0]);
    if s == [] {
      assert t[0] == '"';
      assert word == [];
    } else {
      assert t[0] == Escape(s[0])[0] != '"';
      assert word != [];
      assert t[0] != '\\';
      assert Escape(s[0]) == [s[0]];
      assert t[1..] == EscapeAll(s[1..]) + "\"" + rest;
      assert w == [w[0]] + (word[1..] + "\"");
      BeginsConcat(t, [w[0]], word[1..] + "\"");
      BodyAligned(s[1..], word[1..], rest);
      FoldCons(s);
      FoldCons(word);
    }
  }

  lemma FoldCons(s: string)
    requires s != []
    ensures FoldAll(s) == [Fold(s[0])] + FoldAll(s[1..])
  {
  }

  lemma EscapeCons(s: string, rest: string)
    requires s != []
    ensures EscapeAll(s) + "\"" + rest == Escape(s[0]) + (EscapeAll(s[1..]) + "\"" + rest)
  {
    var e, more := Escape(s[0]), EscapeAll(s[1..]);
    assert (e + more) + "\"" + rest == e + (more + "\"" + rest);
  }

  lemma DropPast(a: string, b: string, i: nat)
    requires i <= |b|
    ensures (a + b)[|a| + i..] == b[i..]
  {
  }

  /** A quoted word matched inside a literal's body ends at the literal's closing quote. */
  lemma {:induction false} BodyMatch(s: string, word: string, rest: string, j: nat)
    requires Plain(word)
    requires j < |EscapeAll(s)|
    requires Begins((EscapeAll(s) + "\"" + rest)[j..], "\"" + (word + "\""))
    ensures AfterQuote(s, word) && j + 1 + |word| == |EscapeAll(s)|
  {
    var e := Escape(s[0]);
    var tail := EscapeAll(s[1..]) + "\"" + rest;
    EscapeCons(s, rest);
    var t := e + tail;
    if j < |e| {
      assert Fold(t[j..][0]) == '"';
      QuoteInEscape(s[0], j);
      assert t[j..][1..] == tail;
      BeginsConcat(t[j..], "\"", word + "\"");
      BodyAligned(s[1..], word, rest);
    } else {
      DropPast(e, tail, j - |e|);
      BodyMatch(s[1..], word, rest, j - |e|);
    }
  }

  lemma QuoteInEscape(c: char, j: nat)
    requires j < |Escape(c)| && Fold(Escape(c)[j]) == '"'
    ensures c == '"' && j == 1
  {
  }

  lemma NothingAfterClosing(rest: string, word: string)
    requires word != []
    requires Begins("\"" + rest, "\"" + (word + "\""))
    ensures rest != [] && Fold(rest[0]) == Fold(word[0])
  {
    var t, p := "\"" + rest, "\"" + (word + "\"");
    assert Fold(t[1]) == Fold(p[1]);
  }

  /** A quoted word matched from inside a string literal ends where the literal ends. */
  lemma LiteralMatch(s: string, word: string, rest: string, i: nat)
    requires Plain(word) && word != []
    requires rest == [] || Fold(rest[0]) != Fold(word[0])
    requires i < |Quote(s)|
    requires Begins((Quote(s) + rest)[i..], "\"" + (word + "\""))
    ensures Shows(s, word) && i + |word| + 2 == |Quote(s)|
  {
    var body := EscapeAll(s) + "\"" + rest;
    var t := Quote(s) + rest;
    QuoteText(s, rest);
    assert |Quote(s)| == |EscapeAll(s)| + 2;
    if i == 0 {
      BeginsConcat(t[0..], "\"", word + "\"");
      assert t[0..][1..] == body;
      BodyAligned(s, word, rest);
    } else {
      assert t[i..] == body[i - 1..];
      if i - 1 < |EscapeAll(s)| {
        BodyMatch(s, word, rest, i - 1);
      } else {
        assert body[i - 1..] == "\"" + rest;
        NothingAfterClosing(rest, word);
      }
    }
  }

  // ----- Matching across a value --------------------------------------------

  /** What can follow a value inside a JSON text. */
  predicate Follows(rest: string) {
    rest == [] || rest[0] == ',' || rest[0] == '}'
  }

  lemma {:induction false} DigitsAligned(d: string, e: string, rest: string)
    requires AllDigits(d) && AllDigits(e) && Follows(rest)
    requires Begins(d + rest, e + ",")
    ensures d == e && rest != [] && rest[0] == ','
  {
    var t, p := d + rest, e + ",";
    assert Fold(t[0]) == Fold(p[0]);
    if d == [] {
      assert t == rest;
      assert e == [];
    } else if e != [] {
      assert t[1..] == d[1..] + rest;
      assert p == [p[0]] + (e[1..] + ",");
      BeginsConcat(t, [p[0]], e[1..] + ",");
      DigitsAligned(d[1..], e[1..], rest);
      assert d[0] == e[0];
      assert d == [d[0]] + d[1..] && e == [e[0]] + e[1..];
    }
  }

  lemma NumberAligned(v: Value, id: nat, rest: string)
    requires Follows(rest)
    requires Begins(Write(v) + rest, Dec(id) + ",")
    ensures v == Num(id) && rest != [] && rest[0] == ','
  {
    var t, p := Write(v) + rest, Dec(id) + ",";
    FirstChar(v);
    assert Fold(t[0]) == Fold(p[0]) && p[0] == Dec(id)[0] && t[0] == Write(v)[0];
    DigitsAligned(Dec(v.n), Dec(id), rest);
    DecInjective(v.n, id);
  }

  lemma FirstChar(v: Value)
    ensures Write(v) != []
    ensures Write(v)[0] == '{' <==> v.Obj?
    ensures IsDigit(Write(v)[0]) <==> v.Num? && v.n >= 0
  {
  }

  lemma FirstFolds(t: string, p: string)
    requires p != [] && Begins(t, p)
    ensures t != [] && Fold(t[0]) == Fold(p[0])
  {
  }

  /** What follows `"user":` in a match is an object whose first member is the id. */
  lemma IdAligned(v: Value, id: nat, rest: string)
    requires Follows(rest)
    requires Begins(Write(v) + rest, IdText(id))
    ensures IdObject(v, id)
  {
    var needle := "\"" + ("id" + "\"") + (":" + (Dec(id) + ","));
    assert IdText(id) == "{" + needle;
    FirstFolds(Write(v) + rest, IdText(id));
    FirstChar(v);
    var ms := v.members;
    var body := WriteMembers(ms) + "}" + rest;
    ObjectText(ms, rest);
    BeginsConcat("{" + body, "{", needle);
    assert ("{" + body)[1..] == body;
    FirstMember(ms, id, rest);
  }

  lemma FirstMember(ms: seq<Member>, id: nat, rest: string)
    requires Follows(rest)
    requires Begins(WriteMembers(ms) + "}" + rest, "\"" + ("id" + "\"") + (":" + (Dec(id) + ",")))
    ensures |ms| >= 2 && FoldAll(ms[0].key) == FoldAll("id") && ms[0].value == Num(id)
  {
    var quoted, number := "\"" + ("id" + "\""), Dec(id) + ",";
    var t := WriteMembers(ms) + "}" + rest;
    FirstFolds(t, quoted + (":" + number));
    MembersText(ms, rest);
    var tail := if |ms| == 1 then "}" + rest else "," + (WriteMembers(ms[1..]) + "}" + rest);
    assert t == WriteMember(ms[0]) + tail;
    FirstMemberAligned(ms[0], id, tail);
  }

  lemma FirstMemberAligned(m: Member, id: nat, tail: string)
    requires Follows(tail)
    requires Begins(WriteMember(m) + tail, "\"" + ("id" + "\"") + (":" + (Dec(id) + ",")))
    ensures FoldAll(m.key) == FoldAll("id") && m.value == Num(id) && tail != [] && tail[0] == ','
  {
    var number, value := Dec(id) + ",", Write(m.value) + tail;
    MemberText(m, tail);
    KeyAligned(m.key, "id", ":" + value, ":" + number);
    BeginsConcat(":" + value, ":", number);
    assert (":" + value)[1..] == value;
    NumberAligned(m.value, id, tail);
  }

  lemma KeyAligned(key: string, word: string, rest: string, more: string)
    requires Plain(word)
    requires Begins("\"" + (EscapeAll(key) + "\"" + rest), "\"" + (word + "\"") + more)
    ensures FoldAll(key) == FoldAll(word) && Begins(rest, more)
  {
    var body := EscapeAll(key) + "\"" + rest;
    assert "\"" + (word + "\"") + more == "\"" + ((word + "\"") + more);
    BeginsConcat("\"" + body, "\"", (word + "\"") + more);
    assert ("\"" + body)[1..] == body;
    BeginsConcat(body, word + "\"", more);
    BodyAligned(key, word, rest);
    assert body[|word| + 1..] == rest;
  }

  // ----- The search theorem --------------------------------------------------

  /** A match that starts inside a written value was put there by a hit in that value. */
  lemma {:induction false} MatchIsHit(v: Value, id: nat, rest: string, i: nat)
    requires Follows(rest)
    requires i < |Write(v)| && Begins((Write(v) + rest)[i..], UserText(id))
    ensures Hit(v, id)
    decreases v, 0
  {
    var t := Write(v) + rest;
    UserTextShape(id);
    FirstFolds(t[i..], UserText(id));
    assert t[i] == Write(v)[i];
    match v
    case Obj(ms) =>
      var body := WriteMembers(ms) + "}" + rest;
      ObjectText(ms, rest);
      assert t == "{" + body && Write(v)[0] == '{';
      assert t[i..] == body[i - 1..];
      assert |Write(v)| == |WriteMembers(ms)| + 2;
      assert body[i - 1] != '}';
      MatchIsHitMembers(ms, id, rest, i - 1);
    case Str(s) =>
      StringHasNoMatch(s, id, rest, i);
    case _ => NoQuotes(v, i);
  }

  lemma StringHasNoMatch(s: string, id: nat, rest: string, i: nat)
    requires Follows(rest) && i < |Quote(s)|
    ensures !Begins((Quote(s) + rest)[i..], UserText(id))
  {
    var t := (Quote(s) + rest)[i..];
    var quoted := "\"" + ("user" + "\"");
    UserTextShape(id);
    BeginsConcat(t, quoted, ":" + IdText(id));
    if Begins(t, quoted) {
      LiteralMatch(s, "user", rest, i);
      assert t[6..] == rest;
    }
  }

  lemma UserTextShape(id: nat)
    ensures UserText(id) == "\"" + ("user" + "\"") + (":" + IdText(id))
  {
  }

  lemma NoQuotes(v: Value, i: nat)
    requires !v.Obj? && !v.Str? && i < |Write(v)|
    ensures Fold(Write(v)[i]) != '"'
  {
  }

  lemma {:induction false} MatchIsHitMembers(ms: seq<Member>, id: nat, rest: string, i: nat)
    requires Follows(rest)
    requires i < |WriteMembers(ms)|
    requires Begins((WriteMembers(ms) + "}" + rest)[i..], UserText(id))
    ensures HitMembers(ms, id)
    decreases ms, 1
  {
    var t := WriteMembers(ms) + "}" + rest;
    var first := WriteMember(ms[0]);
    MembersText(ms, rest);
    if |ms| == 1 {
      MatchIsHitMember(ms[0], id, "}" + rest, i);
    } else {
      var more := WriteMembers(ms[1..]) + "}" + rest;
      if i < |first| {
        MatchIsHitMember(ms[0], id, "," + more, i);
      } else {
        FirstFolds(t[i..], UserText(id));
        assert t[|first|] == ',';
        var j := i - |first| - 1;
        assert t[i..] == more[j..];
        MatchIsHitMembers(ms[1..], id, rest, j);
      }
    }
  }

  lemma {:induction false} MatchIsHitMember(m: Member, id: nat, tail: string, i: nat)
    requires Follows(tail)
    requires i < |WriteMember(m)|
    requires Begins((WriteMember(m) + tail)[i..], UserText(id))
    ensures HitMember(m, id)
    decreases m, 1
  {
    var key, value := Quote(m.key), Write(m.value) + tail;
    MemberSplit(m, tail);
    var t := key + (":" + value);
    if i < |key| {
      MatchInKey(m.key, id, value, i);
      IdAligned(m.value, id, tail);
    } else {
      FirstFolds(t[i..], UserText(id));
      assert t[|key|] == ':' && i > |key|;
      DropPast(key + ":", value, i - |key| - 1);
      assert t == (key + ":") + value;
      MatchIsHit(m.value, id, tail, i - |key| - 1);
    }
  }

  lemma MemberSplit(m: Member, tail: string)
    ensures WriteMember(m) + tail == Quote(m.key) + (":" + (Write(m.value) + tail))
    ensures |WriteMember(m)| == |Quote(m.key)| + 1 + |Write(m.value)|
  {
    var key, value := Quote(m.key), Write(m.value);
    assert (key + ":" + value) + tail == key + (":" + (value + tail));
  }

  lemma MatchInKey(key: string, id: nat, value: string, i: nat)
    requires i < |Quote(key)|
    requires Begins((Quote(key) + (":" + value))[i..], UserText(id))
    ensures Shows(key, "user") && Begins(value, IdText(id))
  {
    var t := Quote(key) + (":" + value);
    UserTextShape(id);
    BeginsConcat(t[i..], "\"" + ("user" + "\""), ":" + IdText(id));
    LiteralMatch(key, "user", ":" + value, i);
    assert t[i..][6..] == ":" + value;
    BeginsConcat(":" + value, ":", IdText(id));
    assert (":" + value)[1..] == value;
  }

  lemma BeginsExtends(t: string, more: string, p: string)
    requires Begins(t, p)
    ensures Begins(t + more, p)
  {
    forall k | 0 <= k < |p| ensures Fold((t + more)[k]) == Fold(p[k]) {
      assert (t + more)[k] == t[k];
    }
  }

  lemma {:induction false} WordIsUnescaped(s: string, word: string)
    requires Plain(word) && FoldAll(s) == FoldAll(word)
    ensures EscapeAll(s) == s
  {
    if s != [] {
      FoldCons(s);
      FoldCons(word);
      PlainFold(s[0], word[0]);
      WordIsUnescaped(s[1..], word[1..]);
      assert EscapeAll(s) == [s[0]] + s[1..];
    }
  }

  lemma PlainFold(c: char, w: char)
    requires Fold(c) == Fold(w) && w != '"' && w != '\\' && w as int >= 0x20
    ensures Escape(c) == [c]
  {
  }

  /** `t` is `"word"`, up to ASCII case, and then `rest`. */
  ghost predicate QuotedThen(t: string, word: string, rest: string) {
    Begins(t, "\"" + (word + "\"")) && |t| >= |word| + 2 && t[|word| + 2..] == rest
  }

  lemma QuotedWord(s: string, word: string, rest: string)
    requires Plain(word) && FoldAll(s) == FoldAll(word)
    ensures QuotedThen("\"" + (EscapeAll(s) + "\"" + rest), word, rest)
  {
    var body := EscapeAll(s) + "\"" + rest;
    WordBegins(s, word, rest);
    var t := "\"" + body;
    assert t[1..] == body;
    BeginsConcat(t, "\"", word + "\"");
    assert t[|word| + 2..] == body[|word| + 1..];
  }

  lemma WordBegins(s: string, word: string, rest: string)
    requires Plain(word) && FoldAll(s) == FoldAll(word)
    ensures Begins(EscapeAll(s) + "\"" + rest, word + "\"")
    ensures (EscapeAll(s) + "\"" + rest)[|word| + 1..] == rest
  {
    WordIsUnescaped(s, word);
    var t, p := EscapeAll(s) + "\"" + rest, word + "\"";
    forall k | 0 <= k < |p| ensures Fold(t[k]) == Fold(p[k]) {
      if k < |word| {
        assert FoldAll(s)[k] == FoldAll(word)[k];
      }
    }
  }

  lemma EscapedQuote(tail: string)
    ensures (Escape('"') + tail)[1..] == "\"" + tail
  {
  }

  lemma {:induction false} AfterQuoteMatch(s: string, word: string, rest: string) returns (j: nat)
    requires Plain(word) && AfterQuote(s, word)
    ensures j < |EscapeAll(s)|
    ensures QuotedThen((EscapeAll(s) + "\"" + rest)[j..], word, rest)
  {
    var e := Escape(s[0]);
    var tail := EscapeAll(s[1..]) + "\"" + rest;
    EscapeCons(s, rest);
    if s[0] == '"' && FoldAll(s[1..]) == FoldAll(word) {
      j := 1;
      QuotedWord(s[1..], word, rest);
      EscapedQuote(tail);
    } else {
      var i := AfterQuoteMatch(s[1..], word, rest);
      j := |e| + i;
      DropPast(e, tail, i);
    }
  }

  lemma ShownMatch(key: string, word: string, rest: string) returns (i: nat)
    requires Plain(word) && Shows(key, word)
    ensures i < |Quote(key)|
    ensures QuotedThen((Quote(key) + rest)[i..], word, rest)
  {
    var body := EscapeAll(key) + "\"" + rest;
    QuoteText(key, rest);
    if FoldAll(key) == FoldAll(word) {
      i := 0;
      QuotedWord(key, word, rest);
    } else {
      var j := AfterQuoteMatch(key, word, rest);
      i := j + 1;
      assert ("\"" + body)[i..] == body[j..];
    }
  }

  lemma IdObjectText(v: Value, id: nat)
    requires IdObject(v, id)
    ensures Begins(Write(v), IdText(id))
  {
    var ms := v.members;
    var needle := "\"" + ("id" + "\"") + (":" + (Dec(id) + ","));
    MembersText(ms, "");
    FirstMemberText(ms[0], id, "," + (WriteMembers(ms[1..]) + "}" + ""));
    ObjectBegins(ms, needle);
    assert IdText(id) == "{" + needle;
  }

  lemma ObjectBegins(ms: seq<Member>, needle: string)
    requires Begins(WriteMembers(ms) + "}" + "", needle)
    ensures Begins(Write(Obj(ms)), "{" + needle)
  {
    var body := WriteMembers(ms) + "}";
    var t := Write(Obj(ms));
    assert t == "{" + body && t[1..] == body == body + "";
    BeginsConcat(t, "{", needle);
  }

  lemma FirstMemberText(m: Member, id: nat, tail: string)
    requires FoldAll(m.key) == FoldAll("id") && m.value == Num(id)
    requires tail != [] && tail[0] == ','
    ensures Begins(WriteMember(m) + tail, "\"" + ("id" + "\"") + (":" + (Dec(id) + ",")))
  {
    var value := Dec(id) + tail;
    var body := EscapeAll(m.key) + "\"" + (":" + value);
    MemberText(m, tail);
    WordBegins(m.key, "id", ":" + value);
    var t, p, q := "\"" + body, "\"" + ("id" + "\""), ":" + (Dec(id) + ",");
    BeginsConcat(t, "\"", "id" + "\"");
    assert t[1..] == body;
    assert t[4..] == body[3..] == ":" + value;
    assert Begins(":" + value, q);
    BeginsConcat(t, p, q);
  }

  /** Every hit leaves a match in the written text. */
  lemma {:induction false} HitIsMatch(v: Value, id: nat) returns (i: nat)
    requires Hit(v, id)
    ensures i <= |Write(v)| && Begins(Write(v)[i..], UserText(id))
    decreases v, 0
  {
    var j := HitIsMatchMembers(v.members, id);
    var body := WriteMembers(v.members);
    i := j + 1;
    assert Write(v)[i..] == body[j..] + "}";
    BeginsExtends(body[j..], "}", UserText(id));
  }

  lemma {:induction false} HitIsMatchMembers(ms: seq<Member>, id: nat) returns (i: nat)
    requires HitMembers(ms, id)
    ensures i <= |WriteMembers(ms)| && Begins(WriteMembers(ms)[i..], UserText(id))
    decreases ms, 1
  {
    var first := WriteMember(ms[0]);
    if HitMember(ms[0], id) {
      i := HitIsMatchMember(ms[0], id);
      if |ms| > 1 {
        var more := "," + WriteMembers(ms[1..]);
        assert WriteMembers(ms)[i..] == first[i..] + more;
        BeginsExtends(first[i..], more, UserText(id));
      }
    } else {
      var j := HitIsMatchMembers(ms[1..], id);
      i := |first| + 1 + j;
      DropPast(first + ",", WriteMembers(ms[1..]), j);
    }
  }

  lemma {:induction false} HitIsMatchMember(m: Member, id: nat) returns (i: nat)
    requires HitMember(m, id)
    ensures i <= |WriteMember(m)| && Begins(WriteMember(m)[i..], UserText(id))
    decreases m, 1
  {
    var key, value := Quote(m.key), Write(m.value);
    assert WriteMember(m) == key + (":" + value);
    if Hit(m.value, id) {
      var j := HitIsMatch(m.value, id);
      i := |key| + 1 + j;
      assert WriteMember(m)[i..] == value[j..];
    } else {
      i := ShownMatch(m.key, "user", ":" + value);
      IdObjectText(m.value, id);
      BeginsConcat(":" + value, ":", IdText(id));
      assert (":" + value)[1..] == value;
      UserTextShape(id);
      BeginsConcat(WriteMember(m)[i..], "\"" + ("user" + "\""), ":" + IdText(id));
    }
  }

  /** The bound parameter of the revocation query. */
  function UserPattern(id: nat): string {
    "%" + UserText(id) + "%"
  }

  lemma UserTextPlain(id: nat)
    ensures NoWildcards(UserText(id))
  {
    var d := Dec(id);
    assert UserText(id) == "\"user\":{\"id\":" + d + ",";
  }

  /** The LIKE pattern finds exactly the values with a hit, whatever else they contain. */
  lemma SearchIsExact(v: Value, id: nat)
    ensures Like(UserPattern(id), Write(v)) <==> Hit(v, id)
  {
    UserTextPlain(id);
    LikeIsSearch(UserText(id), Write(v));
    if Occurs(UserText(id), Write(v)) {
      var i :| 0 <= i <= |Write(v)| && Begins(Write(v)[i..], UserText(id));
      assert Write(v) + "" == Write(v);
      MatchIsHit(v, id, "", i);
    }
    if Hit(v, id) {
      var i := HitIsMatch(v, id);
    }
  }
}
