// Texts that are not JSON: which are let pass, in strict mode and outside it, and which error the others get.

module Malformed {
  import opened Options
  import opened Chars
  import opened OrderedMap
  import opened JsonValue
  import opened Numbers
  import opened Unicode
  import opened Tokener
  import opened TokenerRun
  import opened Reader
  import opened TokenerRefines
  import opened Grammar
  import opened GrammarReads
  import opened StringReads

  // ---- white space and comments

  // The six characters of white space, by their codes
  predicate IsBlank(c: char) {
    c as int == 32 || 9 <= c as int <= 13
  }

  predicate AllBlank(ws: Text) {
    forall i | 0 <= i < |ws| :: IsBlank(ws[i])
  }

  predicate WithoutNul(s: Text) {
    forall i | 0 <= i < |s| :: s[i] != '\0'
  }

  lemma {:induction false} BlanksSkipped(env: Env, ws: Text, t: Text)
    requires AllBlank(ws)
    ensures SkipSpace(env, ws + t) == SkipSpace(env, t)
  {
    if ws == [] {
      assert ws + t == t;
    } else {
      BlanksSkipped(env, ws[1..], t);
      assert (ws + t)[1..] == ws[1..] + t && IsBlank(ws[0]);
    }
  }

  lemma BlanksBefore(env: Env, ws: Text, t: Text, held: Option<Value>)
    requires AllBlank(ws) && t != [] && Counts(env, t[0])
    ensures Next(env, ws + t, held) == Got((), t)
  {
    BlanksSkipped(env, ws, t);
  }

  lemma {:induction false} BlockSkipped(env: Env, body: Text, t: Text)
    requires WithoutNul(body) && '*' !in body
    ensures SkipBlock(env, body + "*/" + t) == SkipSpace(env, t)
  {
    var s := body + "*/" + t;
    if body == [] {
      assert s[1..][1..] == t;
    } else {
      BlockSkipped(env, body[1..], t);
      assert s[1..] == body[1..] + "*/" + t && body[0] in body;
    }
  }

  lemma {:induction false} LineSkipped(env: Env, body: Text, t: Text)
    requires WithoutNul(body) && '\n' !in body
    ensures SkipLine(env, body + "\n" + t) == SkipSpace(env, t)
  {
    var s := body + "\n" + t;
    if body == [] {
      assert s[1..] == t;
    } else {
      LineSkipped(env, body[1..], t);
      assert s[1..] == body[1..] + "\n" + t && body[0] in body;
    }
  }

  // Two texts that differ only in what is skipped in front of them
  ghost predicate SameBehind(env: Env, tok: Tok, t: Text, u: Text) {
    var o, p := Run(env, tok, t), Run(env, tok, u);
    o.err == p.err && o.value == p.value && |t| - o.used == |u| - p.used
  }

  lemma SkippedAlike(env: Env, tok: Tok, t: Text, u: Text)
    requires Ready(tok) && SkipSpace(env, t) == SkipSpace(env, u)
    requires SkipSpace(env, t).NoComment? ==> SkipSpace(env, t).rest != []
    ensures SameBehind(env, tok, t, u)
  {
    hide Run, ReadHere;
    RunIsRead(env, tok, t);
    RunIsRead(env, tok, u);
    assert Next(env, t, None) == Next(env, u, None);
  }

  // Whatever the text is, any of the six characters may stand in front of it,
  lemma BlanksParse(env: Env, tok: Tok, ws: Text, t: Text)
    requires Ready(tok) && AllBlank(ws)
    ensures SameBehind(env, tok, ws + t, t)
  {
    BlanksSkipped(env, ws, t);
    SkippedAlike(env, tok, ws + t, t);
  }

  // and outside strict mode a comment of either kind.
  lemma CommentsParse(env: Env, tok: Tok, body: Text, t: Text)
    requires Ready(tok) && !env.strict && WithoutNul(body)
    ensures '*' !in body ==> SameBehind(env, tok, "/*" + body + "*/" + t, t)
    ensures '\n' !in body ==> SameBehind(env, tok, "//" + body + "\n" + t, t)
  {
    if '*' !in body {
      var s := "/*" + body + "*/" + t;
      assert s[2..] == body + "*/" + t;
      BlockSkipped(env, body, t);
      SkippedAlike(env, tok, s, t);
    }
    if '\n' !in body {
      var s := "//" + body + "\n" + t;
      assert s[2..] == body + "\n" + t;
      LineSkipped(env, body, t);
      SkippedAlike(env, tok, s, t);
    }
  }

  // A terminator in place of what is missing is reported as such.
  function Missing(err: Error, c: char): Error {
    if c == '\0' then UnexpectedEof else err
  }

  // A call that fails with err in front of the last n characters
  ghost predicate FailsBefore(o: Outcome, t: Text, err: Error, n: nat) {
    o.err == err && o.value == JNull && o.used == |t| - n
  }

  lemma FailureRuns(env: Env, tok: Tok, t: Text, err: Fault, rest: Text)
    requires Ready(tok) && ReadValue(env, t, 0, tok.stPos == 0) == Fail(err, rest)
    ensures FailsBefore(Run(env, tok, t), t, err, |rest|)
  {
    hide Run, ReadValue;
    RunIsRead(env, tok, t);
  }

  // A value with the terminator behind it
  lemma ValueRuns(env: Env, tok: Tok, t: Text, v: Value)
    requires Ready(tok) && t != [] && Gives(ReadValue(env, t, 0, tok.stPos == 0), v, Nul())
    ensures var o := Run(env, tok, t); o.err == Success && o.value == v && o.used == |t| - 1
  {
    hide Run, ReadValue;
    RunIsRead(env, tok, t);
    assert SkipSpace(env, Nul()) == Token(Nul());
  }

  lemma HereRuns(env: Env, tok: Tok, t: Text)
    requires t != [] && Counts(env, t[0])
    ensures ReadValue(env, t, 0, tok.stPos == 0) == ReadHere(env, t, 0, tok.stPos == 0)
  {
    assert Next(env, t, None) == Got((), t);
    hide ReadHere;
  }

  // A slash begins nothing else.
  lemma SlashAlone(env: Env, tok: Tok, c: char, t: Text)
    requires Ready(tok) && !env.strict && c != '*' && c != '/'
    ensures var u := ['/', c] + t; FailsBefore(Run(env, tok, u), u, Missing(BadComment, c), 1 + |t|)
  {
    var u := ['/', c] + t;
    assert u[1..] == [c] + t;
    assert Next(env, u, None) == FailAt(BadComment, u[1..]);
    hide ReadHere;
    FailureRuns(env, tok, u, Blamed(BadComment, c), u[1..]);
  }

  // A character that no value begins with; in strict mode a single quote and a slash are among them.
  lemma NoValue(env: Env, tok: Tok, c: char, t: Text)
    requires Ready(tok) && !IsBlank(c) && c !in "{[\"-0123456789IiNnTtFf" && (env.strict || c !in "'/")
    ensures var u := [c] + t; FailsBefore(Run(env, tok, u), u, Missing(UnexpectedChar, c), 1 + |t|)
  {
    var u := [c] + t;
    HereRuns(env, tok, u);
    NotADigit(c);
    assert ReadHere(env, u, 0, tok.stPos == 0) == FailAt(UnexpectedChar, u);
    hide ReadHere;
    FailureRuns(env, tok, u, Blamed(UnexpectedChar, c), u);
  }

  lemma NotADigit(c: char)
    requires c !in "0123456789"
    ensures !('0' <= c <= '9')
  {
    assert "0123456789"[if '0' <= c <= '9' then c as int - '0' as int else 0] == c || !('0' <= c <= '9');
  }

  // ---- strings

  predicate Plain(s: Text, q: char) {
    forall i | 0 <= i < |s| :: s[i] != q && s[i] != '\\' && s[i] != '\0'
  }

  lemma {:induction false} PlainReads(s: Text, q: char, rest: Text, acc: Text)
    requires Plain(s, q)
    ensures ReadText(s + ([q] + rest), q, acc) == Got(acc + s, rest)
  {
    var t := s + ([q] + rest);
    if s == [] {
      assert t == [q] + rest && t[1..] == rest && acc + s == acc;
    } else {
      assert t[1..] == s[1..] + ([q] + rest);
      PlainReads(s[1..], q, rest, acc + [s[0]]);
      assert acc + [s[0]] + s[1..] == acc + s;
      hide Utf8, IsHighSurrogate, IsLowSurrogate, Digits, Unescape, ReadCode;
    }
  }

  // A quote, and what is read behind it
  lemma QuoteHere(env: Env, q: char, u: Text, clear: bool)
    requires q == '"' || (q == '\'' && !env.strict)
    ensures var r, h := ReadText(u, q, ""), ReadHere(env, [q] + u, 0, clear);
            && (r.Got? ==> Gives(h, JString(r.value), r.rest))
            && (r.Fail? ==> h == Fail(r.err, r.rest))
  {
    hide ReadText, Codeless, ReadWord, ReadNumber, ReadMembers, ReadElements, Matched;
    assert ([q] + u)[1..] == u;
  }

  lemma StringRuns(env: Env, tok: Tok, q: char, u: Text, v: Text)
    requires Ready(tok) && (q == '"' || (q == '\'' && !env.strict)) && ReadText(u, q, "") == Got(v, Nul())
    ensures var o := Run(env, tok, [q] + u); o.err == Success && o.value == JString(v) && o.used == |u|
  {
    hide Run, ReadText, ReadHere;
    QuoteHere(env, q, u, tok.stPos == 0);
    HereRuns(env, tok, [q] + u);
    hide ReadValue;
    ValueRuns(env, tok, [q] + u, JString(v));
  }

  lemma StringFails(env: Env, tok: Tok, u: Text, err: Fault, rest: Text)
    requires Ready(tok) && ReadText(u, '"', "") == Fail(err, rest)
    ensures var t := ['"'] + u; FailsBefore(Run(env, tok, t), t, err, |rest|)
  {
    hide Run, ReadText, ReadHere;
    QuoteHere(env, '"', u, tok.stPos == 0);
    HereRuns(env, tok, ['"'] + u);
    hide ReadValue;
    FailureRuns(env, tok, ['"'] + u, err, rest);
  }

  // Any character but the terminator may stand in a string as it is, and single quotes will do outside strict mode.
  lemma QuotedParses(env: Env, tok: Tok, s: Text, q: char)
    requires Ready(tok) && (q == '"' || q == '\'') && Plain(s, q)
    ensures var t := [q] + s + [q] + Nul();
            var o := Run(env, tok, t);
            if q == '\'' && env.strict then FailsBefore(o, t, UnexpectedChar, |t|)
            else o.err == Success && o.value == JString(s) && o.used == |s| + 2
  {
    hide Run, FailsBefore;
    var u := s + ([q] + Nul());
    assert [q] + s + [q] + Nul() == [q] + u;
    if q == '\'' && env.strict {
      NoValue(env, tok, q, u);
    } else {
      PlainReads(s, q, Nul(), "");
      assert "" + s == s;
      StringRuns(env, tok, q, u, s);
    }
  }

  // The eight escapes of one character
  function Stands(c: char): Text {
    if c == '"' then [34 as char] else if c == '\\' then [92 as char] else if c == '/' then [47 as char]
    else if c == 'b' then [8 as char] else if c == 't' then [9 as char] else if c == 'n' then [10 as char]
    else if c == 'f' then [12 as char] else if c == 'r' then [13 as char]
    else []
  }

  // A backslash and c, up to the closing quote
  lemma EscapeReads(c: char, v: Text)
    requires c != 'u' && v == ['"'] + Nul()
    ensures var r := ReadText(['\\', c] + v, '"', "");
            if c in "\"\\/btnfr" then r == Got(Stands(c), Nul()) else r == FailAt(BadString, [c] + v)
  {
    var u := ['\\', c] + v;
    assert u[1..] == [c] + v && u[2..] == v && v[1..] == Nul();
    if c in "\"\\/btnfr" {
      assert "" + Stands(c) == Stands(c) && ReadText(v, '"', Stands(c)) == Got(Stands(c), Nul());
      hide ReadCode, Digits;
      assert ReadText(u, '"', "") == ReadText(v, '"', "" + Stands(c));
    } else {
      hide ReadCode, Digits;
    }
  }

  lemma EscapeParses(env: Env, tok: Tok, c: char)
    requires Ready(tok) && c != 'u'
    ensures var t := ['"', '\\', c, '"'] + Nul();
            var o := Run(env, tok, t);
            if c in "\"\\/btnfr" then o.err == Success && o.value == JString(Stands(c)) && o.used == 4
            else FailsBefore(o, t, Missing(BadString, c), 3)
  {
    hide Run, FailsBefore, ReadText, Stands;
    var v := ['"'] + Nul();
    var u := ['\\', c] + v;
    assert ['"', '\\', c, '"'] + Nul() == ['"'] + u;
    EscapeReads(c, v);
    if c in "\"\\/btnfr" {
      StringRuns(env, tok, '"', u, Stands(c));
    } else {
      StringFails(env, tok, u, Blamed(BadString, c), [c] + v);
    }
  }

  // A hexadecimal digit by its code
  function DigitOf(c: char): int {
    if 48 <= c as int <= 57 then c as int - 48
    else if 65 <= c as int <= 70 then c as int - 55
    else if 97 <= c as int <= 102 then c as int - 87
    else -1
  }

  // A \u escape is read to its last digit, which is a hexadecimal one or an error.
  lemma LastDigitParses(env: Env, tok: Tok, c: char)
    requires Ready(tok)
    ensures var t := "\"\\u000" + [c, '"'] + Nul();
            var o := Run(env, tok, t);
            if DigitOf(c) >= 0 then o.err == Success && o.value == JString([DigitOf(c) as char]) && o.used == 8
            else if c == '\0' then o.err == UnexpectedEof && o.value == JNull
            else FailsBefore(o, t, BadString, 3)
  {
    hide Run;
    var v := [c, '"'] + Nul();
    var u := "\\u" + ("000" + v);
    assert "\"\\u000" + [c, '"'] + Nul() == ['"'] + u;
    assert u[2..] == "000" + v;
    ThreeZeros(v);
    assert v[1..] == ['"'] + Nul() && v[1..][1..] == Nul();
    if DigitOf(c) >= 0 {
      LastDigit(u, v, c);
      StringRuns(env, tok, '"', u, [DigitOf(c) as char]);
    } else if c == '\0' {
      var rest := v[NulTakes(v, 0, 0)..];
      assert ReadText(u, '"', "") == Fail(UnexpectedEof, rest);
      StringFails(env, tok, u, UnexpectedEof, rest);
    } else {
      assert ReadText(u, '"', "") == Fail(BadString, v);
      StringFails(env, tok, u, BadString, v);
    }
  }

  lemma ThreeZeros(v: Text)
    ensures Digits("000" + v, 4, 0, 0) == Digits(v, 1, 0, 0)
  {
    var a, b, c := "000" + v, "00" + v, "0" + v;
    assert a[1..] == b && b[1..] == c && c[1..] == v;
    assert Digits(a, 4, 0, 0) == Digits(b, 3, 0, 0);
    assert Digits(b, 3, 0, 0) == Digits(c, 2, 0, 0);
  }

  lemma LastDigit(u: Text, v: Text, c: char)
    requires |u| >= 2 && u[0] == '\\' && u[1] == 'u' && v == [c, '"'] + Nul() && DigitOf(c) >= 0
    requires Digits(u[2..], 4, 0, 0) == Digits(v, 1, 0, 0)
    ensures ReadText(u, '"', "") == Got([DigitOf(c) as char], Nul())
  {
    var d, w := DigitOf(c), v[1..];
    assert w == ['"'] + Nul() && w[1..] == Nul();
    assert Digits(v, 1, 0, 0) == Got(d, w);
    assert ReadText(u, '"', "") == ReadCode(w, '"', "", d);
    assert "" + Utf8(d) == [d as char];
    assert ReadText(w, '"', [d as char]) == Got([d as char], Nul());
  }

  // ---- behind a complete text

  // What stands behind a text with white space around it ends the call: in strict mode as an error.
  lemma TrailingParses(env: Env, tok: Tok, g: Json, before: Text, after: Text, c: char, rest: Text)
    requires Ready(tok) && Ok(env, g) && IsWs(before) && IsWs(after) && Nesting(g) < env.maxDepth
    requires c != '\0' && !IsBlank(c) && (c != '/' || env.strict) && (after != [] || c !in "0123456789.+-eE")
    ensures var t := before + Written(g) + after + [c] + rest;
            var o := Run(env, tok, t);
            if env.strict then FailsBefore(o, t, UnexpectedChar, 1 + |rest|)
            else o.err == Success && o.value == Meaning(env, g) && o.used == |t| - 1 - |rest|
  {
    hide Run, Written, Ok, Meaning, Nesting, ReadValue;
    var m := [c] + rest;
    var behind := after + m;
    BehindEnds(after, c, rest);
    ValueReads(env, g, behind, 0, before, tok.stPos == 0);
    var t := before + Written(g) + after + [c] + rest;
    assert t == before + (Written(g) + behind);
    RunIsRead(env, tok, t);
    WsSkipped(env, after, m, None);
    assert SkipSpace(env, behind) == Token(m);
  }

  // Outside strict mode a slash there begins a comment, or is an error, also in front of the terminator.
  lemma NoCommentBehind(env: Env, tok: Tok, g: Json, before: Text, after: Text, c: char, rest: Text)
    requires Ready(tok) && Ok(env, g) && IsWs(before) && IsWs(after) && Nesting(g) < env.maxDepth
    requires !env.strict && c != '*' && c != '/'
    ensures var t := before + Written(g) + after + (['/', c] + rest);
            FailsBefore(Run(env, tok, t), t, BadComment, 1 + |rest|)
  {
    hide Run, Written, Ok, Meaning, Nesting, ReadValue;
    var m := ['/', c] + rest;
    var behind := after + m;
    BehindEnds(after, '/', [c] + rest);
    assert m == ['/'] + ([c] + rest) && m[1..] == [c] + rest;
    ValueReads(env, g, behind, 0, before, tok.stPos == 0);
    var t := before + Written(g) + after + m;
    assert t == before + (Written(g) + behind);
    RunIsRead(env, tok, t);
    IsWsIsBlank(after);
    BlanksSkipped(env, after, m);
    assert SkipSpace(env, behind) == NoComment([c] + rest);
  }

  lemma IsWsIsBlank(ws: Text)
    requires IsWs(ws)
    ensures AllBlank(ws)
  {
  }

  lemma BehindEnds(after: Text, c: char, rest: Text)
    requires IsWs(after) && !IsBlank(c) && (after != [] || c !in "0123456789.+-eE")
    ensures Ends(after + ([c] + rest))
  {
    if after == [] {
      NotADigit(c);
    }
  }

  // ---- arrays

  // A value in an array, up to the next character that counts
  lemma ElementIsRead(env: Env, g: Json, before: Text, after: Text, m: Text, clear: bool) returns (k: bool)
    requires Ok(env, g) && IsWs(before) && IsWs(after) && Nesting(g) + 1 < env.maxDepth
    requires m != [] && Counts(env, m[0]) && Ends(after + m)
    ensures ReadValue(env, ['['] + before + Written(g) + after + m, 0, clear) ==
            ElementsTail(env, m, 0, [Meaning(env, g)], k)
  {
    hide Written, Ok, Meaning, Nesting, ReadHere, ElementsTail, Next;
    var w := Written(g) + (after + m);
    var t := ['['] + before + Written(g) + after + m;
    var v := Meaning(env, g);
    assert t[1..] == before + w;
    WrittenStarts(env, g);
    StartCounts(env, w[0]);
    ValueReads(env, g, after + m, 1, "", clear);
    assert "" + w == w;
    var r := ReadValue(env, w, 1, clear);
    k := Clear(r);
    WsSkipped(env, before, w, None);
    WsSkipped(env, after, m, Some(v));
    OpensArray(env, t, clear);
    assert [] + [v] == [v];
    hide ReadValue;
    assert ReadElement(env, w, 0, [], false, clear) == ElementsTail(env, m, 0, [] + [v], k);
  }

  lemma OpensArray(env: Env, t: Text, clear: bool)
    requires t != [] && t[0] == '['
    ensures ReadValue(env, t, 0, clear) == ReadElements(env, t[1..], 0, [], false, clear)
  {
    assert Next(env, t, None) == Got((), t);
    hide ReadElements;
  }

  // Behind an element there is a comma or the closing bracket, or an error.
  lemma CommaNeeded(env: Env, tok: Tok, g: Json, before: Text, after: Text, c: char, rest: Text)
    requires Ready(tok) && Ok(env, g) && IsWs(before) && IsWs(after) && Nesting(g) + 1 < env.maxDepth
    requires c != ',' && c != ']' && !IsBlank(c) && (c != '/' || env.strict) && (after != [] || c !in "0123456789.+-eE")
    ensures var t := ['['] + before + Written(g) + after + ([c] + rest);
            FailsBefore(Run(env, tok, t), t, Missing(BadArray, c), 1 + |rest|)
  {
    hide Run, Written, Ok, Nesting, ReadValue;
    var m := [c] + rest;
    BehindEnds(after, c, rest);
    var k := ElementIsRead(env, g, before, after, m, tok.stPos == 0);
    FailureRuns(env, tok, ['['] + before + Written(g) + after + m, Blamed(BadArray, c), m);
  }

  lemma CommaThenBracket(env: Env, ws: Text, es: seq<Value>, k: bool)
    requires AllBlank(ws)
    ensures var close := [']'] + Nul();
            ElementsTail(env, [','] + (ws + close), 0, es, k) ==
            if env.strict then Fail(UnexpectedChar, close) else Got(Parsed(JArray(es), k), Nul())
  {
    var close := [']'] + Nul();
    var m := [','] + (ws + close);
    assert m[1..] == ws + close && close[1..] == Nul();
    BlanksBefore(env, ws, close, None);
    hide Next, ReadValue;
    assert ElementsTail(env, m, 0, es, k) == ReadElements(env, ws + close, 0, es, true, k);
    assert ReadElements(env, ws + close, 0, es, true, k) == ReadElement(env, close, 0, es, true, k);
  }

  // A comma in front of the closing bracket is let pass outside strict mode.
  lemma LastCommaParses(env: Env, tok: Tok, g: Json, before: Text, after: Text, ws: Text)
    requires Ready(tok) && Ok(env, g) && IsWs(before) && IsWs(after) && AllBlank(ws) && Nesting(g) + 1 < env.maxDepth
    ensures var t := ['['] + before + Written(g) + after + ([','] + (ws + ([']'] + Nul())));
            var o := Run(env, tok, t);
            if env.strict then FailsBefore(o, t, UnexpectedChar, 2)
            else o.err == Success && o.value == JArray([Meaning(env, g)]) && o.used == |t| - 1
  {
    hide Run, Written, Ok, Nesting, ReadValue, Meaning;
    var close := [']'] + Nul();
    var m := [','] + (ws + close);
    var t := ['['] + before + Written(g) + after + m;
    BehindEnds(after, ',', ws + close);
    var k := ElementIsRead(env, g, before, after, m, tok.stPos == 0);
    CommaThenBracket(env, ws, [Meaning(env, g)], k);
    hide ElementsTail;
    if env.strict {
      FailureRuns(env, tok, t, UnexpectedChar, close);
    } else {
      ValueRuns(env, tok, t, JArray([Meaning(env, g)]));
    }
  }

  // ---- objects

  lemma OpensObject(env: Env, t: Text, clear: bool)
    requires t != [] && t[0] == '{'
    ensures ReadValue(env, t, 0, clear) == ReadMembers(env, t[1..], 0, [], false, clear)
  {
    assert Next(env, t, None) == Got((), t);
    hide ReadMembers;
  }

  lemma KeyFollows(env: Env, ws: Text, kt: Text, clear: bool)
    requires AllBlank(ws) && kt != [] && Counts(env, kt[0])
    ensures ReadValue(env, ['{'] + ws + kt, 0, clear) == ReadKey(env, kt, 0, [], false, clear)
  {
    hide ReadKey;
    var t := ['{'] + ws + kt;
    assert t[1..] == ws + kt;
    OpensObject(env, t, clear);
    BlanksBefore(env, ws, kt, None);
  }

  // Behind the opening bracket there is a key or the closing one, or an error.
  lemma KeyNeeded(env: Env, tok: Tok, ws: Text, c: char, rest: Text)
    requires Ready(tok) && AllBlank(ws) && c !in "}\"'" && !IsBlank(c) && (c != '/' || env.strict)
    ensures var t := ['{'] + ws + ([c] + rest);
            FailsBefore(Run(env, tok, t), t, Missing(BadKeyName, c), 1 + |rest|)
  {
    hide Run, ReadValue;
    var m := [c] + rest;
    KeyFollows(env, ws, m, tok.stPos == 0);
    assert ReadKey(env, m, 0, [], false, tok.stPos == 0) == FailAt(BadKeyName, m);
    FailureRuns(env, tok, ['{'] + ws + m, Blamed(BadKeyName, c), m);
  }

  // A key may stand in single quotes, in strict mode too.
  lemma QuotedKey(env: Env, s: Text, q: char, t: Text, clear: bool) returns (k: bool)
    requires (q == '"' || q == '\'') && Plain(s, q)
    ensures ReadKey(env, [q] + s + ([q] + t), 0, [], false, clear) == ReadMember(env, t, 0, [], s, k)
  {
    hide ReadText, ReadMember, CString, Codeless;
    var u := [q] + s + ([q] + t);
    assert u[1..] == s + ([q] + t);
    k := clear && Codeless(u[1..], q);
    PlainReads(s, q, t, "");
    assert "" + s == s;
    CStringIsIdentity(s);
  }

  lemma {:induction false} CStringIs(s: Text, n: nat)
    requires n <= |s| && WithoutNul(s[..n]) && (n < |s| ==> s[n] == '\0')
    ensures CString(s) == s[..n]
  {
    if n > 0 {
      assert s[..n][0] == s[0] && s[1..][..n - 1] == s[..n][1..];
      CStringIs(s[1..], n - 1);
    }
  }

  // A key ends with its first NUL.
  lemma CutKey(env: Env, key: seq<Item>, n: nat, t: Text, clear: bool) returns (k: bool)
    requires StringOk(key) && n <= |Decode(key)|
    requires WithoutNul(Decode(key)[..n]) && (n < |Decode(key)| ==> Decode(key)[n] == '\0')
    ensures ReadKey(env, InQuotes(key) + t, 0, [], false, clear) == ReadMember(env, t, 0, [], Decode(key)[..n], k)
  {
    hide ReadText, Decode, ItemsOk, Clean, ReadMember, ItemsText, CString, Codeless;
    var u := InQuotes(key) + t;
    k := clear && Codeless(u[1..], '"');
    StringIsReadExactly(key, t);
    assert u[1..] == ItemsText(key) + ['"'] + t;
    CStringIs(Decode(key), n);
  }

  // Behind a key there is a colon, or an error.
  lemma ColonNeeded(env: Env, tok: Tok, s: Text, q: char, ws: Text, c: char, rest: Text)
    requires Ready(tok) && (q == '"' || q == '\'') && Plain(s, q) && AllBlank(ws)
    requires c != ':' && !IsBlank(c) && (c != '/' || env.strict)
    ensures var t := ['{'] + ([q] + s + ([q] + (ws + ([c] + rest))));
            FailsBefore(Run(env, tok, t), t, Missing(BadKeySeparator, c), 1 + |rest|)
  {
    hide Run, ReadValue;
    var m := [c] + rest;
    var kt := [q] + s + ([q] + (ws + m));
    assert ['{'] + [] + kt == ['{'] + kt;
    KeyFollows(env, [], kt, tok.stPos == 0);
    var k := QuotedKey(env, s, q, ws + m, tok.stPos == 0);
    BlanksBefore(env, ws, m, None);
    hide ReadKey;
    assert ReadMember(env, ws + m, 0, [], s, k) == FailAt(BadKeySeparator, m);
    FailureRuns(env, tok, ['{'] + kt, Blamed(BadKeySeparator, c), m);
  }

  // The first member of an object, with the key text kt, up to the next character that counts
  lemma MemberIsRead(env: Env, kt: Text, key: Text, k: bool, g: Json, after: Text, m: Text, clear: bool)
      returns (l: bool)
    requires Ok(env, g) && IsWs(after) && Nesting(g) + 1 < env.maxDepth
    requires m != [] && Counts(env, m[0]) && Ends(after + m)
    requires kt != [] && Counts(env, kt[0])
    requires var t := [':'] + (Written(g) + (after + m));
             ReadKey(env, kt + t, 0, [], false, clear) == ReadMember(env, t, 0, [], key, k)
    ensures ReadValue(env, ['{'] + (kt + ([':'] + (Written(g) + (after + m)))), 0, clear) ==
            MembersTail(env, m, 0, [(key, Meaning(env, g))], l)
  {
    hide Written, Ok, Meaning, Nesting, ReadHere, MembersTail, Next, ReadKey;
    var w := Written(g) + (after + m);
    var t := [':'] + w;
    var v := Meaning(env, g);
    assert ['{'] + [] + (kt + t) == ['{'] + (kt + t);
    KeyFollows(env, [], kt + t, clear);
    WrittenStarts(env, g);
    StartCounts(env, w[0]);
    ValueReads(env, g, after + m, 1, "", k);
    assert "" + w == w && "" + t == t && t[1..] == w;
    l := Clear(ReadValue(env, w, 1, k));
    WsSkipped(env, "", w, None);
    WsSkipped(env, "", t, None);
    WsSkipped(env, after, m, Some(v));
    hide ReadValue;
    assert Put([], key, v) == [(key, v)];
    assert ReadMemberValue(env, w, 0, [], key, k) == MembersTail(env, m, 0, Put([], key, v), l);
    assert ReadMember(env, t, 0, [], key, k) == ReadMemberValue(env, w, 0, [], key, k);
  }

  // An object of one member
  lemma OneMemberParses(env: Env, tok: Tok, s: Text, q: char, g: Json)
    requires Ready(tok) && (q == '"' || q == '\'') && Plain(s, q) && Ok(env, g) && Nesting(g) + 1 < env.maxDepth
    ensures var t := ['{'] + ([q] + s + ([q] + ([':'] + (Written(g) + (['}'] + Nul())))));
            var o := Run(env, tok, t);
            o.err == Success && o.value == JObject([(s, Meaning(env, g))]) && o.used == |t| - 1
  {
    hide Run, Written, Ok, Nesting, ReadValue, Meaning, ReadKey;
    var m := ['}'] + Nul();
    var w := Written(g) + m;
    var kt := [q] + s + [q];
    var k := QuotedKey(env, s, q, [':'] + w, tok.stPos == 0);
    assert [q] + s + ([q] + ([':'] + w)) == kt + ([':'] + w);
    BehindEnds([], '}', Nul());
    assert [] + m == m;
    var l := MemberIsRead(env, kt, s, k, g, [], m, tok.stPos == 0);
    assert m[1..] == Nul();
    ValueRuns(env, tok, ['{'] + (kt + ([':'] + w)), JObject([(s, Meaning(env, g))]));
  }

  // The same for a key with a NUL in it: the member has the part in front of the first one for its name.
  lemma KeyIsCut(env: Env, tok: Tok, key: seq<Item>, n: nat, g: Json)
    requires Ready(tok) && StringOk(key) && n <= |Decode(key)| && Ok(env, g) && Nesting(g) + 1 < env.maxDepth
    requires WithoutNul(Decode(key)[..n]) && (n < |Decode(key)| ==> Decode(key)[n] == '\0')
    ensures var t := ['{'] + (InQuotes(key) + ([':'] + (Written(g) + (['}'] + Nul()))));
            var o := Run(env, tok, t);
            o.err == Success && o.value == JObject([(Decode(key)[..n], Meaning(env, g))]) && o.used == |t| - 1
  {
    hide Run, Written, Ok, Nesting, ReadValue, Meaning, ReadKey, Decode, ItemsText, Clean, ItemOk;
    var m := ['}'] + Nul();
    var w := Written(g) + m;
    var kt := InQuotes(key);
    var k := CutKey(env, key, n, [':'] + w, tok.stPos == 0);
    BehindEnds([], '}', Nul());
    assert [] + m == m;
    var l := MemberIsRead(env, kt, Decode(key)[..n], k, g, [], m, tok.stPos == 0);
    assert m[1..] == Nul();
    ValueRuns(env, tok, ['{'] + (kt + ([':'] + w)), JObject([(Decode(key)[..n], Meaning(env, g))]));
  }

  // Behind a member there is a comma or the closing bracket, or an error.
  lemma MemberCommaNeeded(env: Env, tok: Tok, s: Text, q: char, g: Json, after: Text, c: char, rest: Text)
    requires Ready(tok) && (q == '"' || q == '\'') && Plain(s, q) && Ok(env, g) && Nesting(g) + 1 < env.maxDepth
    requires IsWs(after) && c != ',' && c != '}' && !IsBlank(c) && (c != '/' || env.strict)
    requires after != [] || c !in "0123456789.+-eE"
    ensures var t := ['{'] + ([q] + s + ([q] + ([':'] + (Written(g) + (after + ([c] + rest))))));
            FailsBefore(Run(env, tok, t), t, Missing(BadValueSeparator, c), 1 + |rest|)
  {
    hide Run, Written, Ok, Nesting, ReadValue, Meaning, ReadKey;
    var m := [c] + rest;
    BehindEnds(after, c, rest);
    var w := Written(g) + (after + m);
    var kt := [q] + s + [q];
    var k := QuotedKey(env, s, q, [':'] + w, tok.stPos == 0);
    assert [q] + s + ([q] + ([':'] + w)) == kt + ([':'] + w);
    var l := MemberIsRead(env, kt, s, k, g, after, m, tok.stPos == 0);
    FailureRuns(env, tok, ['{'] + (kt + ([':'] + w)), Blamed(BadValueSeparator, c), m);
  }

  lemma CommaThenBrace(env: Env, ws: Text, ms: Members, k: bool)
    requires AllBlank(ws)
    ensures var close := ['}'] + Nul();
            MembersTail(env, [','] + (ws + close), 0, ms, k) ==
            if env.strict then Fail(UnexpectedChar, close) else Got(Parsed(JObject(ms), k), Nul())
  {
    var close := ['}'] + Nul();
    var m := [','] + (ws + close);
    assert m[1..] == ws + close && close[1..] == Nul();
    BlanksBefore(env, ws, close, None);
    hide Next, ReadMember;
    assert MembersTail(env, m, 0, ms, k) == ReadMembers(env, ws + close, 0, ms, true, k);
    assert ReadMembers(env, ws + close, 0, ms, true, k) == ReadKey(env, close, 0, ms, true, k);
  }

  // A comma in front of the closing bracket is let pass outside strict mode.
  lemma LastMemberCommaParses(env: Env, tok: Tok, s: Text, q: char, g: Json, after: Text, ws: Text)
    requires Ready(tok) && (q == '"' || q == '\'') && Plain(s, q) && Ok(env, g) && Nesting(g) + 1 < env.maxDepth
    requires IsWs(after) && AllBlank(ws)
    ensures var t := ['{'] + ([q] + s + ([q] + ([':'] + (Written(g) + (after + ([','] + (ws + (['}'] + Nul()))))))));
            var o := Run(env, tok, t);
            if env.strict then FailsBefore(o, t, UnexpectedChar, 2)
            else o.err == Success && o.value == JObject([(s, Meaning(env, g))]) && o.used == |t| - 1
  {
    hide Run, Written, Ok, Nesting, ReadValue, Meaning, ReadKey;
    var close := ['}'] + Nul();
    var m := [','] + (ws + close);
    BehindEnds(after, ',', ws + close);
    var w := Written(g) + (after + m);
    var kt := [q] + s + [q];
    var k := QuotedKey(env, s, q, [':'] + w, tok.stPos == 0);
    assert [q] + s + ([q] + ([':'] + w)) == kt + ([':'] + w);
    var l := MemberIsRead(env, kt, s, k, g, after, m, tok.stPos == 0);
    CommaThenBrace(env, ws, [(s, Meaning(env, g))], l);
    hide MembersTail;
    var t := ['{'] + (kt + ([':'] + w));
    if env.strict {
      FailureRuns(env, tok, t, UnexpectedChar, close);
    } else {
      ValueRuns(env, tok, t, JObject([(s, Meaning(env, g))]));
    }
  }
}
