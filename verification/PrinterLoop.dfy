// The printer in the form it has in C: methods that append to a print buffer.

module PrinterLoop {
  import opened Chars
  import opened OrderedMap
  import opened JsonValue
  import opened Tokener
  import opened Printer
  import Layout
  import opened PrintBuf

  // ---- what the loops have printed so far

  // Pieces appended to what was there, one after the other
  lemma Joined(was: Text, a: Text, b: Text)
    ensures was + a + b == was + (a + b)
  {
  }

  lemma {:induction false} EscapeJoins(a: Text, b: Text)
    ensures EscapeText(a + b) == EscapeText(a) + EscapeText(b)
  {
    if a == [] {
      assert a + b == b;
    } else {
      assert (a + b)[1..] == a[1..] + b;
      EscapeJoins(a[1..], b);
    }
  }

  // A stretch that json_escape_str copies as it is
  predicate IsPlain(s: Text) {
    forall i | 0 <= i < |s| :: EscapeChar(s[i]) == [s[i]]
  }

  lemma {:induction false} PlainEscapes(s: Text)
    requires IsPlain(s)
    ensures EscapeText(s) == s
  {
    if s != [] {
      PlainEscapes(s[1..]);
    }
  }

  // The first n elements, with the separators between them
  function ElementsUpTo(es: seq<Value>, n: nat, level: nat, f: Flags): Text
    requires n <= |es|
  {
    if n == 0 then ""
    else ElementsUpTo(es, n - 1, level, f) + Separator(n, f) + Lead(level, f) + Print(es[n - 1], level + 1, f)
  }

  // In front of the n-th element or member
  function Separator(n: nat, f: Flags): Text {
    if n == 1 then "" else [','] + NewLine(f)
  }

  function MembersUpTo(ms: Members, n: nat, level: nat, f: Flags): Text
    requires n <= |ms|
  {
    if n == 0 then ""
    else MembersUpTo(ms, n - 1, level, f) + Separator(n, f) + PrintMember(ms[n - 1], level, f)
  }

  lemma {:induction false} ElementsFrom(es: seq<Value>, n: nat, level: nat, f: Flags)
    requires n < |es|
    ensures ElementsUpTo(es, |es|, level, f) ==
            ElementsUpTo(es, n, level, f) + Separator(n + 1, f) + PrintElements(es[n..], level, f)
    decreases |es| - n
  {
    hide Print, Lead, NewLine, ElementsUpTo, PrintElements;
    FirstElement(es, n, level, f);
    if n + 1 < |es| {
      ElementsFrom(es, n + 1, level, f);
    }
  }

  lemma FirstElement(es: seq<Value>, n: nat, level: nat, f: Flags)
    requires n < |es|
    ensures var x := Lead(level, f) + Print(es[n], level + 1, f);
            && PrintElements(es[n..], level, f) ==
               (if n + 1 == |es| then x else x + (Separator(n + 2, f) + PrintElements(es[n + 1..], level, f)))
            && ElementsUpTo(es, n + 1, level, f) == ElementsUpTo(es, n, level, f) + Separator(n + 1, f) + x
  {
    hide Print, Lead, Separator;
    Joined(ElementsUpTo(es, n, level, f) + Separator(n + 1, f), Lead(level, f), Print(es[n], level + 1, f));
    PrintElementsFrom(es, n, level, f);
  }

  lemma PrintElementsFrom(es: seq<Value>, n: nat, level: nat, f: Flags)
    requires n < |es|
    ensures var x := Lead(level, f) + Print(es[n], level + 1, f);
            PrintElements(es[n..], level, f) ==
            if n + 1 == |es| then x else x + (Separator(n + 2, f) + PrintElements(es[n + 1..], level, f))
  {
    hide Print, Lead, NewLine;
    var rest := es[n..];
    assert rest[0] == es[n] && rest[1..] == es[n + 1..];
    assert rest != [];
    if |rest| == 1 {
      assert Lead(level, f) + Print(es[n], level + 1, f) + "" == Lead(level, f) + Print(es[n], level + 1, f);
    }
  }

  lemma {:induction false} MembersFrom(ms: Members, n: nat, level: nat, f: Flags)
    requires n < |ms|
    ensures MembersUpTo(ms, |ms|, level, f) ==
            MembersUpTo(ms, n, level, f) + Separator(n + 1, f) + PrintMembers(ms[n..], level, f)
    decreases |ms| - n
  {
    hide PrintMember, NewLine;
    assert ms[n..][0] == ms[n];
    if n + 1 < |ms| {
      MembersFrom(ms, n + 1, level, f);
      assert ms[n..][1..] == ms[n + 1..];
    }
  }

  lemma AllElements(es: seq<Value>, level: nat, f: Flags)
    ensures ElementsUpTo(es, |es|, level, f) == PrintElements(es, level, f)
  {
    if es != [] {
      ElementsFrom(es, 0, level, f);
      assert es[0..] == es;
    }
  }

  lemma NoMembers(front: Text, ms: Members, level: nat, f: Flags)
    ensures front == front + MembersUpTo(ms, 0, level, f)
  {
  }

  lemma NothingBefore(ms: Members, level: nat, f: Flags)
    ensures MembersUpTo(ms, 0, level, f) == "" && Separator(1, f) == ""
  {
  }

  lemma Unpadded(a: Text, b: Text, c: Text, d: Text)
    requires a == b + c + d && b == "" && c == ""
    ensures a == d
  {
  }

  lemma SomeMembers(ms: Members, level: nat, f: Flags)
    requires ms != []
    ensures MembersUpTo(ms, |ms|, level, f) == PrintMembers(ms, level, f)
  {
    hide PrintMembers, PrintMember, MembersUpTo, Separator;
    MembersFrom(ms, 0, level, f);
    assert ms[0..] == ms;
    NothingBefore(ms, level, f);
    Unpadded(MembersUpTo(ms, |ms|, level, f), MembersUpTo(ms, 0, level, f), Separator(1, f),
             PrintMembers(ms, level, f));
  }

  lemma AllMembers(ms: Members, level: nat, f: Flags)
    ensures MembersUpTo(ms, |ms|, level, f) == PrintMembers(ms, level, f)
  {
    if ms != [] {
      SomeMembers(ms, level, f);
    }
  }

  lemma {:induction false} BlanksAreRepeated(n: nat)
    ensures Repeated(' ', n) == Blanks(n)
  {
    if n > 0 {
      BlanksAreRepeated(n - 1);
      assert Repeated(' ', n) == [' '] + Repeated(' ', n - 1);
    }
  }

  // ---- the methods

  // json_escape_str: copies stretches of plain characters, and escapes the others one by one
  method EscapeStr(pb: Printbuf, str: Text)
    requires pb.Valid()
    modifies pb, pb.buf
    ensures pb.Valid() && (pb.buf == old(pb.buf) || fresh(pb.buf))
    ensures pb.Contents() == old(pb.Contents()) + EscapeText(str)
  {
    hide EscapeChar, EscapeText, IsPlain;
    ghost var was := pb.Contents();
    var pos, startOffset := 0, 0;
    NothingEscaped(was, str);
    while pos < |str|
      invariant 0 <= startOffset <= pos <= |str|
      invariant pb.Valid() && (pb.buf == old(pb.buf) || fresh(pb.buf))
      invariant pb.Contents() == was + EscapeText(str[..startOffset])
      invariant IsPlain(str[startOffset..pos])
    {
      var c := str[pos];
      if EscapeChar(c) != [c] {
        CopyPlain(pb, str, startOffset, pos, was);
        pb.MemAppend(EscapeChar(c));
        EscapedOne(was, str, pos);
        pos := pos + 1;
        startOffset := pos;
        NothingPlain(str[startOffset..pos]);
      } else {
        PlainGrows(str, startOffset, pos);
        pos := pos + 1;
      }
    }
    CopyPlain(pb, str, startOffset, pos, was);
    assert str[..pos] == str;
  }

  // if (pos - start_offset > 0) printbuf_memappend(...)
  method CopyPlain(pb: Printbuf, str: Text, start: nat, pos: nat, ghost was: Text)
    requires pb.Valid() && start <= pos <= |str| && IsPlain(str[start..pos])
    requires pb.Contents() == was + EscapeText(str[..start])
    modifies pb, pb.buf
    ensures pb.Valid() && (pb.buf == old(pb.buf) || fresh(pb.buf))
    ensures pb.Contents() == was + EscapeText(str[..pos])
  {
    hide EscapeText, IsPlain;
    if pos - start > 0 {
      pb.MemAppend(str[start..pos]);
      PlainCopied(was, str, start, pos);
    }
  }

  lemma NothingEscaped(was: Text, str: Text)
    ensures was == was + EscapeText(str[..0])
    ensures IsPlain(str[0..0])
  {
  }

  lemma NothingPlain(s: Text)
    requires s == []
    ensures IsPlain(s)
  {
  }

  lemma PlainGrows(str: Text, start: nat, pos: nat)
    requires start <= pos < |str| && IsPlain(str[start..pos]) && EscapeChar(str[pos]) == [str[pos]]
    ensures IsPlain(str[start..pos + 1])
  {
    hide EscapeChar;
    assert str[start..pos + 1] == str[start..pos] + [str[pos]];
  }

  lemma PlainCopied(was: Text, str: Text, start: nat, pos: nat)
    requires start <= pos <= |str| && IsPlain(str[start..pos])
    ensures was + EscapeText(str[..start]) + str[start..pos] == was + EscapeText(str[..pos])
  {
    hide EscapeText, IsPlain, EscapeChar;
    PlainEscapes(str[start..pos]);
    EscapeJoins(str[..start], str[start..pos]);
    assert str[..start] + str[start..pos] == str[..pos];
    Joined(was, EscapeText(str[..start]), str[start..pos]);
  }

  lemma EscapedOne(was: Text, str: Text, pos: nat)
    requires pos < |str|
    ensures was + EscapeText(str[..pos]) + EscapeChar(str[pos]) == was + EscapeText(str[..pos + 1])
  {
    hide EscapeChar;
    EscapeJoins(str[..pos], [str[pos]]);
    assert str[..pos] + [str[pos]] == str[..pos + 1];
    assert EscapeText([str[pos]]) == EscapeChar(str[pos]) + EscapeText([]);
    Joined(was, EscapeText(str[..pos]), EscapeChar(str[pos]));
  }

  // indent
  method PrintIndent(pb: Printbuf, level: nat, f: Flags)
    requires pb.Valid()
    modifies pb, pb.buf
    ensures pb.Valid() && (pb.buf == old(pb.buf) || fresh(pb.buf))
    ensures pb.Contents() == old(pb.Contents()) + Indent(level, f)
  {
    if f.pretty {
      pb.MemSet(-1, ' ', level * 2);
      BlanksAreRepeated(level * 2);
    }
  }

  // if (flags & JSON_C_TO_STRING_PRETTY) sprintbuf(pb, "\n");
  method PrintNewLine(pb: Printbuf, f: Flags)
    requires pb.Valid()
    modifies pb, pb.buf
    ensures pb.Valid() && (pb.buf == old(pb.buf) || fresh(pb.buf))
    ensures pb.Contents() == old(pb.Contents()) + NewLine(f)
  {
    if f.pretty {
      pb.MemAppend("\n");
    }
  }

  method PrintSeparator(pb: Printbuf, n: nat, f: Flags)
    requires pb.Valid() && n > 0
    modifies pb, pb.buf
    ensures pb.Valid() && (pb.buf == old(pb.buf) || fresh(pb.buf))
    ensures pb.Contents() == old(pb.Contents()) + Separator(n, f)
  {
    hide NewLine;
    ghost var was := pb.Contents();
    if n > 1 {
      pb.MemAppend([',']);
      PrintNewLine(pb, f);
      Joined(was, [','], NewLine(f));
    }
  }

  method PrintLead(pb: Printbuf, level: nat, f: Flags)
    requires pb.Valid()
    modifies pb, pb.buf
    ensures pb.Valid() && (pb.buf == old(pb.buf) || fresh(pb.buf))
    ensures pb.Contents() == old(pb.Contents()) + Lead(level, f)
  {
    hide Indent;
    ghost var was := pb.Contents();
    if f.spaced {
      pb.MemAppend(" ");
    }
    PrintIndent(pb, level + 1, f);
    Joined(was, Gap(f), Indent(level + 1, f));
  }

  // Up to and including the closing bracket
  method PrintTrail(pb: Printbuf, any: bool, level: nat, f: Flags, close: char)
    requires pb.Valid()
    modifies pb, pb.buf
    ensures pb.Valid() && (pb.buf == old(pb.buf) || fresh(pb.buf))
    ensures pb.Contents() == old(pb.Contents()) + (Trail(any, level, f) + [close]) && pb.Terminated()
  {
    hide Blanks;
    ghost var was := pb.Contents();
    ghost var a, b := if any then NewLine(f) else "", Indent(level, f);
    if f.pretty {
      if any {
        PrintNewLine(pb, f);
      }
      PrintIndent(pb, level, f);
    }
    assert pb.Contents() == was + (a + b) by { Joined(was, a, b); }
    pb.MemAppend(if f.spaced then [' ', close] else [close]);
    Joined(was, a + b, if f.spaced then [' ', close] else [close]);
    TrailIs(any, level, f, close);
  }

  lemma TrailIs(any: bool, level: nat, f: Flags, close: char)
    ensures Trail(any, level, f) + [close] ==
            (if any then NewLine(f) else "") + Indent(level, f) + (if f.spaced then [' ', close] else [close])
  {
  }

  // sprintbuf(pb, "\""); json_escape_str(...); sprintbuf(pb, "\"");
  method PrintQuoted(s: Text, pb: Printbuf)
    requires pb.Valid()
    modifies pb, pb.buf
    ensures pb.Valid() && (pb.buf == old(pb.buf) || fresh(pb.buf))
    ensures pb.Contents() == old(pb.Contents()) + (['"'] + EscapeText(s) + ['"']) && pb.Terminated()
  {
    hide EscapeText;
    ghost var was := pb.Contents();
    pb.MemAppend(['"']);
    EscapeStr(pb, s);
    Joined(was, ['"'], EscapeText(s));
    pb.MemAppend(['"']);
    Joined(was, ['"'] + EscapeText(s), ['"']);
  }

  // _to_json_string
  method PrintTo(v: Value, pb: Printbuf, level: nat, f: Flags)
    requires pb.Valid()
    modifies pb, pb.buf
    ensures pb.Valid() && (pb.buf == old(pb.buf) || fresh(pb.buf))
    ensures pb.Contents() == old(pb.Contents()) + Print(v, level, f) && pb.Terminated()
    decreases v, 1
  {
    match v {
      case JString(s) => PrintQuoted(s, pb);
      case JArray(es) => PrintArray(es, pb, level, f);
      case JObject(ms) => PrintObject(ms, pb, level, f);
      case JNull => pb.MemAppend("null");
      case JBool(b) => pb.MemAppend(if b then "true" else "false");
      case JInt(n) => pb.MemAppend(PrintInt(n));
      case JDouble(source) => pb.MemAppend(source);
      case JInfinity(negative) => pb.MemAppend(if negative then "-Infinity" else "Infinity");
      case JNaN => pb.MemAppend("NaN");
    }
  }

  // sprintbuf(pb, "[");
  method Open(pb: Printbuf, bracket: char, f: Flags)
    requires pb.Valid()
    modifies pb, pb.buf
    ensures pb.Valid() && (pb.buf == old(pb.buf) || fresh(pb.buf))
    ensures pb.Contents() == old(pb.Contents()) + ([bracket] + NewLine(f))
  {
    hide NewLine;
    ghost var was := pb.Contents();
    pb.MemAppend([bracket]);
    PrintNewLine(pb, f);
    Joined(was, [bracket], NewLine(f));
  }

  // json_object_array_to_json_string
  method PrintArray(es: seq<Value>, pb: Printbuf, level: nat, f: Flags)
    requires pb.Valid()
    modifies pb, pb.buf
    ensures pb.Valid() && (pb.buf == old(pb.buf) || fresh(pb.buf))
    ensures pb.Contents() == old(pb.Contents()) + Print(JArray(es), level, f) && pb.Terminated()
    decreases es, 1
  {
    hide Print, ElementsUpTo, NewLine, Separator, Lead, Trail;
    ghost var was := pb.Contents();
    ghost var front := ['['] + NewLine(f);
    Open(pb, '[', f);
    NoElements(front, es, level, f);
    var ii := 0;
    while ii < |es|
      invariant 0 <= ii <= |es|
      invariant pb.Valid() && (pb.buf == old(pb.buf) || fresh(pb.buf))
      invariant pb.Contents() == was + (front + ElementsUpTo(es, ii, level, f))
    {
      PrintSeparator(pb, ii + 1, f);
      PrintLead(pb, level, f);
      PrintTo(es[ii], pb, level + 1, f);
      ElementPrinted(was, front, es, ii, level, f);
      ii := ii + 1;
    }
    PrintTrail(pb, es != [], level, f, ']');
    ArrayPrinted(was, es, level, f);
  }

  lemma NoElements(front: Text, es: seq<Value>, level: nat, f: Flags)
    ensures front == front + ElementsUpTo(es, 0, level, f)
  {
  }

  lemma ElementPrinted(was: Text, front: Text, es: seq<Value>, n: nat, level: nat, f: Flags)
    requires n < |es|
    ensures was + (front + ElementsUpTo(es, n, level, f)) + Separator(n + 1, f) + Lead(level, f) +
            Print(es[n], level + 1, f) ==
            was + (front + ElementsUpTo(es, n + 1, level, f))
  {
    hide Print, Lead, Separator, NewLine;
  }

  lemma ArrayPrinted(was: Text, es: seq<Value>, level: nat, f: Flags)
    ensures was + (['['] + NewLine(f) + ElementsUpTo(es, |es|, level, f)) + (Trail(es != [], level, f) + [']']) ==
            was + Print(JArray(es), level, f)
  {
    hide NewLine, Trail, PrintElements, ElementsUpTo;
    AllElements(es, level, f);
  }

  // A key, its colon and its value
  method PrintMemberTo(m: (Text, Value), pb: Printbuf, level: nat, f: Flags)
    requires pb.Valid()
    modifies pb, pb.buf
    ensures pb.Valid() && (pb.buf == old(pb.buf) || fresh(pb.buf))
    ensures pb.Contents() == old(pb.Contents()) + PrintMember(m, level, f)
    decreases m, 1
  {
    hide Print, EscapeText, Lead;
    ghost var was := pb.Contents();
    ghost var a, b, c := Lead(level, f), ['"'] + EscapeText(m.0) + ['"'], [':'] + Gap(f);
    PrintLead(pb, level, f);
    PrintQuoted(m.0, pb);
    pb.MemAppend(if f.spaced then ": " else ":");
    assert (if f.spaced then ": " else ":") == c;
    PrintTo(m.1, pb, level + 1, f);
    MemberPrinted(was, a, b, f, Print(m.1, level + 1, f));
  }

  lemma MemberPrinted(was: Text, a: Text, b: Text, f: Flags, d: Text)
    ensures was + a + b + ([':'] + Gap(f)) + d == was + (a + b + [':'] + Gap(f) + d)
  {
    hide Gap;
    Joined(was, a, b);
    Joined(was, a + b, [':'] + Gap(f));
    Joined(was, a + b + ([':'] + Gap(f)), d);
    Joined(a + b, [':'], Gap(f));
  }

  // json_object_object_to_json_string
  method PrintObject(ms: Members, pb: Printbuf, level: nat, f: Flags)
    requires pb.Valid()
    modifies pb, pb.buf
    ensures pb.Valid() && (pb.buf == old(pb.buf) || fresh(pb.buf))
    ensures pb.Contents() == old(pb.Contents()) + Print(JObject(ms), level, f) && pb.Terminated()
    decreases ms, 1
  {
    hide Print, MembersUpTo, NewLine, Separator, PrintMember, Trail;
    ghost var was := pb.Contents();
    ghost var front := ['{'] + NewLine(f);
    Open(pb, '{', f);
    NoMembers(front, ms, level, f);
    var i := 0;
    while i < |ms|
      invariant 0 <= i <= |ms|
      invariant pb.Valid() && (pb.buf == old(pb.buf) || fresh(pb.buf))
      invariant pb.Contents() == was + (front + MembersUpTo(ms, i, level, f))
    {
      PrintSeparator(pb, i + 1, f);
      PrintMemberTo(ms[i], pb, level, f);
      MemberAdded(was, front, ms, i, level, f);
      i := i + 1;
    }
    PrintTrail(pb, ms != [], level, f, '}');
    ObjectPrinted(was, ms, level, f);
  }

  lemma MemberAdded(was: Text, front: Text, ms: Members, n: nat, level: nat, f: Flags)
    requires n < |ms|
    ensures was + (front + MembersUpTo(ms, n, level, f)) + Separator(n + 1, f) + PrintMember(ms[n], level, f) ==
            was + (front + MembersUpTo(ms, n + 1, level, f))
  {
    hide PrintMember, Separator, NewLine;
  }

  lemma ObjectPrinted(was: Text, ms: Members, level: nat, f: Flags)
    ensures was + (['{'] + NewLine(f) + MembersUpTo(ms, |ms|, level, f)) + (Trail(ms != [], level, f) + ['}']) ==
            was + Print(JObject(ms), level, f)
  {
    hide NewLine, Trail, PrintMembers, MembersUpTo;
    AllMembers(ms, level, f);
  }

  // json_object_to_json_string_ext, on a buffer that may have been used before
  method ToJsonString(v: Value, pb: Printbuf, f: Flags)
    requires pb.Valid()
    modifies pb, pb.buf
    ensures pb.Valid() && pb.Contents() == Print(v, 0, f) && pb.Terminated()
    ensures pb.Contents() == Layout.LaidOut(v, 0, f)
  {
    Layout.PrintIsLaidOut(v, 0, f);
    hide Print, Layout.LaidOut;
    pb.Reset();
    PrintTo(v, pb, 0, f);
    assert "" + Print(v, 0, f) == Print(v, 0, f);
  }
}
