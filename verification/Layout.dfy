// The text of a value for each combination of the flags, put together from the texts of its parts.

module Layout {
  import opened Chars
  import opened OrderedMap
  import opened JsonValue
  import opened Tokener
  import opened Printer

  function Spaces(n: nat): Text {
    seq(n, i => ' ')
  }

  // The parts, with the separator between each two of them
  function Join(parts: seq<Text>, separator: Text): Text {
    if parts == [] then ""
    else if |parts| == 1 then parts[0]
    else parts[0] + separator + Join(parts[1..], separator)
  }

  // A container at some level of indentation.  Without flags there is no white space.  SPACED puts a blank in front of
  // each part and of the closing bracket.  PRETTY puts each part, and the closing bracket, on a line of its own, with
  // two blanks for each level.
  function Bracketed(open: char, parts: seq<Text>, close: char, level: nat, f: Flags): Text {
    if !f.spaced && !f.pretty then [open] + Join(parts, ",") + [close]
    else if !f.pretty then
      if parts == [] then [open] + " " + [close] else [open] + " " + Join(parts, ", ") + " " + [close]
    else if !f.spaced then
      if parts == [] then [open] + "\n" + Spaces(2 * level) + [close]
      else
        var line := "\n" + Spaces(2 * level + 2);
        [open] + line + Join(parts, "," + line) + "\n" + Spaces(2 * level) + [close]
    else
      if parts == [] then [open] + "\n" + Spaces(2 * level) + " " + [close]
      else
        var line := "\n " + Spaces(2 * level + 2);
        [open] + line + Join(parts, "," + line) + "\n" + Spaces(2 * level) + " " + [close]
  }

  function LaidOut(v: Value, level: nat, f: Flags): Text
    decreases v, 1
  {
    match v
    case JNull => "null"
    case JBool(b) => if b then "true" else "false"
    case JInt(n) => PrintInt(n)
    case JDouble(source) => source
    case JInfinity(negative) => if negative then "-Infinity" else "Infinity"
    case JNaN => "NaN"
    case JString(s) => "\"" + EscapeText(s) + "\""
    case JArray(es) => Bracketed('[', Elements(es, level, f), ']', level, f)
    case JObject(ms) => Bracketed('{', Members(ms, level, f), '}', level, f)
  }

  function Elements(es: seq<Value>, level: nat, f: Flags): (parts: seq<Text>)
    ensures |parts| == |es|
    decreases es, 0
  {
    if es == [] then [] else [LaidOut(es[0], level + 1, f)] + Elements(es[1..], level, f)
  }

  function Member(m: (Text, Value), level: nat, f: Flags): Text
    decreases m, 2
  {
    "\"" + EscapeText(m.0) + (if f.spaced then "\": " else "\":") + LaidOut(m.1, level + 1, f)
  }

  function Members(ms: Entries<Text, Value>, level: nat, f: Flags): (parts: seq<Text>)
    ensures |parts| == |ms|
    decreases ms, 0
  {
    if ms == [] then [] else [Member(ms[0], level, f)] + Members(ms[1..], level, f)
  }

  // ---- characters

  // How json_escape_str writes a character: eight escapes of two characters, the other control characters by number,
  // and everything else as it is.
  lemma CharacterIsWritten(c: char)
    ensures EscapeText([c]) ==
            if c as int == 8 then "\\b"
            else if c as int == 9 then "\\t"
            else if c as int == 10 then "\\n"
            else if c as int == 12 then "\\f"
            else if c as int == 13 then "\\r"
            else if c as int == 34 then "\\\""
            else if c as int == 47 then "\\/"
            else if c as int == 92 then "\\\\"
            else if c as int < 16 then "\\u000" + ["0123456789abcdef"[c as int]]
            else if c as int < 32 then "\\u001" + ["0123456789abcdef"[c as int - 16]]
            else [c]
  {
    assert EscapeText([c]) == EscapeChar(c) + EscapeText([]);
  }

  lemma {:induction false} CharactersAreWritten(s: Text, n: nat)
    requires n < |s|
    ensures EscapeText(s) == EscapeText(s[..n]) + EscapeText([s[n]]) + EscapeText(s[n + 1..])
  {
    hide EscapeChar;
    assert EscapeText([s[n]]) == EscapeChar(s[n]) && EscapeText(s) == EscapeChar(s[0]) + EscapeText(s[1..]);
    if n == 0 {
      assert EscapeText(s[..0]) == "";
    } else {
      CharactersAreWritten(s[1..], n - 1);
      assert s[..n][1..] == s[1..][..n - 1] && s[1..][n..] == s[n + 1..];
      assert EscapeText(s[..n]) == EscapeChar(s[0]) + EscapeText(s[1..][..n - 1]);
      hide EscapeText;
      assert EscapeChar(s[0]) + (EscapeText(s[1..][..n - 1]) + EscapeText([s[n]]) + EscapeText(s[n + 1..])) ==
             (EscapeChar(s[0]) + EscapeText(s[1..][..n - 1])) + EscapeText([s[n]]) + EscapeText(s[n + 1..]);
    }
  }

  // ---- that is what is printed

  lemma {:induction false} BlanksAreSpaces(n: nat)
    ensures Blanks(n) == Spaces(n)
  {
    if n > 0 {
      BlanksAreSpaces(n - 1);
      assert Spaces(n) == [' '] + Spaces(n - 1);
    }
  }

  lemma PiecesAre(any: bool, level: nat, f: Flags)
    ensures NewLine(f) == if f.pretty then "\n" else ""
    ensures Lead(level, f) == (if f.spaced then " " else "") + if f.pretty then Spaces(2 * level + 2) else ""
    ensures Trail(any, level, f) ==
            (if f.pretty then (if any then "\n" else "") + Spaces(2 * level) else "") + if f.spaced then " " else ""
  {
    BlanksAreSpaces(level * 2);
    BlanksAreSpaces((level + 1) * 2);
    hide Blanks, Spaces;
  }

  lemma BracketedIs(open: char, parts: seq<Text>, close: char, level: nat, f: Flags, inside: Text)
    requires inside ==
             if parts == [] then ""
             else Lead(level, f) + Join(parts, "," + NewLine(f) + Lead(level, f))
    ensures [open] + NewLine(f) + inside + Trail(parts != [], level, f) + [close] ==
            Bracketed(open, parts, close, level, f)
  {
    PiecesAre(parts != [], level, f);
    assert Join([], ",") == "";
    hide NewLine, Lead, Trail, Join, Spaces;
    if parts == [] {
      Nothing([open], [close], Spaces(2 * level), f);
    } else if !f.pretty {
      OnOneLine([open], parts, [close], level, f);
    } else {
      OnLines([open], parts, [close], level, f);
    }
  }

  lemma Nothing(open: Text, close: Text, indent: Text, f: Flags)
    ensures var gap := if f.spaced then " " else "";
            open + (if f.pretty then "\n" else "") + "" + ((if f.pretty then "" + indent else "") + gap) + close ==
            if f.pretty then open + "\n" + indent + gap + close else open + gap + close
    ensures f.pretty && !f.spaced ==> open + "\n" + indent + "" + close == open + "\n" + indent + close
  {
    var gap := if f.spaced then " " else "";
    if f.pretty {
      assert open + "\n" + (indent + gap) == open + "\n" + indent + gap;
    }
  }

  lemma OnOneLine(open: Text, parts: seq<Text>, close: Text, level: nat, f: Flags)
    requires !f.pretty
    ensures var gap := if f.spaced then " " else "";
            open + "" + ((gap + "") + Join(parts, "," + "" + (gap + ""))) + ("" + gap) + close ==
            if f.spaced then open + " " + Join(parts, ", ") + " " + close else open + Join(parts, ",") + close
  {
    var gap := if f.spaced then " " else "";
    var sep := if f.spaced then ", " else ",";
    assert "," + "" + (gap + "") == sep;
    hide Join;
    assert open + "" == open && gap + "" == gap && "" + gap == gap;
    if f.spaced {
      assert open + (" " + Join(parts, sep)) == open + " " + Join(parts, sep);
    } else {
      assert "" + Join(parts, sep) == Join(parts, sep) && open + Join(parts, sep) + "" == open + Join(parts, sep);
    }
  }

  lemma OnLines(open: Text, parts: seq<Text>, close: Text, level: nat, f: Flags)
    requires f.pretty
    ensures var gap := if f.spaced then " " else "";
            var lead, trail := gap + Spaces(2 * level + 2), "\n" + Spaces(2 * level) + gap;
            var line := (if f.spaced then "\n " else "\n") + Spaces(2 * level + 2);
            && open + "\n" + (lead + Join(parts, "," + "\n" + lead)) + trail + close ==
               open + line + Join(parts, "," + line) + "\n" + Spaces(2 * level) + gap + close
            && line == "\n" + lead
  {
    hide Join, Spaces;
    var gap := if f.spaced then " " else "";
    var lead, trail := gap + Spaces(2 * level + 2), "\n" + Spaces(2 * level) + gap;
    var line := (if f.spaced then "\n " else "\n") + Spaces(2 * level + 2);
    assert line == "\n" + lead && "," + "\n" + lead == "," + line;
    var j := Join(parts, "," + line);
    assert open + "\n" + (lead + j) == open + line + j;
    assert (open + line + j) + trail == open + line + j + "\n" + Spaces(2 * level) + gap;
  }

  lemma JoinMore(lead: Text, newLine: Text, first: Text, rest: seq<Text>, separator: Text)
    requires separator == "," + newLine + lead && rest != []
    ensures lead + Join([first] + rest, separator) ==
            lead + first + ("," + newLine + (lead + Join(rest, separator)))
  {
    assert ([first] + rest)[1..] == rest;
    hide Join;
  }

  lemma {:induction false} ElementsAreJoined(es: seq<Value>, level: nat, f: Flags)
    requires es != []
    ensures PrintElements(es, level, f) ==
            Lead(level, f) + Join(Elements(es, level, f), "," + NewLine(f) + Lead(level, f))
    decreases es, 0
  {
    hide Print, LaidOut, Lead, NewLine;
    PrintIsLaidOut(es[0], level + 1, f);
    if |es| > 1 {
      ElementsAreJoined(es[1..], level, f);
      JoinMore(Lead(level, f), NewLine(f), LaidOut(es[0], level + 1, f), Elements(es[1..], level, f),
               "," + NewLine(f) + Lead(level, f));
    }
  }

  lemma {:induction false} MemberIsLaidOut(m: (Text, Value), level: nat, f: Flags)
    ensures PrintMember(m, level, f) == Lead(level, f) + Member(m, level, f)
    decreases m, 2
  {
    hide Print, LaidOut, Lead, EscapeText;
    PrintIsLaidOut(m.1, level + 1, f);
    var front := "\"" + EscapeText(m.0);
    assert (['"'] + EscapeText(m.0) + ['"']) + [':'] + Gap(f) == front + (if f.spaced then "\": " else "\":");
  }

  lemma {:induction false} MembersAreJoined(ms: Entries<Text, Value>, level: nat, f: Flags)
    requires ms != []
    ensures PrintMembers(ms, level, f) ==
            Lead(level, f) + Join(Members(ms, level, f), "," + NewLine(f) + Lead(level, f))
    decreases ms, 0
  {
    hide PrintMember, Member, Lead, NewLine;
    MemberIsLaidOut(ms[0], level, f);
    if |ms| > 1 {
      MembersAreJoined(ms[1..], level, f);
      JoinMore(Lead(level, f), NewLine(f), Member(ms[0], level, f), Members(ms[1..], level, f),
               "," + NewLine(f) + Lead(level, f));
    }
  }

  lemma {:induction false} PrintIsLaidOut(v: Value, level: nat, f: Flags)
    ensures Print(v, level, f) == LaidOut(v, level, f)
    decreases v, 1
  {
    match v
    case JArray(es) =>
      if es != [] {
        ElementsAreJoined(es, level, f);
      }
      BracketedIs('[', Elements(es, level, f), ']', level, f, PrintElements(es, level, f));
    case JObject(ms) =>
      if ms != [] {
        MembersAreJoined(ms, level, f);
      }
      BracketedIs('{', Members(ms, level, f), '}', level, f, PrintMembers(ms, level, f));
    case _ =>
  }
}
