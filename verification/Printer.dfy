// json_object_to_json_string_ext: how values are printed.

module Printer {
  import opened Options
  import opened Chars
  import opened OrderedMap
  import opened JsonValue
  import opened Tokener

  // JSON_C_TO_STRING_SPACED and JSON_C_TO_STRING_PRETTY
  datatype Flags = Flags(spaced: bool, pretty: bool)

  // json_hex_chars[d]
  function HexChar(d: nat): char
    requires d < 16
  {
    if d < 10 then ('0' as int + d) as char else ('a' as int + d - 10) as char
  }

  function EscapeChar(c: char): Text {
    if c == 0x08 as char then "\\b"
    else if c == '\n' then "\\n"
    else if c == '\r' then "\\r"
    else if c == '\t' then "\\t"
    else if c == 0x0C as char then "\\f"
    else if c == '"' then "\\\""
    else if c == '\\' then "\\\\"
    else if c == '/' then "\\/"
    else if c < ' ' then "\\u00" + [HexChar(c as int / 16), HexChar(c as int % 16)]
    else [c]
  }

  // json_escape_str
  function EscapeText(s: Text): Text {
    if s == [] then "" else EscapeChar(s[0]) + EscapeText(s[1..])
  }

  function Digit(d: nat): char
    requires d < 10
  {
    ('0' as int + d) as char
  }

  function Decimal(n: nat): Text {
    if n < 10 then [Digit(n)] else Decimal(n / 10) + [Digit(n % 10)]
  }

  // "%lld"
  function PrintInt(n: int): Text {
    if n < 0 then ['-'] + Decimal(-n) else Decimal(n)
  }

  function Blanks(n: nat): Text {
    if n == 0 then "" else [' '] + Blanks(n - 1)
  }

  function NewLine(f: Flags): Text {
    if f.pretty then "\n" else ""
  }

  function Gap(f: Flags): Text {
    if f.spaced then " " else ""
  }

  function Indent(level: nat, f: Flags): Text {
    if f.pretty then Blanks(level * 2) else ""
  }

  // In front of an element or a member
  function Lead(level: nat, f: Flags): Text {
    Gap(f) + Indent(level + 1, f)
  }

  // Behind the last one, without the bracket
  function Trail(any: bool, level: nat, f: Flags): Text {
    (if any then NewLine(f) else "") + Indent(level, f) + Gap(f)
  }

  // The _to_json_string function of a value, at some level of indentation
  function Print(v: Value, level: nat, f: Flags): Text
    decreases v, 1
  {
    match v
    case JNull => "null"
    case JBool(b) => if b then "true" else "false"
    case JInt(n) => PrintInt(n)
    case JDouble(source) => source
    case JInfinity(negative) => if negative then "-Infinity" else "Infinity"
    case JNaN => "NaN"
    case JString(s) => ['"'] + EscapeText(s) + ['"']
    case JArray(es) => ['['] + NewLine(f) + PrintElements(es, level, f) + Trail(es != [], level, f) + [']']
    case JObject(ms) => ['{'] + NewLine(f) + PrintMembers(ms, level, f) + Trail(ms != [], level, f) + ['}']
  }

  function PrintElements(es: seq<Value>, level: nat, f: Flags): Text
    decreases es, 0
  {
    if es == [] then ""
    else
      Lead(level, f) + Print(es[0], level + 1, f) +
      (if |es| == 1 then "" else [','] + NewLine(f) + PrintElements(es[1..], level, f))
  }

  function PrintMember(m: (Text, Value), level: nat, f: Flags): Text
    decreases m, 2
  {
    Lead(level, f) + (['"'] + EscapeText(m.0) + ['"']) + [':'] + Gap(f) + Print(m.1, level + 1, f)
  }

  function PrintMembers(ms: Members, level: nat, f: Flags): Text
    decreases ms, 0
  {
    if ms == [] then ""
    else
      PrintMember(ms[0], level, f) +
      (if |ms| == 1 then "" else [','] + NewLine(f) + PrintMembers(ms[1..], level, f))
  }
}
