// JSON texts as syntax trees (sections 2 to 7 of RFC 8259): how a tree is written and what it means.

module Grammar {
  import opened Arith
  import opened Options
  import opened Chars
  import opened OrderedMap
  import opened JsonValue
  import opened Numbers
  import opened Unicode
  import opened Tokener
  import opened Reader

  // A character of a string: itself, a two-character escape, or a \u escape with its four digits
  datatype Item = Raw(c: char) | Short(c: char) | Code(digits: Text)

  datatype Json =
    | GNull | GBool(b: bool)
    | GNumber(text: Text)
    | GString(items: seq<Item>)
    | GEmptyArray(ws: Text)
    | GArray(elements: Elements)
    | GEmptyObject(ws: Text)
    | GObject(members: Membs)

  // Values with the white space in front of and behind them
  datatype Elements = Elements(before: Text, value: Json, after: Text, rest: More)
  datatype More = NoMore | Comma(elements: Elements)

  datatype Membs = Membs(
    before: Text, key: seq<Item>, beforeColon: Text, afterColon: Text, value: Json, after: Text, rest: MoreMembs)
  datatype MoreMembs = NoMoreMembs | MembComma(members: Membs)

  // ---- how trees are written

  function ItemText(i: Item): Text {
    match i
    case Raw(c) => [c]
    case Short(c) => ['\\', c]
    case Code(digits) => ['\\', 'u'] + digits
  }

  function ItemsText(s: seq<Item>): Text {
    if s == [] then "" else ItemText(s[0]) + ItemsText(s[1..])
  }

  function InQuotes(s: seq<Item>): Text {
    ['"'] + ItemsText(s) + ['"']
  }

  function Written(g: Json): Text {
    match g
    case GNull => "null"
    case GBool(b) => if b then "true" else "false"
    case GNumber(text) => text
    case GString(items) => InQuotes(items)
    case GEmptyArray(ws) => ['['] + ws + [']']
    case GArray(es) => ['['] + ElementsText(es)
    case GEmptyObject(ws) => ['{'] + ws + ['}']
    case GObject(ms) => ['{'] + MembsText(ms)
  }

  // Up to and including the closing bracket
  function ElementsText(es: Elements): Text {
    es.before + Written(es.value) + es.after + MoreText(es.rest)
  }

  function MoreText(m: More): Text {
    match m
    case NoMore => [']']
    case Comma(es) => [','] + ElementsText(es)
  }

  function MembsText(ms: Membs): Text {
    ms.before + InQuotes(ms.key) + ms.beforeColon + [':'] + ms.afterColon + Written(ms.value) + ms.after +
    MoreMembsText(ms.rest)
  }

  function MoreMembsText(m: MoreMembs): Text {
    match m
    case NoMoreMembs => ['}']
    case MembComma(ms) => [','] + MembsText(ms)
  }

  // ---- what strings mean

  function HexValue(c: char): nat
    requires IsHexDigit(c)
  {
    if '0' <= c <= '9' then c as int - '0' as int
    else if 'a' <= c <= 'f' then c as int - 'a' as int + 10
    else c as int - 'A' as int + 10
  }

  predicate FourHexDigits(d: Text) {
    |d| == 4 && IsHexDigit(d[0]) && IsHexDigit(d[1]) && IsHexDigit(d[2]) && IsHexDigit(d[3])
  }

  function CodeUnit(d: Text): nat
    requires FourHexDigits(d)
  {
    HexValue(d[0]) * 4096 + HexValue(d[1]) * 256 + HexValue(d[2]) * 16 + HexValue(d[3])
  }

  predicate ItemOk(i: Item) {
    match i
    case Raw(c) => c >= ' ' && c != '"' && c != '\\'
    case Short(c) => Unescape(c).Some?
    case Code(digits) => FourHexDigits(digits)
  }

  predicate ItemsOk(s: seq<Item>) {
    forall i | 0 <= i < |s| :: ItemOk(s[i])
  }

  predicate IsHighUnit(i: Item) {
    i.Code? && ItemOk(i) && 0xD800 <= CodeUnit(i.digits) < 0xDC00
  }

  predicate IsLowUnit(i: Item) {
    i.Code? && ItemOk(i) && 0xDC00 <= CodeUnit(i.digits) < 0xE000
  }

  // The scalar value of a surrogate pair (section 7 of RFC 8259)
  function PairValue(hi: Item, lo: Item): nat
    requires IsHighUnit(hi) && IsLowUnit(lo)
  {
    0x10000 + (CodeUnit(hi.digits) - 0xD800) * 0x400 + (CodeUnit(lo.digits) - 0xDC00)
  }

  // A string's bytes: a pair of surrogates is one character, a lone one is replaced.
  function Decode(s: seq<Item>): Text
    requires ItemsOk(s)
  {
    if s == [] then ""
    else
      match s[0]
      case Raw(c) => [c] + Decode(s[1..])
      case Short(c) => [Unescape(c).value] + Decode(s[1..])
      case Code(digits) =>
        if IsHighUnit(s[0]) && |s| > 1 && IsLowUnit(s[1]) then Utf8(PairValue(s[0], s[1])) + Decode(s[2..])
        else if IsHighUnit(s[0]) || IsLowUnit(s[0]) then REPLACEMENT + Decode(s[1..])
        else Utf8(CodeUnit(digits)) + Decode(s[1..])
  }

  // A pair whose value the tokener takes for another surrogate: it tests the low 16 bits only.
  predicate Misread(hi: Item, lo: Item)
    requires IsHighUnit(hi) && IsLowUnit(lo)
  {
    0xD800 <= PairValue(hi, lo) % 0x10000 < 0xE000
  }

  predicate Clean(s: seq<Item>)
    requires ItemsOk(s)
  {
    if s == [] then true
    else if IsHighUnit(s[0]) && |s| > 1 && IsLowUnit(s[1]) then !Misread(s[0], s[1]) && Clean(s[2..])
    else Clean(s[1..])
  }

  // ---- what trees mean

  predicate IsWs(s: Text) {
    forall i | 0 <= i < |s| :: s[i] == ' ' || s[i] == '\t' || s[i] == '\n' || s[i] == '\r'
  }

  // A number as sscanf reads it: an integer, or a text with '.', 'e' or 'E' that scans as a double
  predicate NumberOk(env: Env, s: Text) {
    && s != [] && (IsDigit(s[0]) || s[0] == '-')
    && (forall i | 0 <= i < |s| :: IsNumberChar(s[i]))
    && (if IsReal(s) then env.scansAsDouble(s)
        else ScanInt64(s).Some? && (env.strict && s[0] == '0' ==> ScanInt64(s).value == 0))
  }

  function NumberValue(env: Env, s: Text): Value
    requires NumberOk(env, s)
  {
    if IsReal(s) then JDouble(s) else JInt(ScanInt64(s).value)
  }

  predicate StringOk(s: seq<Item>) {
    ItemsOk(s) && Clean(s)
  }

  // A key loses everything from a NUL on, so it must not have one.
  predicate KeyOk(s: seq<Item>) {
    StringOk(s) && '\0' !in Decode(s)
  }

  predicate Ok(env: Env, g: Json) {
    match g
    case GNull => true
    case GBool(_) => true
    case GNumber(text) => NumberOk(env, text)
    case GString(items) => StringOk(items)
    case GEmptyArray(ws) => IsWs(ws)
    case GArray(es) => ElementsOk(env, es)
    case GEmptyObject(ws) => IsWs(ws)
    case GObject(ms) => MembsOk(env, ms)
  }

  predicate ElementsOk(env: Env, es: Elements) {
    && IsWs(es.before) && Ok(env, es.value) && IsWs(es.after)
    && (es.rest.Comma? ==> ElementsOk(env, es.rest.elements))
  }

  predicate MembsOk(env: Env, ms: Membs) {
    && IsWs(ms.before) && KeyOk(ms.key) && IsWs(ms.beforeColon) && IsWs(ms.afterColon)
    && Ok(env, ms.value) && IsWs(ms.after)
    && (ms.rest.MembComma? ==> MembsOk(env, ms.rest.members))
  }

  function Meaning(env: Env, g: Json): Value
    requires Ok(env, g)
  {
    match g
    case GNull => JNull
    case GBool(b) => JBool(b)
    case GNumber(text) => NumberValue(env, text)
    case GString(items) => JString(Decode(items))
    case GEmptyArray(_) => JArray([])
    case GArray(es) => JArray(ElementValues(env, es))
    case GEmptyObject(_) => JObject([])
    case GObject(ms) => JObject(MemberValues(env, ms, []))
  }

  function ElementValues(env: Env, es: Elements): seq<Value>
    requires ElementsOk(env, es)
  {
    [Meaning(env, es.value)] + (if es.rest.Comma? then ElementValues(env, es.rest.elements) else [])
  }

  // A repeated key keeps its first place and its last value.
  function MemberValues(env: Env, ms: Membs, sofar: Members): Members
    requires MembsOk(env, ms)
  {
    var next := Put(sofar, Decode(ms.key), Meaning(env, ms.value));
    if ms.rest.MembComma? then MemberValues(env, ms.rest.members, next) else next
  }

  // Levels a value takes on the tokener's stack below its own; an empty container takes none.
  function Nesting(g: Json): nat {
    match g
    case GArray(es) => 1 + ElementsNesting(es)
    case GObject(ms) => 1 + MembsNesting(ms)
    case _ => 0
  }

  function ElementsNesting(es: Elements): nat {
    if es.rest.Comma? then Max(Nesting(es.value), ElementsNesting(es.rest.elements)) else Nesting(es.value)
  }

  function MembsNesting(ms: Membs): nat {
    if ms.rest.MembComma? then Max(Nesting(ms.value), MembsNesting(ms.rest.members)) else Nesting(ms.value)
  }
}
