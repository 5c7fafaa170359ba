// Printing and then parsing: a printed value is a well-formed text that means that value.

module RoundTrip {
  import opened Arith
  import opened Options
  import opened Chars
  import opened OrderedMap
  import opened JsonValue
  import opened Numbers
  import opened Unicode
  import opened Tokener
  import opened TokenerRun
  import opened Reader
  import opened TokenerRefines
  import opened Grammar
  import opened NumberForms
  import opened StringReads
  import opened GrammarReads
  import opened Printer

  // ---- integers

  lemma {:induction false} DecimalIsNat(n: nat)
    ensures Decimal(n) != [] && AllDigits(Decimal(n)) && NatOf(Decimal(n)) == n
    ensures n > 0 ==> Decimal(n)[0] != '0'
  {
    if n >= 10 {
      DecimalIsNat(n / 10);
      assert Decimal(n)[..|Decimal(n)| - 1] == Decimal(n / 10);
    } else {
      assert NatOf([]) == 0;
      assert Decimal(n)[..0] == [];
    }
  }

  lemma IntegerReads(env: Env, n: int)
    requires INT64_MIN <= n <= INT64_MAX
    ensures NumberOk(env, PrintInt(n)) && NumberValue(env, PrintInt(n)) == JInt(n)
  {
    var m := if n < 0 then -n else n;
    var d := Decimal(m);
    DecimalIsNat(m);
    assert n == 0 ==> |d| == 1;
    assert PrintInt(n) == MinusText(n < 0) + d;
    hide Decimal, NatOf, NumberOk, NumberValue, PrintInt;
    IntegerOk(env, n < 0, d);
  }

  // ---- strings

  // How the printer writes a character
  function ItemOf(c: char): Item {
    if c == 0x08 as char then Short('b')
    else if c == '\n' then Short('n')
    else if c == '\r' then Short('r')
    else if c == '\t' then Short('t')
    else if c == 0x0C as char then Short('f')
    else if c == '"' || c == '\\' || c == '/' then Short(c)
    else if c < ' ' then Code(['0', '0', HexChar(c as int / 16), HexChar(c as int % 16)])
    else Raw(c)
  }

  function ItemsOf(s: Text): seq<Item> {
    if s == [] then [] else [ItemOf(s[0])] + ItemsOf(s[1..])
  }

  lemma HexCharValue(d: nat)
    requires d < 16
    ensures IsHexDigit(HexChar(d)) && HexValue(HexChar(d)) == d
  {
  }

  lemma EscapeIsItem(c: char)
    ensures ItemText(ItemOf(c)) == EscapeChar(c)
  {
  }

  lemma ItemOfIsOk(c: char)
    ensures ItemOk(ItemOf(c)) && !IsHighUnit(ItemOf(c)) && !IsLowUnit(ItemOf(c))
    ensures ItemOf(c).Raw? ==> ItemOf(c).c == c
    ensures ItemOf(c).Short? ==> Unescape(ItemOf(c).c) == Some(c)
    ensures ItemOf(c).Code? ==> CodeUnit(ItemOf(c).digits) == c as int < 0x20
  {
    HexCharValue(c as int / 16 % 16);
    HexCharValue(c as int % 16);
    hide HexChar;
  }

  lemma {:induction false} EscapedText(s: Text)
    ensures ItemsText(ItemsOf(s)) == EscapeText(s)
  {
    if s != [] {
      EscapedText(s[1..]);
      EscapeIsItem(s[0]);
      hide ItemText, ItemOf, EscapeChar;
    }
  }

  lemma {:induction false} EscapedIsOk(s: Text)
    ensures StringOk(ItemsOf(s))
  {
    if s != [] {
      EscapedIsOk(s[1..]);
      ItemOfIsOk(s[0]);
      assert ItemsOf(s)[0] == ItemOf(s[0]) && ItemsOf(s)[1..] == ItemsOf(s[1..]);
      hide ItemOk, ItemOf, IsHighUnit, IsLowUnit;
    }
  }

  // Escaping is undone by decoding, for every string.
  lemma {:induction false} EscapeDecodes(s: Text)
    ensures StringOk(ItemsOf(s)) && Decode(ItemsOf(s)) == s
  {
    EscapedIsOk(s);
    if s != [] {
      EscapeDecodes(s[1..]);
      ItemOfIsOk(s[0]);
      DecodeStep(ItemsOf(s));
      assert ItemsOf(s)[0] == ItemOf(s[0]) && ItemsOf(s)[1..] == ItemsOf(s[1..]);
      hide ItemOk, ItemOf, IsHighUnit, IsLowUnit, Decode, StringOk, CodeUnit, Unescape;
      assert s == [s[0]] + s[1..];
    }
  }

  // ---- values

  // A value the printer and the parser agree on: integers of 64 bits, doubles that carry a source
  // text which scans, keys without a NUL, no infinities and no NaN.
  predicate Printable(env: Env, v: Value) {
    match v
    case JNull => true
    case JBool(_) => true
    case JInt(n) => INT64_MIN <= n <= INT64_MAX
    case JDouble(source) => IsReal(source) && NumberOk(env, source)
    case JInfinity(_) => false
    case JNaN => false
    case JString(_) => true
    case JArray(es) => forall i | 0 <= i < |es| :: Printable(env, es[i])
    case JObject(ms) =>
      Distinct(ms) && forall i | 0 <= i < |ms| :: '\0' !in ms[i].0 && Printable(env, ms[i].1)
  }

  // Levels of containers below the outermost one; a container that is empty counts as none.
  function Levels(v: Value): nat
    decreases v, 1
  {
    match v
    case JArray(es) => if es == [] then 0 else 1 + DeepestElement(es)
    case JObject(ms) => if ms == [] then 0 else 1 + DeepestMember(ms)
    case _ => 0
  }

  function DeepestElement(es: seq<Value>): nat
    decreases es, 0
  {
    if es == [] then 0 else Max(Levels(es[0]), DeepestElement(es[1..]))
  }

  function DeepestMember(ms: Members): nat
    decreases ms, 0
  {
    if ms == [] then 0 else Max(MemberLevels(ms[0]), DeepestMember(ms[1..]))
  }

  function MemberLevels(m: (Text, Value)): nat
    decreases m, 2
  {
    Levels(m.1)
  }

  // The syntax tree of a printed value
  function TreeOf(v: Value, level: nat, f: Flags): Json
    decreases v, 1
  {
    match v
    case JNull => GNull
    case JBool(b) => GBool(b)
    case JInt(n) => GNumber(PrintInt(n))
    case JDouble(source) => GNumber(source)
    case JInfinity(_) => GNull
    case JNaN => GNull
    case JString(s) => GString(ItemsOf(s))
    case JArray(es) =>
      if es == [] then GEmptyArray(NewLine(f) + Trail(false, level, f)) else GArray(ElementsOf(es, level, f))
    case JObject(ms) =>
      if ms == [] then GEmptyObject(NewLine(f) + Trail(false, level, f)) else GObject(MembsOf(ms, level, f))
  }

  function ElementsOf(es: seq<Value>, level: nat, f: Flags): Elements
    requires es != []
    decreases es, 0
  {
    var before, v := NewLine(f) + Lead(level, f), TreeOf(es[0], level + 1, f);
    if |es| == 1 then Elements(before, v, Trail(true, level, f), NoMore)
    else Elements(before, v, "", Comma(ElementsOf(es[1..], level, f)))
  }

  function MemberTree(m: (Text, Value), level: nat, f: Flags): Json
    decreases m, 2
  {
    TreeOf(m.1, level + 1, f)
  }

  function MembsOf(ms: Members, level: nat, f: Flags): Membs
    requires ms != []
    decreases ms, 0
  {
    var before, v := NewLine(f) + Lead(level, f), MemberTree(ms[0], level, f);
    if |ms| == 1 then
      Membs(before, ItemsOf(ms[0].0), "", Gap(f), v, Trail(true, level, f), NoMoreMembs)
    else
      Membs(before, ItemsOf(ms[0].0), "", Gap(f), v, "", MembComma(MembsOf(ms[1..], level, f)))
  }

  // ---- a printed value is its tree written out

  lemma {:induction false} PrintIsWritten(env: Env, v: Value, level: nat, f: Flags)
    requires Printable(env, v)
    ensures Written(TreeOf(v, level, f)) == Print(v, level, f)
    decreases v, 1
  {
    match v
    case JString(s) => EscapedText(s); hide ItemsText, ItemsOf, EscapeText;
    case JArray(es) => if es != [] { PrintElementsIsWritten(env, es, level, f); } PrintArrayIsWritten(es, level, f);
    case JObject(ms) => if ms != [] { PrintMembersIsWritten(env, ms, level, f); } PrintObjectIsWritten(ms, level, f);
    case _ =>
  }

  lemma PrintArrayIsWritten(es: seq<Value>, level: nat, f: Flags)
    requires es != [] ==>
               ElementsText(ElementsOf(es, level, f)) ==
               NewLine(f) + PrintElements(es, level, f) + Trail(true, level, f) + [']']
    ensures Written(TreeOf(JArray(es), level, f)) == Print(JArray(es), level, f)
  {
    hide ElementsText, ElementsOf, Trail, NewLine;
  }

  lemma PrintObjectIsWritten(ms: Members, level: nat, f: Flags)
    requires ms != [] ==>
               MembsText(MembsOf(ms, level, f)) ==
               NewLine(f) + PrintMembers(ms, level, f) + Trail(true, level, f) + ['}']
    ensures Written(TreeOf(JObject(ms), level, f)) == Print(JObject(ms), level, f)
  {
    hide MembsText, MembsOf, Trail, NewLine;
  }

  lemma {:induction false} PrintElementsIsWritten(env: Env, es: seq<Value>, level: nat, f: Flags)
    requires es != [] && forall i | 0 <= i < |es| :: Printable(env, es[i])
    ensures ElementsText(ElementsOf(es, level, f)) ==
            NewLine(f) + PrintElements(es, level, f) + Trail(true, level, f) + [']']
    decreases es, 0
  {
    hide Printable, Trail, NewLine, Lead, Print, Written, TreeOf;
    PrintIsWritten(env, es[0], level + 1, f);
    if |es| > 1 {
      PrintElementsIsWritten(env, es[1..], level, f);
    }
  }

  lemma {:induction false} PrintMemberIsWritten(env: Env, m: (Text, Value), level: nat, f: Flags)
    requires Printable(env, m.1)
    ensures Written(MemberTree(m, level, f)) == Print(m.1, level + 1, f)
    decreases m, 2
  {
    PrintIsWritten(env, m.1, level + 1, f);
  }

  lemma {:induction false} PrintMembersIsWritten(env: Env, ms: Members, level: nat, f: Flags)
    requires ms != [] && forall i | 0 <= i < |ms| :: Printable(env, ms[i].1)
    ensures MembsText(MembsOf(ms, level, f)) ==
            NewLine(f) + PrintMembers(ms, level, f) + Trail(true, level, f) + ['}']
    decreases ms, 0
  {
    hide Printable, Trail, NewLine, Lead, Print, Written, TreeOf, MemberTree, Gap, ItemsText, ItemsOf, EscapeText;
    PrintMemberIsWritten(env, ms[0], level, f);
    EscapedText(ms[0].0);
    if |ms| > 1 {
      hide PrintMember;
      PrintMembersIsWritten(env, ms[1..], level, f);
      assert PrintMembers(ms, level, f) ==
             PrintMember(ms[0], level, f) + ([','] + NewLine(f) + PrintMembers(ms[1..], level, f));
    }
  }

  // ---- and means the value

  lemma {:induction false} SpacesAreWs(n: nat)
    ensures IsWs(Blanks(n))
  {
    if n > 0 {
      SpacesAreWs(n - 1);
    }
  }

  lemma LayoutIsWs(any: bool, level: nat, f: Flags)
    ensures IsWs(NewLine(f) + Lead(level, f))
    ensures IsWs(NewLine(f) + Trail(false, level, f))
    ensures IsWs(Trail(any, level, f))
    ensures IsWs(Gap(f))
  {
    SpacesAreWs(level * 2);
    SpacesAreWs((level + 1) * 2);
    hide Blanks;
  }

  ghost predicate TreeMeans(env: Env, g: Json, v: Value) {
    Ok(env, g) && Meaning(env, g) == v && Nesting(g) == Levels(v)
  }

  lemma {:induction false} TreeIsRight(env: Env, v: Value, level: nat, f: Flags)
    requires Printable(env, v)
    ensures TreeMeans(env, TreeOf(v, level, f), v)
    decreases v, 1
  {
    hide TreeOf, Ok, Meaning, Nesting, Levels;
    match v
    case JArray(es) => ArrayIsRight(env, es, level, f);
    case JObject(ms) => ObjectIsRight(env, ms, level, f);
    case _ => ScalarIsRight(env, v, level, f);
  }

  lemma ScalarIsRight(env: Env, v: Value, level: nat, f: Flags)
    requires Printable(env, v) && !v.JArray? && !v.JObject?
    ensures TreeMeans(env, TreeOf(v, level, f), v)
  {
    hide NumberOk, NumberValue, PrintInt, StringOk, Decode, ItemsOf;
    match v
    case JInt(n) => IntegerReads(env, n);
    case JDouble(source) => DoubleReads(env, source);
    case JString(s) => EscapeDecodes(s);
    case _ =>
  }

  lemma DoubleReads(env: Env, source: Text)
    requires NumberOk(env, source) && IsReal(source)
    ensures NumberValue(env, source) == JDouble(source)
  {
    hide NumberOk;
  }

  lemma {:induction false} ArrayIsRight(env: Env, es: seq<Value>, level: nat, f: Flags)
    requires forall i | 0 <= i < |es| :: Printable(env, es[i])
    ensures TreeMeans(env, TreeOf(JArray(es), level, f), JArray(es))
    decreases es, 1
  {
    hide Printable, ElementsOk, ElementsOf, ElementValues, NewLine, Trail, IsWs;
    LayoutIsWs(false, level, f);
    if es != [] {
      ElementsAreRight(env, es, level, f);
    }
  }

  lemma {:induction false} ObjectIsRight(env: Env, ms: Members, level: nat, f: Flags)
    requires Distinct(ms) && forall i | 0 <= i < |ms| :: '\0' !in ms[i].0 && Printable(env, ms[i].1)
    ensures TreeMeans(env, TreeOf(JObject(ms), level, f), JObject(ms))
    decreases ms, 1
  {
    hide Printable, MembsOk, MembsOf, MemberValues, NewLine, Trail, IsWs;
    if ms == [] {
      LayoutIsWs(false, level, f);
    } else {
      assert [] + ms == ms;
      MembsAreRight(env, [], ms, level, f);
    }
  }

  lemma {:induction false} ElementsAreRight(env: Env, es: seq<Value>, level: nat, f: Flags)
    requires es != [] && forall i | 0 <= i < |es| :: Printable(env, es[i])
    ensures var g := ElementsOf(es, level, f);
            ElementsOk(env, g) && ElementValues(env, g) == es && ElementsNesting(g) == DeepestElement(es)
    decreases es, 0
  {
    hide Printable, NewLine, Trail, Lead, IsWs, Meaning, Levels, Ok, Nesting, TreeOf;
    LayoutIsWs(true, level, f);
    TreeIsRight(env, es[0], level + 1, f);
    assert IsWs("") by { NothingIsWs(); }
    if |es| > 1 {
      ElementsAreRight(env, es[1..], level, f);
    }
  }

  lemma NothingIsWs()
    ensures IsWs("")
  {
  }

  lemma {:induction false} MemberIsRight(env: Env, m: (Text, Value), level: nat, f: Flags)
    requires Printable(env, m.1) && '\0' !in m.0
    ensures TreeMeans(env, MemberTree(m, level, f), m.1)
    ensures KeyOk(ItemsOf(m.0)) && Decode(ItemsOf(m.0)) == m.0
    ensures MemberLevels(m) == Levels(m.1)
    decreases m, 2
  {
    TreeIsRight(env, m.1, level + 1, f);
    EscapeDecodes(m.0);
    hide StringOk, Decode, ItemsOf, TreeOf, Levels;
  }

  // The members behind `sofar`, whose keys are all different
  lemma {:induction false} MembsAreRight(env: Env, sofar: Members, ms: Members, level: nat, f: Flags)
    requires ms != [] && Distinct(sofar + ms)
    requires forall i | 0 <= i < |ms| :: '\0' !in ms[i].0 && Printable(env, ms[i].1)
    ensures var g := MembsOf(ms, level, f);
            MembsOk(env, g) && MemberValues(env, g, sofar) == sofar + ms && MembsNesting(g) == DeepestMember(ms)
    decreases ms, 0
  {
    hide Printable, NewLine, Trail, Lead, IsWs, Meaning, Levels, Ok, Nesting, TreeOf, KeyOk, Decode, ItemsOf,
         MemberTree;
    LayoutIsWs(true, level, f);
    NothingIsWs();
    MemberIsRight(env, ms[0], level, f);
    assert sofar + [ms[0]] + ms[1..] == sofar + ms;
    NewKeyIsAppended(sofar, ms[0], ms[1..]);
    if |ms| > 1 {
      MembsAreRight(env, sofar + [ms[0]], ms[1..], level, f);
    }
  }

  lemma NewKeyIsAppended<K, V>(sofar: Entries<K, V>, m: (K, V), rest: Entries<K, V>)
    requires Distinct(sofar + [m] + rest)
    ensures Put(sofar, m.0, m.1) == sofar + [m]
  {
    var all := sofar + [m] + rest;
    assert all[|sofar|] == m;
    assert forall i | 0 <= i < |sofar| :: all[i] == sofar[i];
  }

  // ---- the round trip

  // Parsing what was printed, with any flags and in any ready tokener, gives the value back, all
  // of the text consumed, exactly when the value fits the stack.
  lemma PrintThenParse(env: Env, tok: Tok, v: Value, f: Flags)
    requires Ready(tok) && Printable(env, v) && env.maxDepth >= 1
    ensures var text := Print(v, 0, f);
            var o := Run(env, tok, text + Nul());
            if Levels(v) < env.maxDepth then o.err == Success && o.value == v && o.used == |text|
            else o.err == TooDeep && o.value == JNull
  {
    hide Print, TreeOf, Written, Ok, Meaning, Levels, Nesting, Printable, ReadDocument, Run;
    var g, text := TreeOf(v, 0, f), Print(v, 0, f);
    PrintIsWritten(env, v, 0, f);
    TreeIsRight(env, v, 0, f);
    DocumentReads(env, g, "", "", tok.stPos == 0);
    assert "" + text + "" + Nul() == text + Nul();
    RunIsRead(env, tok, text + Nul());
  }
}
