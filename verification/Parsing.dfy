// What a call of json_tokener_parse_ex does with well-formed texts, and what it can return at all.

module Parsing {
  import opened Options
  import opened Chars
  import opened OrderedMap
  import opened JsonValue
  import opened Numbers
  import opened Tokener
  import opened TokenerRun
  import opened Reader
  import opened TokenerRefines
  import opened Grammar
  import opened GrammarReads
  import opened NumberForms
  import opened Printer
  import opened RoundTrip

  // Every JSON text with a terminator behind it parses to what it means and is consumed whole,
  // in strict mode or not, if and only if it fits the stack.
  lemma TextParses(env: Env, tok: Tok, g: Json, before: Text, after: Text)
    requires Ready(tok) && Ok(env, g) && IsWs(before) && IsWs(after) && env.maxDepth >= 1
    ensures var text := before + Written(g) + after;
            var o := Run(env, tok, text + Nul());
            if Nesting(g) < env.maxDepth then o.err == Success && o.value == Meaning(env, g) && o.used == |text|
            else o.err == TooDeep && o.value == JNull
  {
    hide Written, Ok, Meaning, Nesting, ReadDocument, Run;
    DocumentReads(env, g, before, after, tok.stPos == 0);
    RunIsRead(env, tok, before + Written(g) + after + Nul());
  }

  // A tree whose numbers are those of section 6 of RFC 8259
  ghost predicate RfcTree(g: Json) {
    match g
    case GNull => true
    case GBool(_) => true
    case GNumber(text) => exists n: RfcNumber :: RfcOk(n) && text == RfcText(n)
    case GString(items) => StringOk(items)
    case GEmptyArray(ws) => IsWs(ws)
    case GArray(es) => RfcElements(es)
    case GEmptyObject(ws) => IsWs(ws)
    case GObject(ms) => RfcMembs(ms)
  }

  ghost predicate RfcElements(es: Elements) {
    IsWs(es.before) && RfcTree(es.value) && IsWs(es.after) && (es.rest.Comma? ==> RfcElements(es.rest.elements))
  }

  ghost predicate RfcMembs(ms: Membs) {
    && IsWs(ms.before) && KeyOk(ms.key) && IsWs(ms.beforeColon) && IsWs(ms.afterColon)
    && RfcTree(ms.value) && IsWs(ms.after)
    && (ms.rest.MembComma? ==> RfcMembs(ms.rest.members))
  }

  lemma {:induction false} RfcIsOk(env: Env, g: Json)
    requires ScansReals(env) && RfcTree(g)
    ensures Ok(env, g)
  {
    match g
    case GNumber(text) =>
      var n: RfcNumber :| RfcOk(n) && text == RfcText(n);
      RfcNumberReads(env, n);
    case GArray(es) => RfcElementsAreOk(env, es);
    case GObject(ms) => RfcMembsAreOk(env, ms);
    case _ =>
  }

  lemma {:induction false} RfcElementsAreOk(env: Env, es: Elements)
    requires ScansReals(env) && RfcElements(es)
    ensures ElementsOk(env, es)
  {
    hide ScansReals;
    RfcIsOk(env, es.value);
    if es.rest.Comma? {
      RfcElementsAreOk(env, es.rest.elements);
    }
  }

  lemma {:induction false} RfcMembsAreOk(env: Env, ms: Membs)
    requires ScansReals(env) && RfcMembs(ms)
    ensures MembsOk(env, ms)
  {
    hide ScansReals;
    RfcIsOk(env, ms.value);
    if ms.rest.MembComma? {
      RfcMembsAreOk(env, ms.rest.members);
    }
  }

  // The same with the numbers of the standard, if sscanf reads the standard's fractions and exponents
  lemma RfcTextParses(env: Env, tok: Tok, g: Json, before: Text, after: Text)
    requires Ready(tok) && ScansReals(env) && RfcTree(g) && IsWs(before) && IsWs(after) && env.maxDepth >= 1
    ensures Ok(env, g)
    ensures var text := before + Written(g) + after;
            var o := Run(env, tok, text + Nul());
            if Nesting(g) < env.maxDepth then o.err == Success && o.value == Meaning(env, g) && o.used == |text|
            else o.err == TooDeep && o.value == JNull
  {
    hide Written, Ok, Meaning, Nesting, RfcTree, ScansReals, Run;
    RfcIsOk(env, g);
    TextParses(env, tok, g, before, after);
  }

  // ---- integers

  predicate IsSignOrDigit(c: char) {
    '0' <= c <= '9' || c == '+' || c == '-'
  }

  // What may stand behind the digits without being looked at
  predicate Ignored(r: Text) {
    (r != [] ==> !('0' <= r[0] <= '9')) && forall i | 0 <= i < |r| :: IsSignOrDigit(r[i])
  }

  lemma {:induction false} DigitRunStops(d: Text, r: Text)
    requires AllDigits(d) && Ignored(r)
    ensures DigitRun(d + r) == d
  {
    if d == [] {
      assert d + r == r;
    } else {
      assert (d + r)[1..] == d[1..] + r;
      DigitRunStops(d[1..], r);
    }
  }

  lemma SignsAndDigits(s: Text)
    requires s != [] && IsSignOrDigit(s[0]) && s[0] != '+' && forall i | 0 <= i < |s| :: IsSignOrDigit(s[i])
    ensures (IsDigit(s[0]) || s[0] == '-') && !IsReal(s) && forall i | 0 <= i < |s| :: IsNumberChar(s[i])
  {
  }

  lemma NumberScans(minus: bool, d: Text, r: Text)
    requires AllDigits(d) && (d == [] ==> minus) && Ignored(r)
    ensures var s := (if minus then ['-'] else []) + d + r;
            && s != [] && (IsDigit(s[0]) || s[0] == '-') && !IsReal(s)
            && (forall i | 0 <= i < |s| :: IsNumberChar(s[i]))
            && ScanInt64(s) == if d == [] then None else Some(Saturate(if minus then 0 - NatOf(d) else NatOf(d)))
  {
    var s := (if minus then ['-'] else []) + d + r;
    forall i | 0 <= i < |s|
      ensures IsSignOrDigit(s[i])
    {
      var m := if minus then 1 else 0;
      assert i < m || (i < m + |d| && s[i] == d[i - m]) || s[i] == r[i - m - |d|];
    }
    SignsAndDigits(s);
    ScanIs(minus, d, r);
  }

  lemma ScanIs(minus: bool, d: Text, r: Text)
    requires AllDigits(d) && (d == [] ==> minus) && Ignored(r)
    ensures ScanInt64((if minus then ['-'] else []) + d + r) ==
            if d == [] then None else Some(Saturate(if minus then 0 - NatOf(d) else NatOf(d)))
  {
    hide NatOf, ScanInt64, Saturate;
    DigitRunStops(d, r);
    hide Ignored, DigitRun;
    if minus {
      var s := ['-'] + d + r;
      assert s[1..] == d + r;
      RunScans(s, true, d);
    } else {
      assert [] + d + r == d + r && (d + r)[0] == d[0] && IsDigit(d[0]);
      RunScans(d + r, false, d);
    }
  }

  lemma RunScans(s: Text, minus: bool, d: Text)
    requires s != [] && (if minus then s[0] == '-' else IsDigit(s[0])) && AllDigits(d)
    requires DigitRun(if minus then s[1..] else s) == d
    ensures ScanInt64(s) == if d == [] then None else Some(Saturate(if minus then 0 - NatOf(d) else NatOf(d)))
  {
    hide NatOf, DigitRun, Saturate, AllDigits;
  }

  lemma NumberParses(env: Env, tok: Tok, s: Text)
    requires Ready(tok) && env.maxDepth >= 1 && NumberOk(env, s)
    ensures var o := Run(env, tok, s + Nul());
            o.err == Success && o.used == |s| && o.value == NumberValue(env, s)
  {
    hide Run, NumberOk, NumberValue;
    assert Ok(env, GNumber(s)) && Written(GNumber(s)) == s && "" + s + "" == s;
    TextParses(env, tok, GNumber(s), "", "");
  }

  // An optional minus and digits, and whatever signs and digits follow a second sign: the number if it is within 64
  // bits, and the nearest bound if it is not.
  lemma IntegerParses(env: Env, tok: Tok, minus: bool, d: Text, r: Text)
    requires Ready(tok) && env.maxDepth >= 1
    requires d != [] && AllDigits(d) && Ignored(r)
    requires env.strict && !minus && d[0] == '0' ==> NatOf(d) == 0
    ensures var text := (if minus then ['-'] else []) + d + r;
            var o := Run(env, tok, text + Nul());
            var n: int := if minus then 0 - NatOf(d) else NatOf(d);
            && o.err == Success && o.used == |text|
            && o.value == JInt(if n > 9223372036854775807 then 9223372036854775807
                               else if n < -9223372036854775808 then -9223372036854775808
                               else n)
  {
    var text := (if minus then ['-'] else []) + d + r;
    NumberScans(minus, d, r);
    hide NatOf, IsReal, ScanInt64, IsNumberChar, AllDigits, Run;
    NumberParses(env, tok, text);
  }

  lemma ZeroWithin(n: int)
    ensures Saturate(n) == 0 <==> n == 0
  {
  }

  lemma NumberHere(env: Env, t: Text, depth: nat, clear: bool)
    requires t != [] && (IsDigit(t[0]) || t[0] == '-') && !StartsMinusInfinity(t)
    ensures ReadNumber(env, t).Fail? ==>
              ReadHere(env, t, depth, clear) == Fail(ReadNumber(env, t).err, ReadNumber(env, t).rest)
  {
    hide ReadNumber, ReadWord, ReadElements, ReadMembers, ReadText;
  }

  lemma NumberFails(env: Env, s: Text, c: char)
    requires s != [] && (IsDigit(s[0]) || s[0] == '-') && !IsReal(s)
    requires (forall i | 0 <= i < |s| :: IsNumberChar(s[i])) && !IsNumberChar(c)
    requires var n := ScanInt64(s); n.None? || (n.value != 0 && s[0] == '0' && env.strict)
    ensures ReadNumber(env, s + [c]) == FailAt(BadNumber, [c])
  {
    NumberRunGoesOn(s, [c]);
    assert (s + [c])[|s|..] == [c];
    hide IsReal, ScanInt64, IsNumberChar, NumberRun;
  }

  lemma NumberRefused(env: Env, tok: Tok, s: Text, c: char)
    requires Ready(tok) && s != [] && (IsDigit(s[0]) || s[0] == '-') && !IsReal(s)
    requires (forall i | 0 <= i < |s| :: IsNumberChar(s[i])) && !IsNumberChar(c) && c != 'i' && c != 'I'
    requires var n := ScanInt64(s); n.None? || (n.value != 0 && s[0] == '0' && env.strict)
    ensures var o := Run(env, tok, s + [c]);
            o.err == (if c == '\0' then UnexpectedEof else BadNumber) && o.value == JNull
  {
    hide Run;
    var t := s + [c];
    assert t[0] == s[0] && (|s| > 1 ==> t[1] == s[1] && IsNumberChar(s[1]));
    assert !StartsMinusInfinity(t);
    NumberFails(env, s, c);
    hide IsReal, ScanInt64, IsNumberChar;
    assert Next(env, t, None) == Got((), t);
    hide ReadNumber, ReadHere;
    NumberHere(env, t, 0, tok.stPos == 0);
    RunIsRead(env, tok, t);
  }

  // A minus without a digit is no number, and in strict mode neither is one with a leading zero unless it is zero.
  lemma NoIntegerParses(env: Env, tok: Tok, minus: bool, d: Text, r: Text, c: char)
    requires Ready(tok) && AllDigits(d) && (d == [] ==> minus) && Ignored(r)
    requires !IsSignOrDigit(c) && c !in ".eEiI"
    requires d == [] || (env.strict && !minus && d[0] == '0' && NatOf(d) != 0)
    ensures var o := Run(env, tok, (if minus then ['-'] else []) + d + r + [c]);
            o.err == (if c == '\0' then UnexpectedEof else BadNumber) && o.value == JNull
  {
    var s := (if minus then ['-'] else []) + d + r;
    NumberScans(minus, d, r);
    ZeroWithin(if minus then 0 - NatOf(d) else NatOf(d));
    assert d != [] && !minus ==> s[0] == d[0];
    assert minus ==> s[0] == '-' && (|s| > 1 ==> s[1] != 'i' && s[1] != 'I');
    hide NatOf, IsReal, ScanInt64, IsNumberChar, AllDigits, Run, Saturate;
    NumberRefused(env, tok, s, c);
  }

  // ---- the values a parse returns

  // No infinity and no NaN anywhere
  predicate Finite(v: Value) {
    match v
    case JInfinity(_) => false
    case JNaN => false
    case JArray(es) => forall i | 0 <= i < |es| :: Finite(es[i])
    case JObject(ms) => forall i | 0 <= i < |ms| :: Finite(ms[i].1)
    case _ => true
  }

  // Can be printed and read back on a stack with room for n more levels
  predicate Kept(env: Env, v: Value, n: int) {
    Levels(v) <= n && (Finite(v) ==> Printable(env, v))
  }

  predicate AllKept(env: Env, es: seq<Value>, n: int) {
    forall i | 0 <= i < |es| :: Kept(env, es[i], n)
  }

  predicate MembersKept(env: Env, ms: Members, n: int) {
    Distinct(ms) && forall i | 0 <= i < |ms| :: '\0' !in ms[i].0 && Kept(env, ms[i].1, n)
  }

  ghost predicate ReadKept(env: Env, r: Read<Parsed>, depth: int) {
    && (r.Got? ==> Kept(env, r.value.value, env.maxDepth - 1 - depth))
    && (r.Early? ==> Kept(env, r.v, env.maxDepth - 1))
  }

  lemma {:induction false} DeepestOfAll(env: Env, es: seq<Value>, n: nat)
    requires AllKept(env, es, n)
    ensures DeepestElement(es) <= n
  {
    if es != [] {
      hide Levels, Printable, Finite;
      DeepestOfAll(env, es[1..], n);
    }
  }

  lemma {:induction false} DeepestOfMembers(env: Env, ms: Members, n: nat)
    requires forall i | 0 <= i < |ms| :: Kept(env, ms[i].1, n)
    ensures DeepestMember(ms) <= n
  {
    if ms != [] {
      hide Levels, Printable, Finite;
      DeepestOfMembers(env, ms[1..], n);
      assert MemberLevels(ms[0]) == Levels(ms[0].1);
    }
  }

  lemma ArrayKept(env: Env, es: seq<Value>, n: nat)
    requires AllKept(env, es, n - 1)
    ensures Kept(env, JArray(es), n)
  {
    if es != [] {
      assert Kept(env, es[0], n - 1);
      DeepestOfAll(env, es, n - 1);
    }
  }

  lemma ObjectKept(env: Env, ms: Members, n: nat)
    requires MembersKept(env, ms, n - 1)
    ensures Kept(env, JObject(ms), n)
  {
    if ms != [] {
      assert Kept(env, ms[0].1, n - 1);
      DeepestOfMembers(env, ms, n - 1);
    }
  }

  lemma PutKept(env: Env, ms: Members, k: Text, v: Value, n: int)
    requires MembersKept(env, ms, n) && '\0' !in k && Kept(env, v, n)
    ensures MembersKept(env, Put(ms, k, v), n)
  {
    hide Kept;
  }

  lemma {:induction false} CStringHasNoNul(s: Text)
    ensures '\0' !in CString(s)
  {
    if s != [] && s[0] != '\0' {
      CStringHasNoNul(s[1..]);
    }
  }

  lemma {:induction false} NumberRunIsOfNumber(t: Text)
    ensures forall i | 0 <= i < |NumberRun(t)| :: IsNumberChar(NumberRun(t)[i])
    ensures t != [] && (IsDigit(t[0]) || t[0] == '-') ==> NumberRun(t) != [] && NumberRun(t)[0] == t[0]
  {
    if t != [] && IsNumberChar(t[0]) {
      NumberRunIsOfNumber(t[1..]);
    }
  }

  lemma NumberKept(env: Env, t: Text, n: nat)
    requires t != [] && (IsDigit(t[0]) || t[0] == '-')
    ensures var r := ReadNumber(env, t); (r.Got? ==> Kept(env, r.value, n)) && !r.Early?
  {
    NumberRunIsOfNumber(t);
    hide IsNumberChar, IsReal, NumberRun;
  }

  lemma WordKept(env: Env, t: Text, word0: Text, v0: Value, word1: Text, v1: Value, err: Fault)
    ensures var r := ReadWord(env, t, word0, v0, word1, v1, err);
            !r.Early? && (r.Got? ==> r.value == v0 || r.value == v1)
  {
    hide Common;
  }

  lemma KeywordKept(env: Env, t: Text, n: nat)
    ensures Kept(env, JBool(true), n) && Kept(env, JBool(false), n) && Kept(env, JNull, n)
    ensures Kept(env, JNaN, n) && Kept(env, JInfinity(false), n) && Kept(env, JInfinity(true), n)
  {
  }

  lemma {:induction false} ValueKept(env: Env, t: Text, depth: nat, clear: bool)
    requires depth <= env.maxDepth - 1
    ensures ReadKept(env, ReadValue(env, t, depth, clear), depth)
    decreases |t|, 2
  {
    hide Kept, ReadHere;
    var n := Next(env, t, None);
    if n.Got? {
      HereKept(env, n.rest, depth, clear);
    }
  }

  lemma {:induction false} HereKept(env: Env, t: Text, depth: nat, clear: bool)
    requires t != [] && depth <= env.maxDepth - 1
    ensures ReadKept(env, ReadHere(env, t, depth, clear), depth)
    decreases |t|, 1
  {
    var c, n := t[0], env.maxDepth - 1 - depth;
    if c == '{' {
      hide Kept, ReadMembers;
      MembersReadKept(env, t[1..], depth, [], false, clear);
    } else if c == '[' {
      hide Kept, ReadElements;
      ElementsReadKept(env, t[1..], depth, [], false, clear);
    } else {
      ScalarKept(env, t, depth, clear);
    }
  }

  lemma ScalarKept(env: Env, t: Text, depth: nat, clear: bool)
    requires t != [] && depth <= env.maxDepth - 1 && t[0] != '{' && t[0] != '['
    ensures ReadKept(env, ReadHere(env, t, depth, clear), depth)
  {
    hide Kept, ReadHere, ReadWord, ReadText, ReadNumber, Codeless;
    var n := env.maxDepth - 1 - depth;
    if t[0] in {'I', 'i', 'N', 'n', 'T', 't', 'F', 'f'} {
      KeywordReads(env, t, depth, clear);
      KeywordKept(env, t, n);
      WordKept(env, t, "Infinity", JInfinity(false), "Infinity", JInfinity(false), UnexpectedChar);
      WordKept(env, t, "null", JNull, "NaN", JNaN, BadNull);
      WordKept(env, t, "true", JBool(true), "false", JBool(false), BadBoolean);
    } else if StartsMinusInfinity(t) {
      MinusReads(env, t, depth, clear);
      KeywordKept(env, t, n);
      WordKept(env, t[1..], "Infinity", JInfinity(true), "Infinity", JInfinity(true), UnexpectedChar);
    } else {
      OtherKept(env, t, depth, clear);
    }
  }

  lemma OtherKept(env: Env, t: Text, depth: nat, clear: bool)
    requires t != [] && depth <= env.maxDepth - 1 && t[0] != '{' && t[0] != '['
    requires t[0] !in {'I', 'i', 'N', 'n', 'T', 't', 'F', 'f'} && !StartsMinusInfinity(t)
    ensures ReadKept(env, ReadHere(env, t, depth, clear), depth)
  {
    hide Kept, ReadWord, ReadText, ReadNumber, Codeless;
    var n := env.maxDepth - 1 - depth;
    StringKept(env, ReadText(t[1..], t[0], ""), n);
    if IsDigit(t[0]) || t[0] == '-' {
      NumberKept(env, t, n);
    }
  }

  lemma StringKept(env: Env, s: Read<Text>, n: nat)
    ensures s.Got? ==> Kept(env, JString(s.value), n)
  {
  }

  lemma NextHolds(env: Env, t: Text, held: Option<Value>)
    ensures var r := Next(env, t, held); r.Early? ==> held == Some(r.v)
  {
  }

  lemma {:induction false} ElementsReadKept(env: Env, t: Text, depth: nat, es: seq<Value>, afterSep: bool, clear: bool)
    requires depth <= env.maxDepth - 1 && AllKept(env, es, env.maxDepth - 2 - depth)
    ensures ReadKept(env, ReadElements(env, t, depth, es, afterSep, clear), depth)
    decreases |t|, 5
  {
    hide Kept, AllKept, ReadValue, Next, ElementsTail;
    NextHolds(env, t, None);
    var n := Next(env, t, None);
    if n.Got? {
      var u := n.rest;
      ArrayKept(env, es, env.maxDepth - 1 - depth);
      if u[0] != ']' && depth < env.maxDepth - 1 {
        ElementReadKept(env, u, depth, es, clear);
      }
    }
  }

  lemma Wider(env: Env, v: Value, n: int, m: int)
    requires Kept(env, v, n) && n <= m
    ensures Kept(env, v, m)
  {
  }

  lemma {:induction false} ElementReadKept(env: Env, t: Text, depth: nat, es: seq<Value>, clear: bool)
    requires t != [] && depth < env.maxDepth - 1 && AllKept(env, es, env.maxDepth - 2 - depth)
    ensures var r := ReadValue(env, t, depth + 1, clear);
            ReadKept(env, r, depth + 1) &&
            (r.Got? ==>
               var n := Next(env, r.rest, Some(r.value.value));
               (n.Early? ==> Kept(env, n.v, env.maxDepth - 1)) &&
               (n.Got? ==> ReadKept(env, ElementsTail(env, n.rest, depth, es + [r.value.value], r.value.clear), depth)))
    decreases |t|, 4
  {
    hide Kept, ReadValue, Next, ReadElements;
    ValueKept(env, t, depth + 1, clear);
    var r := ReadValue(env, t, depth + 1, clear);
    if r.Got? {
      NextHolds(env, r.rest, Some(r.value.value));
      Wider(env, r.value.value, env.maxDepth - 2 - depth, env.maxDepth - 1);
      var n := Next(env, r.rest, Some(r.value.value));
      if n.Got? {
        ArrayKept(env, es + [r.value.value], env.maxDepth - 1 - depth);
        if n.rest[0] == ',' {
          ElementsReadKept(env, n.rest[1..], depth, es + [r.value.value], true, r.value.clear);
        }
      }
    }
  }

  lemma {:induction false} MembersReadKept(env: Env, t: Text, depth: nat, ms: Members, afterSep: bool, clear: bool)
    requires depth <= env.maxDepth - 1 && MembersKept(env, ms, env.maxDepth - 2 - depth)
    ensures ReadKept(env, ReadMembers(env, t, depth, ms, afterSep, clear), depth)
    decreases |t|, 5
  {
    hide Kept, MembersKept, ReadText, Next, ReadMember;
    NextHolds(env, t, None);
    var n := Next(env, t, None);
    if n.Got? {
      var u := n.rest;
      ObjectKept(env, ms, env.maxDepth - 1 - depth);
      var k := ReadText(u[1..], u[0], "");
      if k.Got? {
        CStringHasNoNul(k.value);
        MemberReadKept(env, k.rest, depth, ms, CString(k.value), clear && Codeless(u[1..], u[0]));
      }
    }
  }

  lemma {:induction false} MemberReadKept(env: Env, t: Text, depth: nat, ms: Members, key: Text, clear: bool)
    requires depth <= env.maxDepth - 1 && MembersKept(env, ms, env.maxDepth - 2 - depth) && '\0' !in key
    ensures ReadKept(env, ReadMember(env, t, depth, ms, key, clear), depth)
    decreases |t|, 5
  {
    hide Kept, MembersKept, Next, ReadValue, MembersTail;
    NextHolds(env, t, None);
    var n := Next(env, t, None);
    if n.Got? && n.rest[0] == ':' {
      var u := n.rest[1..];
      NextHolds(env, u, None);
      var m := Next(env, u, None);
      if m.Got? && depth < env.maxDepth - 1 {
        MemberValueKept(env, m.rest, depth, ms, key, clear);
      }
    }
  }

  lemma {:induction false} MemberValueKept(env: Env, t: Text, depth: nat, ms: Members, key: Text, clear: bool)
    requires t != [] && depth < env.maxDepth - 1 && MembersKept(env, ms, env.maxDepth - 2 - depth) && '\0' !in key
    ensures var r := ReadValue(env, t, depth + 1, clear);
            ReadKept(env, r, depth + 1) &&
            (r.Got? ==>
               var n := Next(env, r.rest, Some(r.value.value));
               (n.Early? ==> Kept(env, n.v, env.maxDepth - 1)) &&
               (n.Got? ==> ReadKept(env, MembersTail(env, n.rest, depth, Put(ms, key, r.value.value), r.value.clear),
                                    depth)))
    decreases |t|, 4
  {
    hide Kept, MembersKept, ReadValue, Next, ReadMembers, Put;
    ValueKept(env, t, depth + 1, clear);
    var r := ReadValue(env, t, depth + 1, clear);
    if r.Got? {
      NextHolds(env, r.rest, Some(r.value.value));
      Wider(env, r.value.value, env.maxDepth - 2 - depth, env.maxDepth - 1);
      var n := Next(env, r.rest, Some(r.value.value));
      if n.Got? {
        PutKept(env, ms, key, r.value.value, env.maxDepth - 2 - depth);
        ObjectKept(env, Put(ms, key, r.value.value), env.maxDepth - 1 - depth);
        if n.rest[0] == ',' {
          MembersReadKept(env, n.rest[1..], depth, Put(ms, key, r.value.value), true, r.value.clear);
        }
      }
    }
  }

  // Whatever text a call accepts, the value it returns can be printed, with any flags, and parsed
  // again by the same kind of tokener to the same value, unless it has an infinity or a NaN.
  lemma ReparseIsIdentity(env: Env, tok: Tok, t: Text, again: Tok, f: Flags)
    requires Ready(tok) && Ready(again) && env.maxDepth >= 1
    requires Run(env, tok, t).err == Success && Finite(Run(env, tok, t).value)
    ensures var v := Run(env, tok, t).value;
            var o := Run(env, again, Print(v, 0, f) + Nul());
            o.err == Success && o.value == v && o.used == |Print(v, 0, f)|
  {
    hide ReadValue, Run, Print, Printable, Levels, Finite, SkipSpace;
    RunIsRead(env, tok, t);
    ValueKept(env, t, 0, tok.stPos == 0);
    assert Kept(env, Run(env, tok, t).value, env.maxDepth - 1);
    PrintThenParse(env, again, Run(env, tok, t).value, f);
  }
}
