// The reader takes every well-formed text for what it means.

module GrammarReads {
  import opened Options
  import opened Chars
  import opened OrderedMap
  import opened JsonValue
  import opened Numbers
  import opened Unicode
  import opened Tokener
  import opened Reader
  import opened Grammar
  import opened StringReads

  // ---- white space and words

  lemma {:induction false} WsSkipped(env: Env, ws: Text, t: Text, held: Option<Value>)
    requires IsWs(ws) && t != [] && Counts(env, t[0])
    ensures Next(env, ws + t, held) == Got((), t)
  {
    if ws == [] {
      assert ws + t == t;
    } else {
      WsSkipped(env, ws[1..], t, held);
      assert (ws + t)[1..] == ws[1..] + t;
    }
  }

  lemma {:induction false} CommonOfSelf(exact: bool, word: Text, rest: Text)
    ensures Common(exact, word, word + rest) == |word|
  {
    if word != [] {
      assert (word + rest)[1..] == word[1..] + rest;
      CommonOfSelf(exact, word[1..], rest);
    }
  }

  lemma WordReads(env: Env, word0: Text, v0: Value, word1: Text, v1: Value, err: Fault, rest: Text)
    requires rest != []
    ensures ReadWord(env, word0 + rest, word0, v0, word1, v1, err) == Got(v0, rest)
    ensures Common(env.strict, word0, word1 + rest) < |word0| ==>
              ReadWord(env, word1 + rest, word0, v0, word1, v1, err) == Got(v1, rest)
  {
    CommonOfSelf(env.strict, word0, rest);
    CommonOfSelf(env.strict, word1, rest);
    hide Common;
  }

  // ---- values

  // What may stand behind a value
  predicate Ends(rest: Text) {
    rest != [] && !IsNumberChar(rest[0])
  }

  lemma NumberReads(env: Env, s: Text, rest: Text)
    requires NumberOk(env, s) && Ends(rest)
    ensures ReadNumber(env, s + rest) == Got(NumberValue(env, s), rest)
  {
    NumberRunGoesOn(s, rest);
    assert (s + rest)[|s|..] == rest;
    assert "-"[1..] == "";
    assert ScanInt64("-").None?;
  }

  lemma WrittenStarts(env: Env, g: Json)
    requires Ok(env, g)
    ensures Written(g) != []
    ensures var c := Written(g)[0];
            c in {'n', 't', 'f', '"', '[', '{', '-'} || IsDigit(c)
  {
  }

  lemma StartCounts(env: Env, c: char)
    requires c in {'n', 't', 'f', '"', '[', '{', '-'} || IsDigit(c)
    ensures Counts(env, c) && c != '\0' && c != ']' && c != '}'
  {
  }

  // The value v, whatever is left in st_pos
  predicate Gives(r: Read<Parsed>, v: Value, rest: Text) {
    r.Got? && r.value.value == v && r.rest == rest
  }

  predicate Clear(r: Read<Parsed>) {
    r.Got? && r.value.clear
  }

  lemma WordHereReads(env: Env, g: Json, rest: Text, depth: nat, clear: bool)
    requires rest != [] && (g.GNull? || g.GBool?)
    ensures Gives(ReadHere(env, Written(g) + rest, depth, clear), Meaning(env, g), rest)
  {
    hide ReadHere, ReadWord;
    var t := Written(g) + rest;
    KeywordReads(env, t, depth, clear);
    if g.GNull? {
      WordReads(env, "null", JNull, "NaN", JNaN, BadNull, rest);
    } else {
      WordReads(env, "true", JBool(true), "false", JBool(false), BadBoolean, rest);
    }
  }

  lemma NumberIsNoInfinity(env: Env, s: Text, rest: Text)
    requires NumberOk(env, s)
    ensures !StartsMinusInfinity(s + rest) && s != [] && (IsDigit(s[0]) || s[0] == '-')
  {
    LoneMinus(env);
    assert |s| == 1 && s[0] == '-' ==> s == "-";
  }

  lemma LoneMinus(env: Env)
    ensures !NumberOk(env, "-")
  {
    assert "-"[1..] == "";
  }

  lemma NumberHereReads(env: Env, s: Text, rest: Text, depth: nat, clear: bool)
    requires NumberOk(env, s) && Ends(rest)
    ensures Gives(ReadHere(env, s + rest, depth, clear), NumberValue(env, s), rest)
  {
    hide ReadNumber, NumberValue, ScanInt64, IsReal;
    NumberReads(env, s, rest);
    NumberIsNoInfinity(env, s, rest);
  }

  lemma StringHereReads(env: Env, items: seq<Item>, rest: Text, depth: nat, clear: bool)
    requires StringOk(items)
    ensures Gives(ReadHere(env, InQuotes(items) + rest, depth, clear), JString(Decode(items)), rest)
  {
    hide ReadText, Decode, ItemsOk, Clean, ItemsText;
    StringIsReadExactly(items, rest);
    assert (InQuotes(items) + rest)[1..] == ItemsText(items) + ['"'] + rest;
  }

  lemma EmptyReads(env: Env, ws: Text, rest: Text, depth: nat, clear: bool)
    requires IsWs(ws)
    ensures Gives(ReadHere(env, ['['] + ws + [']'] + rest, depth, clear), JArray([]), rest)
    ensures Gives(ReadHere(env, ['{'] + ws + ['}'] + rest, depth, clear), JObject([]), rest)
  {
    var a, o := [']'] + rest, ['}'] + rest;
    WsSkipped(env, ws, a, None);
    WsSkipped(env, ws, o, None);
    assert ['['] + ws + [']'] + rest == ['['] + (ws + a);
    assert ['{'] + ws + ['}'] + rest == ['{'] + (ws + o);
    assert Gives(ReadElement(env, a, depth, [], false, clear), JArray([]), rest);
    assert Gives(ReadKey(env, o, depth, [], false, clear), JObject([]), rest);
    hide Next, ReadValue, ReadMember, ReadMemberValue, ElementsTail, MembersTail;
  }

  lemma ScalarReads(env: Env, g: Json, rest: Text, depth: nat, clear: bool)
    requires Ok(env, g) && Ends(rest) && !g.GArray? && !g.GObject?
    ensures Gives(ReadHere(env, Written(g) + rest, depth, clear), Meaning(env, g), rest)
  {
    match g
    case GNull => WordHereReads(env, g, rest, depth, clear);
    case GBool(_) => WordHereReads(env, g, rest, depth, clear);
    case GNumber(s) => NumberHereReads(env, s, rest, depth, clear);
    case GString(items) => StringHereReads(env, items, rest, depth, clear);
    case GEmptyArray(ws) => EmptyReads(env, ws, rest, depth, clear);
    case GEmptyObject(ws) => EmptyReads(env, ws, rest, depth, clear);
  }

  // A reading that must stay within the stack
  ghost predicate ReadsAs(env: Env, r: Read<Parsed>, depth: int, v: Value, rest: Text) {
    if depth <= env.maxDepth - 1 then Gives(r, v, rest) else r.Fail? && r.err == TooDeep
  }

  lemma {:induction false} JsonReads(env: Env, g: Json, rest: Text, depth: nat, clear: bool)
    requires Ok(env, g) && Ends(rest) && depth <= env.maxDepth - 1
    ensures ReadsAs(env, ReadHere(env, Written(g) + rest, depth, clear), depth + Nesting(g), Meaning(env, g), rest)
    decreases g, 1
  {
    hide ReadHere, Written, ElementsOk, MembsOk, Meaning, Nesting;
    match g
    case GArray(es) => ArrayReads(env, es, rest, depth, clear);
    case GObject(ms) => ObjectReads(env, ms, rest, depth, clear);
    case _ => ScalarReads(env, g, rest, depth, clear); NoNesting(g);
  }

  lemma NoNesting(g: Json)
    requires !g.GArray? && !g.GObject?
    ensures Nesting(g) == 0
  {
  }

  lemma {:induction false} ArrayReads(env: Env, es: Elements, rest: Text, depth: nat, clear: bool)
    requires ElementsOk(env, es) && rest != [] && depth <= env.maxDepth - 1
    ensures var g := GArray(es);
            ReadsAs(env, ReadHere(env, Written(g) + rest, depth, clear), depth + Nesting(g), Meaning(env, g), rest)
    decreases es, 6
  {
    hide ReadElements, ElementsOk, ElementsText, ElementsNesting, ElementValues, ReadMembers;
    ElementsRead(env, es, rest, depth, [], false, clear);
    assert (Written(GArray(es)) + rest)[1..] == ElementsText(es) + rest;
    assert [] + ElementValues(env, es) == ElementValues(env, es);
  }

  lemma {:induction false} ObjectReads(env: Env, ms: Membs, rest: Text, depth: nat, clear: bool)
    requires MembsOk(env, ms) && rest != [] && depth <= env.maxDepth - 1
    ensures var g := GObject(ms);
            ReadsAs(env, ReadHere(env, Written(g) + rest, depth, clear), depth + Nesting(g), Meaning(env, g), rest)
    decreases ms, 6
  {
    hide ReadMembers, MembsOk, MembsText, MembsNesting, MemberValues, ReadElements;
    MembsRead(env, ms, rest, depth, [], false, clear);
    assert (Written(GObject(ms)) + rest)[1..] == MembsText(ms) + rest;
  }

  lemma {:induction false} ValueReads(env: Env, g: Json, rest: Text, depth: nat, ws: Text, clear: bool)
    requires Ok(env, g) && Ends(rest) && depth <= env.maxDepth - 1 && IsWs(ws)
    ensures ReadsAs(env, ReadValue(env, ws + (Written(g) + rest), depth, clear), depth + Nesting(g), Meaning(env, g),
                    rest)
    decreases g, 2
  {
    hide Next, ReadHere, Written, Meaning, Nesting, Ok, Counts;
    var t := Written(g) + rest;
    WrittenStarts(env, g);
    StartCounts(env, t[0]);
    WsSkipped(env, ws, t, None);
    JsonReads(env, g, rest, depth, clear);
  }

  lemma WsEnds(ws: Text, t: Text)
    requires IsWs(ws) && Ends(t)
    ensures Ends(ws + t)
  {
  }

  // Reading one element or member value and the white space behind it
  lemma {:induction false} InnerReads(env: Env, g: Json, after: Text, m: Text, depth: nat, clear: bool)
    requires Ok(env, g) && IsWs(after) && Ends(m) && Counts(env, m[0]) && depth <= env.maxDepth - 1
    ensures ReadsAs(env, ReadValue(env, Written(g) + (after + m), depth, clear), depth + Nesting(g), Meaning(env, g),
                    after + m)
    ensures Next(env, after + m, Some(Meaning(env, g))) == Got((), m)
    decreases g, 3
  {
    WsEnds(after, m);
    ValueReads(env, g, after + m, depth, "", clear);
    assert "" + (Written(g) + (after + m)) == Written(g) + (after + m);
    WsSkipped(env, after, m, Some(Meaning(env, g)));
  }

  lemma MoreStarts(m: More, rest: Text)
    ensures MoreText(m) + rest != []
    ensures (MoreText(m) + rest)[0] == if m.Comma? then ',' else ']'
    ensures (MoreText(m) + rest)[1..] == if m.Comma? then ElementsText(m.elements) + rest else rest
  {
  }

  lemma {:induction false} ElementsRead(env: Env, es: Elements, rest: Text, depth: nat, sofar: seq<Value>,
                                        afterSep: bool, clear: bool)
    requires ElementsOk(env, es) && rest != [] && depth <= env.maxDepth - 1
    ensures ReadsAs(env, ReadElements(env, ElementsText(es) + rest, depth, sofar, afterSep, clear),
                    depth + 1 + ElementsNesting(es), JArray(sofar + ElementValues(env, es)), rest)
    decreases es, 5
  {
    hide Next, ReadElement, Written, ElementsText, MoreText, ElementsNesting, ElementValues, Ok, Counts;
    var w := Written(es.value) + (es.after + (MoreText(es.rest) + rest));
    ElementsParts(es, rest);
    WrittenStarts(env, es.value);
    StartCounts(env, w[0]);
    WsSkipped(env, es.before, w, None);
    ElementReads(env, es, rest, depth, sofar, afterSep, clear);
  }

  lemma ElementsParts(es: Elements, rest: Text)
    ensures ElementsText(es) + rest ==
            es.before + (Written(es.value) + (es.after + (MoreText(es.rest) + rest)))
  {
    hide Written, MoreText;
  }

  lemma ValuesStep(env: Env, es: Elements, sofar: seq<Value>)
    requires ElementsOk(env, es)
    ensures sofar + ElementValues(env, es) ==
            sofar + [Meaning(env, es.value)] +
            if es.rest.Comma? then ElementValues(env, es.rest.elements) else []
  {
    hide Meaning, Ok;
  }

  lemma {:induction false} ElementReads(env: Env, es: Elements, rest: Text, depth: nat, sofar: seq<Value>,
                                        afterSep: bool, clear: bool)
    requires ElementsOk(env, es) && rest != [] && depth <= env.maxDepth - 1
    ensures var m := MoreText(es.rest) + rest;
            var w := Written(es.value) + (es.after + m);
            w != [] &&
            ReadsAs(env, ReadElement(env, w, depth, sofar, afterSep, clear),
                    depth + 1 + ElementsNesting(es), JArray(sofar + ElementValues(env, es)), rest)
    decreases es, 4
  {
    hide Next, ReadValue, Written, Meaning, ElementsText, MoreText, Nesting, Ok, ElementsTail, ElementValues;
    var m := MoreText(es.rest) + rest;
    var w := Written(es.value) + (es.after + m);
    WrittenStarts(env, es.value);
    StartCounts(env, w[0]);
    MoreStarts(es.rest, rest);
    if depth < env.maxDepth - 1 {
      InnerReads(env, es.value, es.after, m, depth + 1, clear);
      TailReads(env, es, rest, depth, sofar, Clear(ReadValue(env, w, depth + 1, clear)));
    }
  }

  // Behind the first element of es
  lemma {:induction false} TailReads(env: Env, es: Elements, rest: Text, depth: nat, sofar: seq<Value>, clear: bool)
    requires ElementsOk(env, es) && rest != [] && depth <= env.maxDepth - 1
    ensures MoreText(es.rest) + rest != []
    ensures ReadsAs(env, ElementsTail(env, MoreText(es.rest) + rest, depth, sofar + [Meaning(env, es.value)], clear),
                    if es.rest.Comma? then depth + 1 + ElementsNesting(es.rest.elements) else depth,
                    JArray(sofar + ElementValues(env, es)), rest)
    decreases es, 3
  {
    hide Meaning, ElementsText, MoreText, Ok, ReadElements, ElementValues, ElementsNesting, IsWs;
    var v := Meaning(env, es.value);
    MoreStarts(es.rest, rest);
    ValuesStep(env, es, sofar);
    if es.rest.Comma? {
      ElementsRead(env, es.rest.elements, rest, depth, sofar + [v], true, clear);
    } else {
      assert sofar + [v] + [] == sofar + [v];
    }
  }

  lemma MoreMembsStarts(m: MoreMembs, rest: Text)
    ensures MoreMembsText(m) + rest != []
    ensures (MoreMembsText(m) + rest)[0] == if m.MembComma? then ',' else '}'
    ensures (MoreMembsText(m) + rest)[1..] == if m.MembComma? then MembsText(m.members) + rest else rest
  {
  }

  lemma {:induction false} MembsRead(env: Env, ms: Membs, rest: Text, depth: nat, sofar: Members, afterSep: bool,
                                     clear: bool)
    requires MembsOk(env, ms) && rest != [] && depth <= env.maxDepth - 1
    ensures ReadsAs(env, ReadMembers(env, MembsText(ms) + rest, depth, sofar, afterSep, clear),
                    depth + 1 + MembsNesting(ms), JObject(MemberValues(env, ms, sofar)), rest)
    decreases ms, 4
  {
    hide Next, ReadValue, ReadKey, ReadMemberValue, Written, Meaning, MembsText, MoreMembsText, Nesting, Ok, IsWs;
    hide MemberValues, MembsNesting, ItemsText, KeyOk, Decode;
    var t := ms.afterColon + (Written(ms.value) + (ms.after + (MoreMembsText(ms.rest) + rest)));
    var c := [':'] + t;
    var q := ms.beforeColon + c;
    MembsParts(ms, rest);
    var after := KeyReads(env, ms.key, q, depth, sofar, afterSep, clear);
    WsSkipped(env, ms.before, InQuotes(ms.key) + q, None);
    WsSkipped(env, ms.beforeColon, c, None);
    MemberValueReads(env, ms, rest, depth, sofar, after);
    assert c[1..] == t;
  }

  lemma MembsParts(ms: Membs, rest: Text)
    ensures MembsText(ms) + rest ==
            ms.before + (InQuotes(ms.key) + (ms.beforeColon +
            ([':'] + (ms.afterColon + (Written(ms.value) + (ms.after + (MoreMembsText(ms.rest) + rest)))))))
  {
    hide Written, MoreMembsText, InQuotes;
  }

  lemma KeyReads(env: Env, key: seq<Item>, t: Text, depth: nat, sofar: Members, afterSep: bool, clear: bool)
    returns (after: bool)
    requires KeyOk(key)
    ensures ReadKey(env, InQuotes(key) + t, depth, sofar, afterSep, clear) ==
            ReadMember(env, t, depth, sofar, Decode(key), after)
  {
    hide ReadText, Decode, ItemsOk, Clean, ReadMember, ItemsText, CString, Codeless;
    after := clear && Codeless((InQuotes(key) + t)[1..], '"');
    StringIsReadExactly(key, t);
    assert (InQuotes(key) + t)[1..] == ItemsText(key) + ['"'] + t;
    CStringIsIdentity(Decode(key));
  }

  lemma {:induction false} MemberValueReads(env: Env, ms: Membs, rest: Text, depth: nat, sofar: Members, clear: bool)
    requires MembsOk(env, ms) && rest != [] && depth <= env.maxDepth - 1
    ensures var m := MoreMembsText(ms.rest) + rest;
            var t := ms.afterColon + (Written(ms.value) + (ms.after + m));
            ReadsAs(env, ReadMemberValue(env, t, depth, sofar, Decode(ms.key), clear),
                    depth + 1 + MembsNesting(ms), JObject(MemberValues(env, ms, sofar)), rest)
    decreases ms, 3
  {
    hide Next, ReadValue, Written, Meaning, MembsText, MoreMembsText, Nesting, Ok, Put, Decode, MembersTail,
         MemberValues;
    var m := MoreMembsText(ms.rest) + rest;
    var w := Written(ms.value) + (ms.after + m);
    MoreMembsStarts(ms.rest, rest);
    WrittenStarts(env, ms.value);
    StartCounts(env, w[0]);
    WsSkipped(env, ms.afterColon, w, None);
    if depth < env.maxDepth - 1 {
      InnerReads(env, ms.value, ms.after, m, depth + 1, clear);
      MembsTailReads(env, ms, rest, depth, sofar, Clear(ReadValue(env, w, depth + 1, clear)));
    }
  }

  // Behind the first member of ms
  lemma {:induction false} MembsTailReads(env: Env, ms: Membs, rest: Text, depth: nat, sofar: Members, clear: bool)
    requires MembsOk(env, ms) && rest != [] && depth <= env.maxDepth - 1
    ensures MoreMembsText(ms.rest) + rest != []
    ensures ReadsAs(env, MembersTail(env, MoreMembsText(ms.rest) + rest, depth,
                                     Put(sofar, Decode(ms.key), Meaning(env, ms.value)), clear),
                    if ms.rest.MembComma? then depth + 1 + MembsNesting(ms.rest.members) else depth,
                    JObject(MemberValues(env, ms, sofar)), rest)
    decreases ms, 2
  {
    hide Meaning, MembsText, MoreMembsText, Ok, ReadMembers, Put, Decode, MembsNesting, IsWs;
    MoreMembsStarts(ms.rest, rest);
    if ms.rest.MembComma? {
      MembsRead(env, ms.rest.members, rest, depth, Put(sofar, Decode(ms.key), Meaning(env, ms.value)), true, clear);
    }
  }

  // ---- whole texts

  function Nul(): Text {
    ['\0']
  }

  // A text with white space around it and a terminator behind it is read for what it means, unless
  // it is nested too deeply.
  lemma DocumentReads(env: Env, g: Json, before: Text, after: Text, clear: bool)
    requires Ok(env, g) && IsWs(before) && IsWs(after) && env.maxDepth >= 1
    ensures var d := ReadDocument(env, before + Written(g) + after + Nul(), clear);
            if Nesting(g) <= env.maxDepth - 1 then d == Report(Success, Meaning(env, g), Nul())
            else d.err == TooDeep && d.value == JNull
  {
    hide ReadValue, Written, Meaning, Nesting, Ok;
    var rest := after + Nul();
    WsEnds(after, Nul());
    ValueReads(env, g, rest, 0, before, clear);
    assert before + Written(g) + after + Nul() == before + (Written(g) + rest);
    WsSkipped(env, after, Nul(), None);
  }
}
