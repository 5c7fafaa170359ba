// A recursive-descent reading of one chunk of text: the simple form of the tokener.
//
// It accepts what the tokener accepts, including its leniencies: comments and single quotes
// outside strict mode, a trailing comma, words in any case.

module Reader {
  import opened Arith
  import opened Options
  import opened Chars
  import opened OrderedMap
  import opened JsonValue
  import opened Numbers
  import opened Unicode
  import opened Tokener

  type Fault = e: Error | e != Success && e != Continue witness TooDeep

  // Got: read, with `rest` left.  Ran: the text ended first.  Fail: an error in front of `rest`.
  // Early: a terminator inside a comment right behind the complete value v.
  datatype Read<+T> =
    | Got(value: T, rest: Text)
    | Ran
    | Fail(err: Fault, rest: Text)
    | Early(v: Value, rest: Text)
  {
    predicate IsFailure() { !Got? }

    function PropagateFailure<U>(): Read<U>
      requires !Got?
    {
      match this
      case Ran => Ran
      case Fail(err, rest) => Fail(err, rest)
      case Early(v, rest) => Early(v, rest)
    }

    function Extract(): (T, Text)
      requires Got?
    {
      (value, rest)
    }
  }

  // What is left is no longer than what there was.
  predicate Within<T>(r: Read<T>, n: int) {
    (r.Got? || r.Fail? || r.Early?) ==> |r.rest| <= n
  }

  // A terminator in place of what was expected
  function Blamed(err: Fault, c: char): Fault {
    if c == '\0' then UnexpectedEof else err
  }

  function FailAt<T>(err: Fault, t: Text): (r: Read<T>)
    requires t != []
    ensures Within(r, |t|) && r.Fail?
  {
    Fail(Blamed(err, t[0]), t)
  }

  datatype Space = Token(rest: Text) | Spaces | InComment | Unclosed(rest: Text) | NoComment(rest: Text)

  // A character that is neither white space nor the start of a comment
  predicate Counts(env: Env, c: char) {
    !IsSpace(c) && (c != '/' || env.strict)
  }

  predicate SpaceWithin(env: Env, s: Space, t: Text) {
    && (s.Token? || s.Unclosed? || s.NoComment? ==> |s.rest| <= |t|)
    && (s.Token? || s.NoComment? ==> s.rest != [])
    && (s.Token? ==> Counts(env, s.rest[0]))
  }

  // White space and comments in front of the next character that counts
  function SkipSpace(env: Env, t: Text): (s: Space)
    ensures SpaceWithin(env, s, t)
    decreases |t|
  {
    if t == [] then Spaces
    else if IsSpace(t[0]) then SkipSpace(env, t[1..])
    else if t[0] != '/' || env.strict then Token(t)
    else if |t| == 1 then InComment
    else if t[1] == '*' then SkipBlock(env, t[2..])
    else if t[1] == '/' then SkipLine(env, t[2..])
    else NoComment(t[1..])
  }

  function SkipBlock(env: Env, t: Text): (s: Space)
    ensures SpaceWithin(env, s, t)
    decreases |t|
  {
    if t == [] then InComment
    else if t[0] == '\0' then Unclosed(t[1..])
    else if t[0] == '*' then SkipBlockEnd(env, t[1..])
    else SkipBlock(env, t[1..])
  }

  // Any character but '/' resumes the comment, a second '*' included.
  function SkipBlockEnd(env: Env, t: Text): (s: Space)
    ensures SpaceWithin(env, s, t)
    decreases |t|
  {
    if t == [] then InComment
    else if t[0] == '\0' then Unclosed(t[1..])
    else if t[0] == '/' then SkipSpace(env, t[1..])
    else SkipBlock(env, t[1..])
  }

  function SkipLine(env: Env, t: Text): (s: Space)
    ensures SpaceWithin(env, s, t)
    decreases |t|
  {
    if t == [] then InComment
    else if t[0] == '\0' then Unclosed(t[1..])
    else if t[0] == '\n' then SkipSpace(env, t[1..])
    else SkipLine(env, t[1..])
  }

  // Up to the next token, in front of a value or behind the value `held`
  function Next(env: Env, t: Text, held: Option<Value>): (r: Read<()>)
    ensures Within(r, |t|)
    ensures r.Got? ==> r.rest != [] && Counts(env, r.rest[0])
  {
    match SkipSpace(env, t)
    case Token(rest) => Got((), rest)
    case Spaces => Ran
    case InComment => Ran
    case Unclosed(rest) => if held.Some? then Early(held.value, rest) else Fail(UnexpectedEof, rest)
    case NoComment(rest) => if held.Some? then Fail(BadComment, rest) else FailAt(BadComment, rest)
  }

  // How many characters a terminator in the place of the last of four digits takes with it: it is added up as a digit,
  // and a high surrogate that comes of that has the escape behind it opened.
  function NulTakes(t: Text, acc: nat, hi: nat): (n: nat)
    requires t != []
    ensures 1 <= n <= |t|
  {
    var code := AddHexDigit(acc * 16, '\0', 3);
    var joined := if hi != 0 && IsLowSurrogate(code) then DecodePair(hi, code) else code;
    if joined >= 0x800 && IsHighSurrogate(joined) && |t| >= 3 && t[1] == '\\' && t[2] == 'u' then 2 else 1
  }

  // n more digits behind `acc`, in an escape with the high surrogate hi in front of it
  function Digits(t: Text, n: nat, acc: nat, hi: nat): (r: Read<nat>)
    ensures Within(r, |t|) && !r.Early?
  {
    if n == 0 then Got(acc, t)
    else if t == [] then Ran
    else if t[0] == '\0' then Fail(UnexpectedEof, t[(if n == 1 then NulTakes(t, acc, hi) else 1)..])
    else if !IsHexDigit(t[0]) then Fail(BadString, t)
    else Digits(t[1..], n - 1, acc * 16 + HexDigit(t[0]), hi)
  }

  // The rest of a quoted text whose contents so far are acc
  function ReadText(t: Text, quote: char, acc: Text): (r: Read<Text>)
    ensures Within(r, |t|) && !r.Early?
    decreases |t|, 0
  {
    if t == [] then Ran
    else if t[0] == quote then Got(acc, t[1..])
    else if t[0] == '\0' then Fail(UnexpectedEof, t[1..])
    else if t[0] != '\\' then ReadText(t[1..], quote, acc + [t[0]])
    else if |t| == 1 then Ran
    else if Unescape(t[1]).Some? then ReadText(t[2..], quote, acc + [Unescape(t[1]).value])
    else if t[1] != 'u' then FailAt(BadString, t[1..])
    else
      var (code, rest) :- Digits(t[2..], 4, 0, 0);
      ReadCode(rest, quote, acc, code)
  }

  // The same behind a complete \u escape for `code`
  function ReadCode(t: Text, quote: char, acc: Text, code: nat): (r: Read<Text>)
    ensures Within(r, |t|) && !r.Early?
    decreases |t|, 1
  {
    if code < 0x800 then ReadText(t, quote, acc + Utf8(code))
    else if IsHighSurrogate(code) then
      if |t| >= 2 && t[0] == '\\' && t[1] == 'u' then
        var (second, rest) :- Digits(t[2..], 4, 0, code);
        if IsLowSurrogate(second) then ReadCode(rest, quote, acc, DecodePair(code, second))
        else ReadCode(rest, quote, acc + REPLACEMENT, second)
      else ReadText(t, quote, acc + REPLACEMENT)
    else if IsLowSurrogate(code) then ReadText(t, quote, acc + REPLACEMENT)
    else ReadText(t, quote, acc + Utf8(code))
  }

  // No \u escape stands in front of the closing quote.
  predicate Codeless(t: Text, quote: char) {
    if t == [] || t[0] == quote then true
    else if t[0] != '\\' then Codeless(t[1..], quote)
    else |t| == 1 || (t[1] != 'u' && Codeless(t[2..], quote))
  }

  datatype WordEnd = Word0 | Word1 | Cut | Differs(at: nat)

  // Where a text of length len that agrees with the front of one word for n0 and of another for n1
  // characters leaves them; a word is complete once a further character is there.
  function EndOfWord(n0: nat, len0: nat, n1: nat, len1: nat, len: nat): (e: WordEnd)
    requires n0 <= len && n1 <= len
    ensures e.Word0? ==> n0 == len0 < len
    ensures e.Word1? ==> n1 == len1 < len
    ensures e.Differs? ==> e.at < len
  {
    if n0 == len0 && n0 < len then Word0
    else if n1 == len1 && n1 < len then Word1
    else if Max(n0, n1) == len then Cut
    else Differs(Max(n0, n1))
  }

  function ReadWord(env: Env, t: Text, word0: Text, v0: Value, word1: Text, v1: Value, err: Fault): (r: Read<Value>)
    ensures Within(r, |t|)
  {
    var n0, n1 := Common(env.strict, word0, t), Common(env.strict, word1, t);
    match EndOfWord(n0, |word0|, n1, |word1|, |t|)
    case Word0 => Got(v0, t[|word0|..])
    case Word1 => Got(v1, t[|word1|..])
    case Cut => Ran
    case Differs(at) => FailAt(err, t[at..])
  }

  function NumberRun(t: Text): (r: Text)
    ensures r <= t
    ensures |r| < |t| ==> !IsNumberChar(t[|r|])
  {
    if t == [] || !IsNumberChar(t[0]) then [] else [t[0]] + NumberRun(t[1..])
  }

  lemma {:induction false} NumberRunGoesOn(pre: Text, t: Text)
    requires forall i | 0 <= i < |pre| :: IsNumberChar(pre[i])
    requires t != [] && !IsNumberChar(t[0])
    ensures NumberRun(pre + t) == pre
  {
    if pre == [] {
      assert pre + t == t;
    } else {
      assert (pre + t)[1..] == pre[1..] + t;
      NumberRunGoesOn(pre[1..], t);
    }
  }

  lemma {:induction false} NumberRunEnds(pre: Text)
    requires forall i | 0 <= i < |pre| :: IsNumberChar(pre[i])
    ensures NumberRun(pre) == pre
  {
    if pre != [] {
      NumberRunEnds(pre[1..]);
    }
  }

  predicate IsReal(run: Text) {
    '.' in run || 'e' in run || 'E' in run
  }

  // The number `run`, with rest behind it
  function NumberAt(env: Env, run: Text, rest: Text): (r: Read<Value>)
    requires rest != []
    ensures Within(r, |rest|)
  {
    if IsReal(run) then
      if env.scansAsDouble(run) then Got(JDouble(run), rest) else FailAt(BadNumber, rest)
    else
      match ScanInt64(run)
      case None => FailAt(BadNumber, rest)
      case Some(n) =>
        if n != 0 && run != [] && run[0] == '0' && env.strict then FailAt(BadNumber, rest)
        else Got(JInt(n), rest)
  }

  function ReadNumber(env: Env, t: Text): (r: Read<Value>)
    ensures Within(r, |t|)
  {
    var run := NumberRun(t);
    if |run| == |t| then Ran else NumberAt(env, run, t[|run|..])
  }

  // A value, and whether st_pos is still zero behind it: every word that was matched leaves it at the word's length,
  // every \u escape at four.
  datatype Parsed = Parsed(value: Value, clear: bool)

  function Matched(r: Read<Value>): (p: Read<Parsed>)
    ensures forall n | Within(r, n) :: Within(p, n)
  {
    var (v, rest) :- r;
    Got(Parsed(v, false), rest)
  }

  predicate StartsMinusInfinity(t: Text) {
    |t| >= 2 && t[0] == '-' && (t[1] == 'i' || t[1] == 'I')
  }

  function ReadValue(env: Env, t: Text, depth: nat, clear: bool): (r: Read<Parsed>)
    ensures Within(r, |t|)
    decreases |t|, 2
  {
    var (_, t) :- Next(env, t, None);
    ReadHere(env, t, depth, clear)
  }

  // The value that starts with t[0].  "-Infinity" is matched from st_pos on, which no one has set to zero.
  function ReadHere(env: Env, t: Text, depth: nat, clear: bool): (r: Read<Parsed>)
    requires t != []
    ensures Within(r, |t|)
    decreases |t|, 1
  {
    var c := t[0];
    if c == '{' then ReadMembers(env, t[1..], depth, [], false, clear)
    else if c == '[' then ReadElements(env, t[1..], depth, [], false, clear)
    else if c == 'I' || c == 'i' then
      Matched(ReadWord(env, t, "Infinity", JInfinity(false), "Infinity", JInfinity(false), UnexpectedChar))
    else if c == 'N' || c == 'n' then Matched(ReadWord(env, t, "null", JNull, "NaN", JNaN, BadNull))
    else if c == 'T' || c == 't' || c == 'F' || c == 'f' then
      Matched(ReadWord(env, t, "true", JBool(true), "false", JBool(false), BadBoolean))
    else if c == '"' || (c == '\'' && !env.strict) then
      var (s, rest) :- ReadText(t[1..], c, "");
      Got(Parsed(JString(s), clear && Codeless(t[1..], c)), rest)
    else if StartsMinusInfinity(t) then
      if clear then
        Matched(ReadWord(env, t[1..], "Infinity", JInfinity(true), "Infinity", JInfinity(true), UnexpectedChar))
      else FailAt(UnexpectedChar, t[1..])
    else if IsDigit(c) || c == '-' then
      var (v, rest) :- ReadNumber(env, t);
      Got(Parsed(v, clear), rest)
    else FailAt(UnexpectedChar, t)
  }

  lemma KeywordReads(env: Env, t: Text, depth: nat, clear: bool)
    requires t != []
    ensures t[0] in {'I', 'i'} ==>
              ReadHere(env, t, depth, clear) ==
              Matched(ReadWord(env, t, "Infinity", JInfinity(false), "Infinity", JInfinity(false), UnexpectedChar))
    ensures t[0] in {'N', 'n'} ==>
              ReadHere(env, t, depth, clear) == Matched(ReadWord(env, t, "null", JNull, "NaN", JNaN, BadNull))
    ensures t[0] in {'T', 't', 'F', 'f'} ==>
              ReadHere(env, t, depth, clear) ==
              Matched(ReadWord(env, t, "true", JBool(true), "false", JBool(false), BadBoolean))
  {
    hide ReadWord, ReadElements, ReadMembers, ReadText, ReadNumber, Matched;
  }

  lemma MinusReads(env: Env, t: Text, depth: nat, clear: bool)
    requires StartsMinusInfinity(t)
    ensures ReadHere(env, t, depth, clear) ==
            if clear then
              Matched(ReadWord(env, t[1..], "Infinity", JInfinity(true), "Infinity", JInfinity(true), UnexpectedChar))
            else FailAt(UnexpectedChar, t[1..])
  {
    hide ReadWord, ReadElements, ReadMembers, ReadText, ReadNumber, Matched;
  }

  // The rest of an array behind '[' or ',', with the elements es so far
  function ReadElements(env: Env, t: Text, depth: nat, es: seq<Value>, afterSep: bool, clear: bool): (r: Read<Parsed>)
    ensures Within(r, |t|)
    decreases |t|, 5
  {
    var (_, t) :- Next(env, t, None);
    ReadElement(env, t, depth, es, afterSep, clear)
  }

  function ReadElement(env: Env, t: Text, depth: nat, es: seq<Value>, afterSep: bool, clear: bool): (r: Read<Parsed>)
    requires t != []
    ensures Within(r, |t|)
    decreases |t|, 4
  {
    if t[0] == ']' then
      if afterSep && env.strict then Fail(UnexpectedChar, t) else Got(Parsed(JArray(es), clear), t[1..])
    else if depth >= env.maxDepth - 1 then FailAt(TooDeep, t)
    else
      var (p, t) :- ReadValue(env, t, depth + 1, clear);
      var (_, t) :- Next(env, t, Some(p.value));
      ElementsTail(env, t, depth, es + [p.value], p.clear)
  }

  // Behind an element
  function ElementsTail(env: Env, t: Text, depth: nat, es: seq<Value>, clear: bool): (r: Read<Parsed>)
    requires t != []
    ensures Within(r, |t|)
    decreases |t|, 3
  {
    if t[0] == ']' then Got(Parsed(JArray(es), clear), t[1..])
    else if t[0] == ',' then ReadElements(env, t[1..], depth, es, true, clear)
    else FailAt(BadArray, t)
  }

  // The rest of an object behind '{' or ',', with the members ms so far
  function ReadMembers(env: Env, t: Text, depth: nat, ms: Members, afterSep: bool, clear: bool): (r: Read<Parsed>)
    ensures Within(r, |t|)
    decreases |t|, 5
  {
    var (_, t) :- Next(env, t, None);
    ReadKey(env, t, depth, ms, afterSep, clear)
  }

  function ReadKey(env: Env, t: Text, depth: nat, ms: Members, afterSep: bool, clear: bool): (r: Read<Parsed>)
    requires t != []
    ensures Within(r, |t|)
    decreases |t|, 4
  {
    if t[0] == '}' then
      if afterSep && env.strict then Fail(UnexpectedChar, t) else Got(Parsed(JObject(ms), clear), t[1..])
    else if t[0] != '"' && t[0] != '\'' then FailAt(BadKeyName, t)
    else
      var (key, rest) :- ReadText(t[1..], t[0], "");
      ReadMember(env, rest, depth, ms, CString(key), clear && Codeless(t[1..], t[0]))
  }

  // The rest of an object behind a key
  function ReadMember(env: Env, t: Text, depth: nat, ms: Members, key: Text, clear: bool): (r: Read<Parsed>)
    ensures Within(r, |t|)
    decreases |t|, 5
  {
    var (_, t) :- Next(env, t, None);
    if t[0] != ':' then FailAt(BadKeySeparator, t) else ReadMemberValue(env, t[1..], depth, ms, key, clear)
  }

  function ReadMemberValue(env: Env, t: Text, depth: nat, ms: Members, key: Text, clear: bool): (r: Read<Parsed>)
    ensures Within(r, |t|)
    decreases |t|, 4
  {
    var (_, t) :- Next(env, t, None);
    if depth >= env.maxDepth - 1 then FailAt(TooDeep, t)
    else
      var (p, t) :- ReadValue(env, t, depth + 1, clear);
      var (_, t) :- Next(env, t, Some(p.value));
      MembersTail(env, t, depth, Put(ms, key, p.value), p.clear)
  }

  // Behind a member
  function MembersTail(env: Env, t: Text, depth: nat, ms: Members, clear: bool): (r: Read<Parsed>)
    requires t != []
    ensures Within(r, |t|)
    decreases |t|, 3
  {
    if t[0] == '}' then Got(Parsed(JObject(ms), clear), t[1..])
    else if t[0] == ',' then ReadMembers(env, t[1..], depth, ms, true, clear)
    else FailAt(BadValueSeparator, t)
  }

  // What a whole call reports: the error code, the value, and the text left over
  datatype Report = Report(err: Error, value: Value, rest: Text)

  function ReadDocument(env: Env, t: Text, clear: bool): Report {
    match ReadValue(env, t, 0, clear)
    case Ran => Report(Continue, JNull, [])
    case Fail(err, rest) => Report(err, JNull, rest)
    case Early(v, rest) => Report(Success, v, rest)
    case Got(p, behind) =>
      match SkipSpace(env, behind)
      case Spaces => Report(Success, p.value, [])
      case InComment => Report(Continue, JNull, [])
      case Unclosed(rest) => Report(Success, p.value, rest)
      case NoComment(rest) => Report(BadComment, JNull, rest)
      case Token(rest) =>
        if env.strict && rest[0] != '\0' then Report(UnexpectedChar, JNull, rest)
        else Report(Success, p.value, rest)
  }
}
