// json_tokener_parse_ex as a pushdown machine, one micro-step per pass through its switch.
//
// A state carries just those fields of its stack record that the program still reads in it:
// `saved_state` is where white space, a comment or an escape returns to, `current` the container
// under construction, `obj_field_name` the pending key.  The program's tight loops over white
// space, comments, strings and digits are taken one character at a time.

module Tokener {
  import opened Arith
  import opened Options
  import opened Chars
  import opened OrderedMap
  import opened JsonValue
  import opened Numbers
  import opened Unicode

  type Members = Entries<Text, Value>

  // The states that decide on the next character that is not white space
  datatype Place =
    | Start
    | Finish(v: Value)
    | Element(es: seq<Value>, afterSep: bool)      // array, array_after_sep
    | ArraySep(es: seq<Value>)
    | FieldStart(ms: Members, afterSep: bool)      // object_field_start, ..._after_sep
    | FieldEnd(ms: Members, key: Text)
    | ObjectValue(ms: Members, key: Text)
    | ObjectSep(ms: Members)

  // What a quoted text is for: a value, or a key of the object ms
  datatype Quoted = AsValue | AsKey(ms: Members)

  datatype State =
    | EatWs(next: Place)
    | CommentStart(next: Place) | Comment(next: Place) | CommentEol(next: Place) | CommentEnd(next: Place)
    | At(here: Place)
    | ArrayAdd(es: seq<Value>, obj: Value)
    | ObjectValueAdd(ms: Members, key: Text, obj: Value)
    | Null | Boolean | Infinity
    | Number(caseLen: nat)                         // digits seen by this call
    | Body(q: Quoted)                              // string, object_field
    | Escape(q: Quoted)                            // string_escape
    | EscapeUnicode(q: Quoted, hi: nat)            // hi: got_hi_surrogate

  // The levels below the current one, nearest first.  ResetLevel is a level cleared by a call
  // that succeeded above it.
  datatype Stack =
    | Bottom
    | ArrayLevel(es: seq<Value>, under: Stack)
    | ObjectLevel(ms: Members, key: Text, under: Stack)
    | ResetLevel(under: Stack)

  datatype Tok = Tok(state: State, under: Stack, pb: Text, stPos: nat, isDouble: bool, ucs: nat, quote: char)

  datatype Error =
    | Success | Continue | TooDeep | UnexpectedEof | UnexpectedChar | BadNull | BadBoolean
    | BadNumber | BadArray | BadKeyName | BadKeySeparator | BadValueSeparator | BadString
    | BadComment | BadSize
    | Undefined  // not an error code: the C code shifts by a negative count

  // What the caller fixes: the strict flag, max_depth, and the outcome of libc's
  // sscanf("%lf") on a number that contains '.', 'e' or 'E'
  datatype Env = Env(strict: bool, maxDepth: int, scansAsDouble: Text -> bool)

  // Redo: goto redo_char.  Eat: go on n characters later.  Stop: goto out.
  datatype Micro = Redo(tok: Tok) | Eat(tok: Tok, n: nat) | Stop(tok: Tok, err: Error)

  // json_tokener_new_ex
  const NEW := Tok(EatWs(Start), Bottom, "", 0, false, 0, '\0')

  function Depth(s: Stack): nat {
    if s.Bottom? then 0 else 1 + Depth(s.under)
  }

  function To(tok: Tok, s: State): Tok {
    tok.(state := s)
  }

  function Append(tok: Tok, s: Text): Tok {
    tok.(pb := tok.pb + s)
  }

  function Yield(tok: Tok, v: Value): Tok {
    To(tok, EatWs(Finish(v)))
  }

  function StepEatWs(env: Env, tok: Tok, c: char, next: Place): Micro {
    if IsSpace(c) then Eat(tok, 1)
    else if c == '/' && !env.strict then Eat(To(tok, CommentStart(next)).(pb := [c]), 1)
    else Redo(To(tok, At(next)))
  }

  function StepComment(tok: Tok, c: char): Micro
    requires tok.state.CommentStart? || tok.state.Comment? || tok.state.CommentEol? || tok.state.CommentEnd?
  {
    match tok.state
    case CommentStart(next) =>
      if c == '*' then Eat(Append(To(tok, Comment(next)), [c]), 1)
      else if c == '/' then Eat(Append(To(tok, CommentEol(next)), [c]), 1)
      else Stop(tok, BadComment)
    case Comment(next) => Eat(Append(if c == '*' then To(tok, CommentEnd(next)) else tok, [c]), 1)
    case CommentEol(next) => if c == '\n' then Eat(To(tok, EatWs(next)), 1) else Eat(Append(tok, [c]), 1)
    case CommentEnd(next) => Eat(Append(To(tok, if c == '/' then EatWs(next) else Comment(next)), [c]), 1)
  }

  function StepStart(env: Env, tok: Tok, c: char): Micro {
    var reset := tok.(pb := "");
    if c == '{' then Eat(To(tok, EatWs(FieldStart([], false))), 1)
    else if c == '[' then Eat(To(tok, EatWs(Element([], false))), 1)
    else if c == 'I' || c == 'i' then Redo(To(reset, Infinity).(stPos := 0))
    else if c == 'N' || c == 'n' then Redo(To(reset, Null).(stPos := 0))
    else if c == '\'' && env.strict then Stop(tok, UnexpectedChar)
    else if c == '\'' || c == '"' then Eat(To(reset, Body(AsValue)).(quote := c), 1)
    else if c == 'T' || c == 't' || c == 'F' || c == 'f' then Redo(To(reset, Boolean).(stPos := 0))
    else if IsDigit(c) || c == '-' then Redo(To(reset, Number(0)).(isDouble := false))
    else Stop(tok, UnexpectedChar)
  }

  // Leaving a level hands its value to the level below.
  function StepFinish(tok: Tok, v: Value): Micro {
    match tok.under
    case Bottom => Stop(tok, Success)
    case ArrayLevel(es, under) => Redo(To(tok, ArrayAdd(es, v)).(under := under))
    case ObjectLevel(ms, key, under) => Redo(To(tok, ObjectValueAdd(ms, key, v)).(under := under))
    case ResetLevel(under) => Redo(To(tok, EatWs(Start)).(under := under))
  }

  function StepElement(env: Env, tok: Tok, c: char, es: seq<Value>, afterSep: bool): Micro {
    if c == ']' then
      if afterSep && env.strict then Stop(tok, UnexpectedChar)
      else Eat(Yield(tok, JArray(es)), 1)
    else if Depth(tok.under) >= env.maxDepth - 1 then Stop(tok, TooDeep)
    else Redo(To(tok, EatWs(Start)).(under := ArrayLevel(es, tok.under)))
  }

  function StepArraySep(tok: Tok, c: char, es: seq<Value>): Micro {
    if c == ']' then Eat(Yield(tok, JArray(es)), 1)
    else if c == ',' then Eat(To(tok, EatWs(Element(es, true))), 1)
    else Stop(tok, BadArray)
  }

  function StepFieldStart(env: Env, tok: Tok, c: char, ms: Members, afterSep: bool): Micro {
    if c == '}' then
      if afterSep && env.strict then Stop(tok, UnexpectedChar)
      else Eat(Yield(tok, JObject(ms)), 1)
    else if c == '"' || c == '\'' then Eat(To(tok, Body(AsKey(ms))).(quote := c, pb := ""), 1)
    else Stop(tok, BadKeyName)
  }

  function StepFieldEnd(tok: Tok, c: char, ms: Members, key: Text): Micro {
    if c == ':' then Eat(To(tok, EatWs(ObjectValue(ms, key))), 1) else Stop(tok, BadKeySeparator)
  }

  function StepObjectValue(env: Env, tok: Tok, ms: Members, key: Text): Micro {
    if Depth(tok.under) >= env.maxDepth - 1 then Stop(tok, TooDeep)
    else Redo(To(tok, EatWs(Start)).(under := ObjectLevel(ms, key, tok.under)))
  }

  function StepObjectSep(tok: Tok, c: char, ms: Members): Micro {
    if c == '}' then Eat(Yield(tok, JObject(ms)), 1)
    else if c == ',' then Eat(To(tok, EatWs(FieldStart(ms, true))), 1)
    else Stop(tok, BadValueSeparator)
  }

  function StepAt(env: Env, tok: Tok, c: char, here: Place): Micro {
    match here
    case Start => StepStart(env, tok, c)
    case Finish(v) => StepFinish(tok, v)
    case Element(es, afterSep) => StepElement(env, tok, c, es, afterSep)
    case ArraySep(es) => StepArraySep(tok, c, es)
    case FieldStart(ms, afterSep) => StepFieldStart(env, tok, c, ms, afterSep)
    case FieldEnd(ms, key) => StepFieldEnd(tok, c, ms, key)
    case ObjectValue(ms, key) => StepObjectValue(env, tok, ms, key)
    case ObjectSep(ms) => StepObjectSep(tok, c, ms)
  }

  datatype WordMove = First | Second | More | Wrong

  // A keyword state has n + 1 characters in its buffer.  A word counts as complete only when the
  // character after it has been seen.
  function MoveInWord(exact: bool, buf: Text, n: nat, word0: Text, word1: Text): WordMove {
    if Agrees(exact, word0, buf, Min(n + 1, |word0|)) then if n == |word0| then First else More
    else if Agrees(exact, word1, buf, Min(n + 1, |word1|)) then if n == |word1| then Second else More
    else Wrong
  }

  function StepWord(env: Env, tok: Tok, buf: Text, word0: Text, v0: Value, word1: Text, v1: Value, err: Error): Micro {
    match MoveInWord(env.strict, buf, tok.stPos, word0, word1)
    case First => Redo(Yield(tok, v0))
    case Second => Redo(Yield(tok, v1))
    case More => Eat(tok.(stPos := tok.stPos + 1), 1)
    case Wrong => Stop(tok, err)
  }

  function StepNull(env: Env, tok: Tok, c: char): Micro {
    StepWord(env, Append(tok, [c]), tok.pb + [c], "null", JNull, "NaN", JNaN, BadNull)
  }

  function StepBoolean(env: Env, tok: Tok, c: char): Micro {
    StepWord(env, Append(tok, [c]), tok.pb + [c], "true", JBool(true), "false", JBool(false), BadBoolean)
  }

  function StepInfinity(env: Env, tok: Tok, c: char): Micro {
    var buf := tok.pb + [c];
    var negative := buf[0] == '-';
    var v := JInfinity(negative);
    StepWord(env, Append(tok, [c]), if negative then buf[1..] else buf, "Infinity", v, "Infinity", v, UnexpectedChar)
  }

  function StepNumber(env: Env, tok: Tok, c: char, caseLen: nat): Micro {
    if IsNumberChar(c) then
      Eat(To(Append(tok, [c]), Number(caseLen + 1)).(
            isDouble := tok.isDouble || c == '.' || c == 'e' || c == 'E'), 1)
    else if tok.pb != [] && tok.pb[0] == '-' && caseLen == 1 && (c == 'i' || c == 'I') then
      Redo(To(tok, Infinity))
    else if !tok.isDouble && ScanInt64(tok.pb).Some? then
      var n := ScanInt64(tok.pb).value;
      if n != 0 && tok.pb != [] && tok.pb[0] == '0' && env.strict then Stop(tok, BadNumber)
      else Redo(Yield(tok, JInt(n)))
    else if tok.isDouble && env.scansAsDouble(tok.pb) then Redo(Yield(tok, JDouble(tok.pb)))
    else Stop(tok, BadNumber)
  }

  function StepBody(tok: Tok, c: char, q: Quoted): Micro {
    if c == tok.quote then
      match q
      case AsValue => Eat(Yield(tok, JString(tok.pb)), 1)
      case AsKey(ms) => Eat(To(tok, EatWs(FieldEnd(ms, CString(tok.pb)))), 1)
    else if c == '\\' then Eat(To(tok, Escape(q)), 1)
    else Eat(Append(tok, [c]), 1)
  }

  // The character a one-letter escape stands for
  function Unescape(c: char): Option<char> {
    if c == '"' || c == '\\' || c == '/' then Some(c)
    else if c == 'b' then Some(0x08 as char)
    else if c == 'n' then Some('\n')
    else if c == 'r' then Some('\r')
    else if c == 't' then Some('\t')
    else if c == 'f' then Some(0x0C as char)
    else None
  }

  function StepEscape(tok: Tok, c: char, q: Quoted): Micro {
    if Unescape(c).Some? then Eat(Append(To(tok, Body(q)), [Unescape(c).value]), 1)
    else if c == 'u' then Eat(To(tok, EscapeUnicode(q, 0)).(ucs := 0, stPos := 0), 1)
    else Stop(tok, BadString)
  }

  // t[0] was the fourth digit; tok has taken in everything but the code itself.
  function StepCode(tok: Tok, t: Text, q: Quoted, code: nat): Micro
    requires t != []
  {
    var done := To(tok, Body(q));
    if code < 0x800 then Eat(Append(done, Utf8(code)), 1)
    else if IsHighSurrogate(code) then
      if |t| >= 3 && t[1] == '\\' && t[2] == 'u' then
        if t[0] == '\0' then Eat(Append(tok, REPLACEMENT + REPLACEMENT), 2)
        else if |t| == 3 then Eat(Append(tok, REPLACEMENT), 3)
        else Eat(To(tok, EscapeUnicode(q, code)).(ucs := 0, stPos := 0), 3)
      else Eat(Append(done, REPLACEMENT), 1)
    else if IsLowSurrogate(code) then Eat(Append(done, REPLACEMENT), 1)
    else Eat(Append(done, Utf8(code)), 1)
  }

  // The code once its fourth digit c is in: a low surrogate joins the high one before it.
  predicate Joins(tok: Tok, hi: nat, c: char)
    requires tok.stPos < 4
  {
    hi != 0 && IsLowSurrogate(AddHexDigit(tok.ucs, c, tok.stPos))
  }

  function CodeAt(tok: Tok, hi: nat, c: char): nat
    requires tok.stPos < 4
  {
    var uc := AddHexDigit(tok.ucs, c, tok.stPos);
    if Joins(tok, hi, c) then DecodePair(hi, uc) else uc
  }

  function StepUnicode(tok: Tok, t: Text, q: Quoted, hi: nat): Micro
    requires t != []
  {
    if !IsHexDigit(t[0]) && t[0] != '\0' then Stop(tok, BadString)
    else if tok.stPos >= 4 then Stop(tok, Undefined)
    else if tok.stPos < 3 then
      Eat(tok.(ucs := AddHexDigit(tok.ucs, t[0], tok.stPos), stPos := tok.stPos + 1), 1)
    else
      var code := CodeAt(tok, hi, t[0]);
      var lone := hi != 0 && !Joins(tok, hi, t[0]);
      var next := To(tok, EscapeUnicode(q, 0)).(ucs := code, stPos := 4);
      StepCode(Append(next, if lone then REPLACEMENT else ""), t, q, code)
  }

  // One pass through the switch, with t the rest of the chunk
  function Step(env: Env, tok: Tok, t: Text): Micro
    requires t != []
  {
    match tok.state
    case EatWs(next) => StepEatWs(env, tok, t[0], next)
    case CommentStart(_) => StepComment(tok, t[0])
    case Comment(_) => StepComment(tok, t[0])
    case CommentEol(_) => StepComment(tok, t[0])
    case CommentEnd(_) => StepComment(tok, t[0])
    case At(here) => StepAt(env, tok, t[0], here)
    case ArrayAdd(es, obj) => Redo(To(tok, EatWs(ArraySep(es + [obj]))))
    case ObjectValueAdd(ms, key, obj) => Redo(To(tok, EatWs(ObjectSep(Put(ms, key, obj)))))
    case Null => StepNull(env, tok, t[0])
    case Boolean => StepBoolean(env, tok, t[0])
    case Infinity => StepInfinity(env, tok, t[0])
    case Number(caseLen) => StepNumber(env, tok, t[0], caseLen)
    case Body(q) => StepBody(tok, t[0], q)
    case Escape(q) => StepEscape(tok, t[0], q)
    case EscapeUnicode(q, hi) => StepUnicode(tok, t, q, hi)
  }
}
