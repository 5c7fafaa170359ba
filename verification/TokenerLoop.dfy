// json_tokener_parse_ex in the form it has in C: one loop over the characters of a chunk, one case
// for each state, tight loops inside the cases, and a stack of records updated in place.  Every
// call computes what the pushdown machine computes.

module TokenerLoop {
  import opened Arith
  import opened Options
  import opened Chars
  import opened OrderedMap
  import opened JsonValue
  import opened Numbers
  import opened Unicode
  import opened Tokener
  import opened TokenerRun
  import opened TokenerRecords
  import opened TokenerCases
  import opened Reader
  import opened TokenerRefines

  class JsonTokener {
    const env: Env                 // flags, max_depth, and libc's sscanf
    const stack: array<Srec>
    var depth: nat
    var pb: Text
    var stPos: nat
    var isDouble: bool
    var ucs: nat
    var quote: char
    var charOffset: nat
    var err: Error

    ghost function Now(): Snap
      requires depth < stack.Length
      reads this, stack
    {
      Snap(stack[..depth], stack[depth], pb, stPos, isDouble, ucs, quote, charOffset, err)
    }

    // Between calls
    ghost predicate Valid()
      reads this, stack
    {
      stack.Length == env.maxDepth && depth < stack.Length && SnapOk(env, Now()) && Settled(stack[depth])
    }

    // The machine state between calls
    ghost function Abs(): Tok
      requires Valid()
      reads this, stack
    {
      TokOf(Now(), JNull)
    }

    // json_tokener_new_ex
    constructor (env: Env)
      requires env.maxDepth >= 1
      ensures Valid() && fresh(stack) && this.env == env
      ensures Abs() == NEW && err == Success
    {
      this.env := env;
      stack := new Srec[env.maxDepth](_ => CLEARED);
      depth, pb, stPos, isDouble, ucs, quote, charOffset, err := 0, "", 0, false, 0, '\0', 0, Success;
    }

    // json_tokener_reset
    method Reset()
      requires Valid()
      modifies this, stack
      ensures Valid() && Ready(Abs()) && err == Success
    {
      ResetLevels();
      depth := 0;
      err := Success;
    }

    // Inside the call x
    ghost predicate Live(x: Call)
      reads this, stack
    {
      stack.Length == env.maxDepth && depth < stack.Length && x.env == env
    }

    method SetTop(r: Srec)
      requires depth < stack.Length
      modifies stack
      ensures Now() == old(Now()).(top := r)
    {
      stack[depth] := r;
    }

    method SetState(state: StateName)
      requires depth < stack.Length
      modifies stack
      ensures Now() == old(Now()).(top := In(old(Now()).top, state))
    {
      SetTop(stack[depth].(state := state));
    }

    method Await(saved: StateName)
      requires depth < stack.Length
      modifies stack
      ensures Now() == old(Now()).(top := Awaits(old(Now()).top, saved))
    {
      SetTop(stack[depth].(state := SEatWs, saved := saved));
    }

    // PEEK_CHAR at the end of the chunk
    method PeekEnd(c: char, obj: Value, ghost x: Call)
      requires Live(x) && SnapOk(env, Now()) && Settled(stack[depth])
      requires AtEndIn(x, Now(), StateOf(stack[depth], obj)) && c != '\0'
      modifies `err
      ensures Live(x) && Leaving(x, Now(), c, obj)
    {
      hide SnapOk, AtEndIn, Leaving;
      ghost var s := Now();
      PeekLeaves(x, s, obj, c);
      err := if depth == 0 && stack[depth].state == SEatWs && stack[depth].saved == SFinish then Success else Continue;
      assert Now() == s.(err := PeekError(s));
    }

    // json_tokener_state_eatws
    method CaseEatWs(chunk: Text, c0: char, obj: Value, ghost x: Call) returns (e: Exit, c: char)
      requires Live(x) && x.chunk == chunk && Reading(x, Now(), c0, obj) && stack[depth].state == SEatWs
      modifies this, stack
      ensures old(charOffset) <= charOffset
      ensures Live(x) && Left(x, e, Now(), c, obj)
      ensures e == ToRedo ==> Measure(x, Now(), c, obj) < old(Measure(x, Now(), c0, obj))
    {
      hide GoesOn, TokIn, LowerAllOk, RecordOk, Rank, Leaving, StateOf;
      c := c0;
      while IsSpace(c)
        invariant old(charOffset) <= charOffset
        invariant Live(x) && Reading(x, Now(), c, obj) && stack[depth].state == SEatWs
        invariant Measure(x, Now(), c, obj) <= old(Measure(x, Now(), c0, obj))
        decreases |chunk| - charOffset
      {
        SpaceUsed(x, Now(), c, obj);
        Advances(x, Now(), StateOf(stack[depth], obj), c);
        charOffset := charOffset + 1;
        if charOffset == |chunk| {
          PeekEnd(c, obj, x);
          return ToOut, c;
        }
        c := chunk[charOffset];
      }
      e := EndWs(c, obj, x);
    }

    method EndWs(c: char, obj: Value, ghost x: Call) returns (e: Exit)
      requires Live(x) && Reading(x, Now(), c, obj) && stack[depth].state == SEatWs && !IsSpace(c)
      modifies this, stack
      ensures old(charOffset) <= charOffset
      ensures Live(x) && Left(x, e, Now(), c, obj)
      ensures e == ToRedo ==> Measure(x, Now(), c, obj) < old(Measure(x, Now(), c, obj))
    {
      hide Reading, Used, Leaving, Measure, In, IsSpace;
      EatWsLeft(x, Now(), c, obj);
      if c == '/' && !env.strict {
        pb := [c];
        SetState(SCommentStart);
        e := ToNext;
      } else {
        SetState(stack[depth].saved);
        e := ToRedo;
      }
    }

    // json_tokener_state_start
    method CaseStart(chunk: Text, c: char, obj: Value, ghost x: Call) returns (e: Exit)
      requires Live(x) && x.chunk == chunk && Reading(x, Now(), c, obj) && stack[depth].state == SStart
      modifies this, stack
      ensures old(charOffset) <= charOffset
      ensures Live(x) && Left(x, e, Now(), c, obj)
      ensures e == ToRedo ==> Measure(x, Now(), c, obj) < old(Measure(x, Now(), c, obj))
    {
      hide Reading, Used, Leaving, Measure, In, Awaits, KeywordState;
      if c == '{' || c == '[' {
        BracketUsed(x, Now(), c, obj);
        Await(if c == '{' then SObjectFieldStart else SArray);
        SetTop(stack[depth].(current := if c == '{' then JObject([]) else JArray([])));
        return ToNext;
      } else if c == '"' || (c == '\'' && !env.strict) {
        QuoteUsed(x, Now(), c, obj);
        SetState(SString);
        pb := "";
        quote := c;
        return ToNext;
      } else if KeywordState(c).Some? || IsDigit(c) || c == '-' {
        BeginWord(c, obj, x);
        return ToRedo;
      } else {
        StartStopped(x, Now(), c, obj);
        err := UnexpectedChar;
        return ToOut;
      }
    }

    method BeginWord(c: char, obj: Value, ghost x: Call)
      requires Live(x) && Reading(x, Now(), c, obj) && stack[depth].state == SStart
      requires KeywordState(c).Some? || IsDigit(c) || c == '-'
      modifies this, stack
      ensures old(charOffset) <= charOffset
      ensures Live(x) && Reading(x, Now(), c, obj)
      ensures Measure(x, Now(), c, obj) < old(Measure(x, Now(), c, obj))
    {
      hide Reading, Measure, In, IsDigit;
      pb := "";
      if KeywordState(c).Some? {
        KeywordRedone(x, old(Now()), c, obj);
        SetState(KeywordState(c).value);
        stPos := 0;
      } else {
        NumberStarts(x, old(Now()), c, obj);
        SetState(SNumber);
        isDouble := false;
      }
    }

    // json_tokener_state_finish
    method CaseFinish(chunk: Text, c: char, obj0: Value, ghost x: Call) returns (e: Exit, obj: Value)
      requires Live(x) && x.chunk == chunk && Reading(x, Now(), c, obj0) && stack[depth].state == SFinish
      modifies this, stack
      ensures old(charOffset) <= charOffset
      ensures Live(x) && Left(x, e, Now(), c, obj)
      ensures e == ToRedo ==> Measure(x, Now(), c, obj) < old(Measure(x, Now(), c, obj0))
    {
      hide Reading, Leaving, Measure;
      ghost var s := Now();
      FinishLeft(x, s, c, obj0);
      if depth == 0 {
        return ToOut, obj0;
      }
      obj := stack[depth].current;
      SetTop(CLEARED);
      depth := depth - 1;
      assert stack[..depth] == s.lower[..depth];
      return ToRedo, obj;
    }

    // The keyword states: word0 and word1 are tried against the n + 1 characters in buf.
    method Word(c: char, obj: Value, buf: Text, word0: Text, v0: Value, word1: Text, v1: Value, error: Error,
                ghost x: Call)
        returns (e: Exit)
      requires Live(x) && InWord(x, Now(), c, obj, buf, word0, v0, word1, v1, error)
      modifies this, stack
      ensures old(charOffset) <= charOffset
      ensures Live(x) && Left(x, e, Now(), c, obj)
      ensures e == ToRedo ==> Measure(x, Now(), c, obj) < old(Measure(x, Now(), c, obj))
    {
      hide InWord, Reading, Used, Leaving, Measure, Agrees, MoveInWord, Done, Min;
      WordLeft(x, Now(), c, obj, buf, word0, v0, word1, v1, error);
      MoveIs(env.strict, buf, stPos, word0, word1);
      pb := pb + [c];
      if Agrees(env.strict, word0, buf, Min(stPos + 1, |word0|)) {
        if stPos == |word0| {
          SetTop(Done(stack[depth], v0));
          return ToRedo;
        }
      } else if Agrees(env.strict, word1, buf, Min(stPos + 1, |word1|)) {
        if stPos == |word1| {
          SetTop(Done(stack[depth], v1));
          return ToRedo;
        }
      } else {
        err := error;
        return ToOut;
      }
      stPos := stPos + 1;
      return ToNext;
    }

    lemma MoveIs(exact: bool, buf: Text, n: nat, word0: Text, word1: Text)
      ensures MoveInWord(exact, buf, n, word0, word1) ==
              if Agrees(exact, word0, buf, Min(n + 1, |word0|)) then if n == |word0| then First else More
              else if Agrees(exact, word1, buf, Min(n + 1, |word1|)) then if n == |word1| then Second else More
              else Wrong
    {
    }

    method CaseKeyword(chunk: Text, c: char, obj: Value, ghost x: Call) returns (e: Exit)
      requires Live(x) && x.chunk == chunk && Reading(x, Now(), c, obj) && stack[depth].state in {SNull, SBoolean, SInf}
      modifies this, stack
      ensures old(charOffset) <= charOffset
      ensures Live(x) && Left(x, e, Now(), c, obj)
      ensures e == ToRedo ==> Measure(x, Now(), c, obj) < old(Measure(x, Now(), c, obj))
    {
      hide GoesOn, Used, Leaving, Measure, StepWord, StackOf;
      var buf := pb + [c];
      if stack[depth].state == SNull {
        e := Word(c, obj, buf, "null", JNull, "NaN", JNaN, BadNull, x);
      } else if stack[depth].state == SBoolean {
        e := Word(c, obj, buf, "true", JBool(true), "false", JBool(false), BadBoolean, x);
      } else {
        var negative := buf[0] == '-';
        var v := JInfinity(negative);
        e := Word(c, obj, if negative then buf[1..] else buf, "Infinity", v, "Infinity", v, UnexpectedChar, x);
      }
    }

    // json_tokener_state_comment_start, ..._comment_end
    method CaseCommentEdge(chunk: Text, c: char, obj: Value, ghost x: Call) returns (e: Exit)
      requires Live(x) && x.chunk == chunk && Reading(x, Now(), c, obj)
      requires stack[depth].state == SCommentStart || stack[depth].state == SCommentEnd
      modifies this, stack
      ensures old(charOffset) <= charOffset
      ensures Live(x) && e != ToRedo && Left(x, e, Now(), c, obj)
    {
      hide Reading, Used, Leaving;
      CommentLeft(x, Now(), c, obj);
      if stack[depth].state == SCommentEnd {
        SetState(if c == '/' then SEatWs else SComment);
      } else if c == '*' {
        SetState(SComment);
      } else if c == '/' {
        SetState(SCommentEol);
      } else {
        err := BadComment;
        return ToOut;
      }
      pb := pb + [c];
      return ToNext;
    }

    // json_tokener_state_comment and ..._comment_eol: advance until the comment changes state
    method CaseComment(chunk: Text, c0: char, obj: Value, ghost x: Call) returns (e: Exit, c: char)
      requires Live(x) && x.chunk == chunk && Reading(x, Now(), c0, obj)
      requires stack[depth].state == SComment || stack[depth].state == SCommentEol
      requires charOffset < |chunk| && c0 == chunk[charOffset]
      modifies this, stack
      ensures old(charOffset) <= charOffset
      ensures Live(x) && e != ToRedo && Left(x, e, Now(), c, obj)
    {
      hide Reading, Used, Leaving, CommentNext;
      c := c0;
      var start, last := charOffset, if stack[depth].state == SComment then '*' else '\n';
      assert Ahead(chunk, start) == Now();
      while c != last
        invariant old(charOffset) <= charOffset
        invariant Live(x) && stack[depth].state == (if last == '*' then SComment else SCommentEol)
        invariant start <= charOffset < |chunk| && c == chunk[charOffset]
        invariant Reading(x, Ahead(chunk, start), c, obj)
        decreases |chunk| - charOffset
      {
        ghost var s := Ahead(chunk, start);
        CommentLeft(x, s, c, obj);
        CommentStays(s.top, c);
        e, c := Advance(chunk, start, c, obj, x);
        if e == ToOut {
          return;
        }
      }
      pb := pb + chunk[start..charOffset];
      EndComment(c, obj, x);
      e := ToNext;
    }

    method EndComment(c: char, obj: Value, ghost x: Call)
      requires Live(x) && Reading(x, Now(), c, obj)
      requires (stack[depth].state == SComment && c == '*') || (stack[depth].state == SCommentEol && c == '\n')
      modifies this, stack
      ensures old(charOffset) <= charOffset
      ensures Live(x) && Used(x, Now(), c, obj)
    {
      hide Reading, Used;
      CommentLeft(x, Now(), c, obj);
      if c == '*' {
        pb := pb + [c];
        SetState(SCommentEnd);
      } else {
        SetState(SEatWs);
      }
    }

    // In a tight loop that began at start:
    //   if (!ADVANCE_CHAR(str, tok) || !PEEK_CHAR(c, tok)) { append what the loop has passed; goto out; }
    method Advance(chunk: Text, start: nat, c0: char, obj: Value, ghost x: Call) returns (e: Exit, c: char)
      requires Live(x) && x.chunk == chunk && start <= charOffset < |chunk|
      requires Used(x, Now().(pb := pb + chunk[start..charOffset + 1]), c0, obj)
      modifies this
      ensures old(charOffset) <= charOffset
      ensures Live(x) && depth == old(depth) && quote == old(quote)
      ensures e == ToRedo || e == ToOut
      ensures e == ToOut ==> Leaving(x, Now(), c, obj)
      ensures e == ToRedo ==>
                && charOffset == old(charOffset) + 1 < |chunk| && c == chunk[charOffset]
                && Reading(x, Ahead(chunk, start), c, obj)
    {
      hide GoesOn, TokIn, LowerAllOk, RecordOk, Leaving, StateOf;
      c := c0;
      ghost var s := Now().(pb := pb + chunk[start..charOffset + 1]);
      if c == '\0' {
        MeetsNul(x, s, c, obj);
      } else {
        Advances(x, s, StateOf(stack[depth], obj), c);
      }
      charOffset := charOffset + 1;
      if c == '\0' || charOffset == |chunk| {
        pb := pb + chunk[start..charOffset];
        if c != '\0' {
          PeekEnd(c, obj, x);
        }
        return ToOut, c;
      }
      return ToRedo, chunk[charOffset];
    }

    // json_tokener_state_string and ..._object_field
    method CaseText(chunk: Text, c0: char, obj: Value, ghost x: Call) returns (e: Exit, c: char)
      requires Live(x) && x.chunk == chunk && Reading(x, Now(), c0, obj)
      requires stack[depth].state == SString || stack[depth].state == SObjectField
      requires charOffset < |chunk| && c0 == chunk[charOffset]
      modifies this, stack
      ensures old(charOffset) <= charOffset
      ensures Live(x) && e != ToRedo && Left(x, e, Now(), c, obj)
    {
      hide Reading, Used, Leaving;
      c := c0;
      var start := charOffset;
      assert Ahead(chunk, start) == Now();
      while c != quote && c != '\\'
        invariant old(charOffset) <= charOffset
        invariant Live(x) && (stack[depth].state == SString || stack[depth].state == SObjectField)
        invariant start <= charOffset < |chunk| && c == chunk[charOffset]
        invariant Reading(x, Ahead(chunk, start), c, obj)
        decreases |chunk| - charOffset
      {
        BodyLeft(x, Ahead(chunk, start), c, obj);
        e, c := Advance(chunk, start, c, obj, x);
        if e == ToOut {
          return;
        }
      }
      pb := pb + chunk[start..charOffset];
      EndText(c, obj, x);
      e := ToNext;
    }

    // What the fields are once the text that a tight loop has passed since start is appended
    ghost function Ahead(chunk: Text, start: nat): (s: Snap)
      requires depth < stack.Length && start <= charOffset <= |chunk|
      reads this, stack
      ensures start == charOffset ==> s == Now()
      ensures charOffset < |chunk| ==>
                s.(pb := s.pb + [chunk[charOffset]]) == Now().(pb := pb + chunk[start..charOffset + 1])
    {
      assert charOffset < |chunk| ==> chunk[start..charOffset] + [chunk[charOffset]] == chunk[start..charOffset + 1];
      Now().(pb := pb + chunk[start..charOffset])
    }

    method EndText(c: char, obj: Value, ghost x: Call)
      requires Live(x) && Reading(x, Now(), c, obj) && (c == quote || c == '\\')
      requires stack[depth].state == SString || stack[depth].state == SObjectField
      modifies this, stack
      ensures old(charOffset) <= charOffset
      ensures Live(x) && Used(x, Now(), c, obj)
    {
      hide Reading, Used, CString, Done, Awaits;
      BodyLeft(x, Now(), c, obj);
      if c != quote {
        SetTop(stack[depth].(saved := stack[depth].state, state := SStringEscape));
      } else if stack[depth].state == SString {
        SetTop(Done(stack[depth], JString(pb)));
      } else {
        SetTop(Awaits(stack[depth], SObjectFieldEnd).(fieldName := Some(CString(pb))));
      }
    }

    // json_tokener_state_string_escape
    method CaseEscape(chunk: Text, c: char, obj: Value, ghost x: Call) returns (e: Exit)
      requires Live(x) && x.chunk == chunk && Reading(x, Now(), c, obj) && stack[depth].state == SStringEscape
      modifies this, stack
      ensures old(charOffset) <= charOffset
      ensures Live(x) && e != ToRedo && Left(x, e, Now(), c, obj)
    {
      hide Reading, Used, Leaving, Unescape;
      EscapeLeft(x, Now(), c, obj);
      if Unescape(c).Some? {
        pb := pb + [Unescape(c).value];
        SetState(stack[depth].saved);
        return ToNext;
      } else if c == 'u' {
        ucs := 0;
        stPos := 0;
        SetState(SEscapeUnicode);
        return ToNext;
      } else {
        err := BadString;
        return ToOut;
      }
    }

    // json_tokener_state_array, ..._array_after_sep
    method CaseArray(chunk: Text, c: char, obj: Value, ghost x: Call) returns (e: Exit)
      requires Live(x) && x.chunk == chunk && Reading(x, Now(), c, obj)
      requires stack[depth].state == SArray || stack[depth].state == SArrayAfterSep
      modifies this, stack
      ensures old(charOffset) <= charOffset
      ensures Live(x) && Left(x, e, Now(), c, obj)
      ensures e == ToRedo ==> Measure(x, Now(), c, obj) < old(Measure(x, Now(), c, obj))
    {
      hide Reading, Used, Leaving, Measure, In, Awaits;
      ghost var s := Now();
      ArrayLeft(x, s, c, obj);
      if c == ']' {
        if stack[depth].state == SArrayAfterSep && env.strict {
          err := UnexpectedChar;
          return ToOut;
        }
        Await(SFinish);
        return ToNext;
      }
      if depth >= env.maxDepth - 1 {
        err := TooDeep;
        return ToOut;
      }
      SetState(SArrayAdd);
      Deeper();
      return ToRedo;
    }

    // depth++; json_tokener_reset_level(tok, depth);
    method Deeper()
      requires depth + 1 < stack.Length
      modifies this, stack
      ensures depth == old(depth) + 1 < stack.Length
      ensures Now() == old(Now()).(lower := old(Now()).lower + [old(Now()).top], top := CLEARED)
    {
      depth := depth + 1;
      SetTop(CLEARED);
      assert stack[..depth] == old(stack[..depth]) + [old(stack[depth])];
    }

    method CaseArrayAdd(chunk: Text, c: char, obj: Value, ghost x: Call) returns (e: Exit)
      requires Live(x) && x.chunk == chunk && Reading(x, Now(), c, obj) && stack[depth].state == SArrayAdd
      modifies this, stack
      ensures old(charOffset) <= charOffset
      ensures Live(x) && e == ToRedo && Left(x, e, Now(), c, obj)
      ensures Measure(x, Now(), c, obj) < old(Measure(x, Now(), c, obj))
    {
      hide GoesOn, TokIn, Measure;
      ArrayAddLeft(x, Now(), c, obj);
      SetTop(stack[depth].(current := JArray(stack[depth].current.elements + [obj])));
      Await(SArraySep);
      return ToRedo;
    }

    method CaseArraySep(chunk: Text, c: char, obj: Value, ghost x: Call) returns (e: Exit)
      requires Live(x) && x.chunk == chunk && Reading(x, Now(), c, obj) && stack[depth].state == SArraySep
      modifies this, stack
      ensures old(charOffset) <= charOffset
      ensures Live(x) && e != ToRedo && Left(x, e, Now(), c, obj)
    {
      hide Reading, Used, Leaving, Awaits;
      ArraySepLeft(x, Now(), c, obj);
      if c == ']' {
        Await(SFinish);
      } else if c == ',' {
        Await(SArrayAfterSep);
      } else {
        err := BadArray;
        return ToOut;
      }
      return ToNext;
    }

    // json_tokener_state_object_field_start, ..._object_field_start_after_sep
    method CaseFieldStart(chunk: Text, c: char, obj: Value, ghost x: Call) returns (e: Exit)
      requires Live(x) && x.chunk == chunk && Reading(x, Now(), c, obj)
      requires stack[depth].state == SObjectFieldStart || stack[depth].state == SObjectFieldStartAfterSep
      modifies this, stack
      ensures old(charOffset) <= charOffset
      ensures Live(x) && e != ToRedo && Left(x, e, Now(), c, obj)
    {
      hide Reading, Used, Leaving, Awaits, In;
      FieldStartLeft(x, Now(), c, obj);
      if c == '}' {
        if stack[depth].state == SObjectFieldStartAfterSep && env.strict {
          err := UnexpectedChar;
          return ToOut;
        }
        Await(SFinish);
      } else if c == '"' || c == '\'' {
        quote := c;
        pb := "";
        SetState(SObjectField);
      } else {
        err := BadKeyName;
        return ToOut;
      }
      return ToNext;
    }

    method CaseFieldEnd(chunk: Text, c: char, obj: Value, ghost x: Call) returns (e: Exit)
      requires Live(x) && x.chunk == chunk && Reading(x, Now(), c, obj) && stack[depth].state == SObjectFieldEnd
      modifies this, stack
      ensures old(charOffset) <= charOffset
      ensures Live(x) && e != ToRedo && Left(x, e, Now(), c, obj)
    {
      hide Reading, Used, Leaving, Awaits;
      FieldEndLeft(x, Now(), c, obj);
      if c == ':' {
        Await(SObjectValue);
        return ToNext;
      }
      err := BadKeySeparator;
      return ToOut;
    }

    method CaseObjectValue(chunk: Text, c: char, obj: Value, ghost x: Call) returns (e: Exit)
      requires Live(x) && x.chunk == chunk && Reading(x, Now(), c, obj) && stack[depth].state == SObjectValue
      modifies this, stack
      ensures old(charOffset) <= charOffset
      ensures Live(x) && Left(x, e, Now(), c, obj)
      ensures e == ToRedo ==> Measure(x, Now(), c, obj) < old(Measure(x, Now(), c, obj))
    {
      hide Reading, Leaving, Measure, In;
      ghost var s := Now();
      ObjectValueLeft(x, s, c, obj);
      if depth >= env.maxDepth - 1 {
        err := TooDeep;
        return ToOut;
      }
      SetState(SObjectValueAdd);
      Deeper();
      return ToRedo;
    }

    method CaseObjectValueAdd(chunk: Text, c: char, obj: Value, ghost x: Call) returns (e: Exit)
      requires Live(x) && x.chunk == chunk && Reading(x, Now(), c, obj) && stack[depth].state == SObjectValueAdd
      modifies this, stack
      ensures old(charOffset) <= charOffset
      ensures Live(x) && e == ToRedo && Left(x, e, Now(), c, obj)
      ensures Measure(x, Now(), c, obj) < old(Measure(x, Now(), c, obj))
    {
      hide GoesOn, TokIn, Measure, Put;
      ObjectValueAddLeft(x, Now(), c, obj);
      SetTop(stack[depth].(current := JObject(Put(stack[depth].current.members, stack[depth].fieldName.value, obj))));
      SetTop(stack[depth].(fieldName := None));
      Await(SObjectSep);
      return ToRedo;
    }

    method CaseObjectSep(chunk: Text, c: char, obj: Value, ghost x: Call) returns (e: Exit)
      requires Live(x) && x.chunk == chunk && Reading(x, Now(), c, obj) && stack[depth].state == SObjectSep
      modifies this, stack
      ensures old(charOffset) <= charOffset
      ensures Live(x) && e != ToRedo && Left(x, e, Now(), c, obj)
    {
      hide Reading, Used, Leaving, Awaits;
      ObjectSepLeft(x, Now(), c, obj);
      if c == '}' {
        Await(SFinish);
      } else if c == ',' {
        Await(SObjectFieldStartAfterSep);
      } else {
        err := BadValueSeparator;
        return ToOut;
      }
      return ToNext;
    }

    // json_tokener_state_number
    method CaseNumber(chunk: Text, c0: char, obj: Value, ghost x: Call) returns (e: Exit, c: char)
      requires Live(x) && x.chunk == chunk && Reading(x, Now(), c0, obj) && stack[depth].state == SNumber
      modifies this, stack
      ensures old(charOffset) <= charOffset
      ensures Live(x) && e != ToNext && Left(x, e, Now(), c, obj)
      ensures e == ToRedo ==> Measure(x, Now(), c, obj) < old(Measure(x, Now(), c0, obj))
    {
      hide GoesOn, TokIn, LowerAllOk, RecordOk, StateOf, Rank;
      c := c0;
      ghost var s0 := Now();
      var start, caseLen := charOffset, 0;
      assert Ahead(chunk, start) == Now();
      EntersNumber(x, Now(), c, obj);
      hide Reading, Leaving, InNumber, NumberRedone, Measure;
      while c != '\0' && IsNumberChar(c)
        invariant old(charOffset) <= charOffset
        invariant Live(x)
        invariant start <= charOffset < |chunk| && charOffset == start + caseLen && c == chunk[charOffset]
        invariant InNumber(x, Ahead(chunk, start), caseLen, c)
        decreases |chunk| - charOffset
      {
        e, c := NextDigit(chunk, start, caseLen, c, obj, x);
        if e == ToOut {
          return;
        }
        caseLen := caseLen + 1;
      }
      pb := pb + chunk[start..charOffset];
      e := NumberBehind(caseLen, c, obj, x);
      NumberMeasure(x, s0, c0, Now(), c, obj);
    }

    method NextDigit(chunk: Text, start: nat, caseLen: nat, c0: char, obj: Value, ghost x: Call)
        returns (e: Exit, c: char)
      requires Live(x) && x.chunk == chunk && start <= charOffset < |chunk| && c0 == chunk[charOffset]
      requires InNumber(x, Ahead(chunk, start), caseLen, c0) && IsNumberChar(c0) && c0 != '\0'
      modifies this
      ensures old(charOffset) <= charOffset
      ensures Live(x) && (e == ToRedo || e == ToOut)
      ensures e == ToOut ==> Leaving(x, Now(), c, obj)
      ensures e == ToRedo ==>
                && charOffset == old(charOffset) + 1 < |chunk| && c == chunk[charOffset]
                && InNumber(x, Ahead(chunk, start), caseLen + 1, c)
    {
      hide InNumber, Leaving, IsNumberChar;
      c := c0;
      NumberGoesOn(x, Ahead(chunk, start), caseLen, c, obj);
      if c == '.' || c == 'e' || c == 'E' {
        isDouble := true;
      }
      charOffset := charOffset + 1;
      if charOffset == |chunk| {
        err := Continue;
        pb := pb + chunk[start..charOffset];
        return ToOut, c;
      }
      return ToRedo, chunk[charOffset];
    }

    // The character behind a number
    method NumberBehind(caseLen: nat, c: char, obj: Value, ghost x: Call) returns (e: Exit)
      requires Live(x) && InNumber(x, Now(), caseLen, c) && !IsNumberChar(c)
      modifies this, stack
      ensures old(charOffset) <= charOffset
      ensures Live(x) && e != ToNext && charOffset == old(charOffset)
      ensures e == ToOut ==> Leaving(x, Now(), c, obj)
      ensures e == ToRedo ==> NumberRedone(x, Now(), c, obj)
    {
      hide InNumber, NumberRedone, Leaving, ScanInt64, GoesToInfinity, NumberFound, In, Done;
      NumberLeft(x, Now(), caseLen, c, obj);
      var v := NumberFound(env, pb, isDouble);
      if GoesToInfinity(pb, caseLen, c) {
        SetState(SInf);
        return ToRedo;
      } else if v.None? {
        err := BadNumber;
        return ToOut;
      } else {
        SetTop(Done(stack[depth], v.value));
        return ToRedo;
      }
    }

    // json_tokener_state_escape_unicode
    method CaseUnicode(chunk: Text, c0: char, obj: Value, ghost x: Call) returns (e: Exit, c: char)
      requires Live(x) && x.chunk == chunk && Reading(x, Now(), c0, obj) && stack[depth].state == SEscapeUnicode
      modifies this, stack
      ensures old(charOffset) <= charOffset
      ensures Live(x) && e != ToRedo && Left(x, e, Now(), c, obj)
    {
      hide GoesOn, TokIn, LowerAllOk, RecordOk, Leaving, Used, InEscape;
      c := c0;
      var hi := 0;
      EntersEscape(x, Now(), c, obj);
      while true
        invariant old(charOffset) <= charOffset
        invariant Live(x) && charOffset < |chunk| && c == chunk[charOffset]
        invariant InEscape(x, Now(), hi, c)
        decreases |chunk| - charOffset
      {
        if !IsHexDigit(c) && c != '\0' {
          DigitFails(x, Now(), hi, c, obj);
          err := BadString;
          return ToOut, c;
        }
        e, c, hi := Digit(chunk, c, hi, obj, x);
        if e != ToRedo {
          return;
        }
      }
    }

    method Digit(chunk: Text, c0: char, hi0: nat, obj: Value, ghost x: Call) returns (e: Exit, c: char, hi: nat)
      requires Live(x) && x.chunk == chunk && charOffset < |chunk| && c0 == chunk[charOffset]
      requires InEscape(x, Now(), hi0, c0) && (IsHexDigit(c0) || c0 == '\0')
      modifies this, stack
      ensures old(charOffset) <= charOffset
      ensures Live(x) && (e != ToRedo ==> Left(x, e, Now(), c, obj))
      ensures e == ToRedo ==>
                old(charOffset) < charOffset < |chunk| && c == chunk[charOffset] && InEscape(x, Now(), hi, c)
    {
      hide Leaving, InEscape, AddHexDigit, IsHexDigit, Used, Given;
      c, hi := c0, hi0;
      if stPos >= 4 {
        DigitFails(x, Now(), hi, c, obj);
        err := Undefined;
        return ToOut, c, hi;
      } else if stPos == 3 {
        e, c, hi := FourthDigit(chunk, c, hi, obj, x);
        return;
      }
      DigitGoesOn(x, Now(), hi, c, obj);
      ucs := AddHexDigit(ucs, c, stPos);
      stPos := stPos + 1;
      charOffset := charOffset + 1;
      if c == '\0' || charOffset == |chunk| {
        if c != '\0' {
          err := Continue;
        }
        pb := pb + Given(hi);
        return ToOut, c, hi;
      }
      return ToRedo, chunk[charOffset], hi;
    }

    // The code, with a pending high surrogate joined or replaced
    method TakeCode(c: char, hi: nat)
      requires depth < stack.Length && stPos == 3
      modifies `ucs, `stPos, `pb
      ensures Now() == Complete(old(Now()), hi, c)
    {
      hide AddHexDigit, IsLowSurrogate, DecodePair;
      assert pb + "" == pb;
      ucs := AddHexDigit(ucs, c, 3);
      stPos := 4;
      if hi != 0 {
        if IsLowSurrogate(ucs) {
          ucs := DecodePair(hi, ucs);
        } else {
          pb := pb + REPLACEMENT;
        }
      }
    }

    // if (tok->st_pos == 4): the code is complete.  ToRedo: on to the digits of a second escape.
    method FourthDigit(chunk: Text, c0: char, hi0: nat, obj: Value, ghost x: Call) returns (e: Exit, c: char, hi: nat)
      requires Live(x) && x.chunk == chunk && charOffset < |chunk| && c0 == chunk[charOffset]
      requires InEscape(x, Now(), hi0, c0) && stPos == 3 && (IsHexDigit(c0) || c0 == '\0')
      modifies this, stack
      ensures old(charOffset) <= charOffset
      ensures Live(x) && (e != ToRedo ==> Left(x, e, Now(), c, obj))
      ensures e == ToRedo ==>
                old(charOffset) < charOffset < |chunk| && c == chunk[charOffset] && InEscape(x, Now(), hi, c)
    {
      hide Used, Leaving, InEscape, AddHexDigit, CodeBytes, IsHexDigit, IsHighSurrogate, IsLowSurrogate, DecodePair;
      hide EscapeAhead, In;
      hide Complete;
      c, hi := c0, hi0;
      ghost var s := Now();
      TakeCode(c, hi);
      if ucs >= 0x800 && IsHighSurrogate(ucs) && EscapeAhead(chunk, charOffset) {
        PairLeft(x, s, hi, c, obj);
        hi := ucs;
        e, c := SecondEscape(chunk, c, obj, x);
        return;
      }
      CodeLeft(x, s, hi, c, obj);
      pb := pb + CodeBytes(ucs);
      SetState(stack[depth].saved);
      return ToNext, c, 0;
    }

    // On to the first digit of the escape behind a high surrogate
    method SecondEscape(chunk: Text, c0: char, obj: Value, ghost x: Call) returns (e: Exit, c: char)
      requires Live(x) && x.chunk == chunk && EscapeAhead(chunk, charOffset)
      requires c0 == '\0' ==>
                 Leaving(x, Now().(pb := pb + REPLACEMENT + REPLACEMENT, off := charOffset + 2), c0, obj)
      requires c0 != '\0' && charOffset + 3 == |chunk| ==>
                 Leaving(x, Now().(pb := pb + REPLACEMENT, off := charOffset + 3, err := Continue), c0, obj)
      requires c0 != '\0' && charOffset + 3 < |chunk| ==>
                 InEscape(x, Now().(ucs := 0, stPos := 0, off := charOffset + 3), ucs, chunk[charOffset + 3])
      modifies this
      ensures old(charOffset) <= charOffset
      ensures Live(x) && e != ToNext
      ensures e == ToOut ==> Leaving(x, Now(), c, obj)
      ensures e == ToRedo ==>
                old(charOffset) < charOffset < |chunk| && c == chunk[charOffset] && InEscape(x, Now(), old(ucs), c)
    {
      hide Leaving, InEscape;
      c := c0;
      if c == '\0' {
        pb := pb + REPLACEMENT + REPLACEMENT;
        charOffset := charOffset + 2;
        return ToOut, c;
      }
      charOffset := charOffset + 3;
      if charOffset == |chunk| {
        err := Continue;
        pb := pb + REPLACEMENT;
        return ToOut, c;
      }
      ucs := 0;
      stPos := 0;
      return ToRedo, chunk[charOffset];
    }

    // The switch over the state
    method Switch(chunk: Text, c0: char, obj0: Value, ghost x: Call) returns (e: Exit, c: char, obj: Value)
      requires Live(x) && x.chunk == chunk && Reading(x, Now(), c0, obj0)
      modifies this, stack
      ensures old(charOffset) <= charOffset
      ensures Live(x) && Left(x, e, Now(), c, obj)
      ensures e == ToRedo ==> Measure(x, Now(), c, obj) < old(Measure(x, Now(), c0, obj0))
    {
      hide GoesOn, TokIn, LowerAllOk, RecordOk, StateOf, Used, Leaving, Measure;
      c, obj := c0, obj0;
      match stack[depth].state {
        case SEatWs => e, c := CaseEatWs(chunk, c, obj, x);
        case SStart => e := CaseStart(chunk, c, obj, x);
        case SFinish => e, obj := CaseFinish(chunk, c, obj, x);
        case SNull => e := CaseKeyword(chunk, c, obj, x);
        case SBoolean => e := CaseKeyword(chunk, c, obj, x);
        case SInf => e := CaseKeyword(chunk, c, obj, x);
        case SCommentStart => e := CaseCommentEdge(chunk, c, obj, x);
        case SCommentEnd => e := CaseCommentEdge(chunk, c, obj, x);
        case SComment => e, c := CaseComment(chunk, c, obj, x);
        case SCommentEol => e, c := CaseComment(chunk, c, obj, x);
        case SString => e, c := CaseText(chunk, c, obj, x);
        case SObjectField => e, c := CaseText(chunk, c, obj, x);
        case SStringEscape => e := CaseEscape(chunk, c, obj, x);
        case SEscapeUnicode => e, c := CaseUnicode(chunk, c, obj, x);
        case SNumber => e, c := CaseNumber(chunk, c, obj, x);
        case SArray => e := CaseArray(chunk, c, obj, x);
        case SArrayAfterSep => e := CaseArray(chunk, c, obj, x);
        case SArrayAdd => e := CaseArrayAdd(chunk, c, obj, x);
        case SArraySep => e := CaseArraySep(chunk, c, obj, x);
        case SObjectFieldStart => e := CaseFieldStart(chunk, c, obj, x);
        case SObjectFieldStartAfterSep => e := CaseFieldStart(chunk, c, obj, x);
        case SObjectFieldEnd => e := CaseFieldEnd(chunk, c, obj, x);
        case SObjectValue => e := CaseObjectValue(chunk, c, obj, x);
        case SObjectValueAdd => e := CaseObjectValueAdd(chunk, c, obj, x);
        case SObjectSep => e := CaseObjectSep(chunk, c, obj, x);
      }
    }

    // The switch for one character, again after each goto redo_char
    method Passes(chunk: Text, c0: char, obj0: Value, ghost x: Call) returns (e: Exit, c: char, obj: Value)
      requires Live(x) && x.chunk == chunk && Reading(x, Now(), c0, obj0)
      modifies this, stack
      ensures old(charOffset) <= charOffset
      ensures Live(x) && Left(x, e, Now(), c, obj) && e != ToRedo
    {
      hide Reading, Used, Leaving, Measure;
      c, obj := c0, obj0;
      e := ToRedo;
      while e == ToRedo
        invariant old(charOffset) <= charOffset
        invariant Live(x) && Left(x, e, Now(), c, obj)
        decreases e == ToRedo, Measure(x, Now(), c, obj)
      {
        e, c, obj := Switch(chunk, c, obj, x);
      }
    }

    // The loop over the chunk
    method Loop(chunk: Text, ghost x: Call) returns (c: char, ghost obj: Value)
      requires Live(x) && x.chunk == chunk && charOffset == 0 && Unread(x, Now(), JNull)
      modifies this, stack
      ensures Live(x) && Leaving(x, Now(), c, obj)
    {
      hide Unread, Leaving, Used, PeekError, Reading, Measure, SnapOk, TokOf, Settled;
      c, obj := 1 as char, JNull;
      var it := JNull;
      while charOffset != |chunk|
        invariant Live(x) && c != '\0' && obj == it && charOffset <= |chunk|
        invariant Unread(x, Now(), it)
        decreases |chunk| - charOffset
      {
        UnreadMeets(x, Now(), c, it);
        c := chunk[charOffset];
        var e: Exit;
        e, c, it := Passes(chunk, c, it, x);
        obj := it;
        if e == ToOut {
          return;
        }
        UsedMeets(x, Now(), c, it);
        charOffset := charOffset + 1;
        if c == '\0' {
          return;
        }
      }
      UnreadMeets(x, Now(), c, it);
      PeekIs();
      err := if depth == 0 && stack[depth].state == SEatWs && stack[depth].saved == SFinish then Success else Continue;
    }

    lemma PeekIs()
      requires depth < stack.Length
      ensures PeekError(Now()) ==
              if depth == 0 && stack[depth].state == SEatWs && stack[depth].saved == SFinish then Success else Continue
    {
    }

    // json_tokener_reset_level for all levels from the current one down
    method ResetLevels()
      requires depth < stack.Length
      modifies stack
      ensures stack[..depth] == Cleared(depth) && stack[depth] == CLEARED
    {
      var ii := depth + 1;
      while ii > 0
        invariant 0 <= ii <= depth + 1
        invariant forall i | ii <= i <= depth :: stack[i] == CLEARED
      {
        ii := ii - 1;
        stack[ii] := CLEARED;
      }
    }

    // The label out
    method Finish(c: char, ghost obj: Value, ghost x: Call) returns (ret: Value)
      requires Live(x) && Leaving(x, Now(), c, obj)
      modifies this, stack
      ensures Live(x) && SnapOk(env, Now()) && Settled(stack[depth])
      ensures ret == x.goal.value && err == x.goal.err && charOffset == x.goal.used && TokOf(Now(), JNull) == x.goal.tok
    {
      hide StackOf, RecordOk, LowerAllOk, StateOf;
      ghost var s := Now();
      OutIs(x, s, c, obj);
      SameFields(s, StateOf(s.top, JNull));
      ClearedIsOk();
      hide Leaving;
      if c != '\0' && stack[depth].state == SFinish && depth == 0 && env.strict {
        err := UnexpectedChar;
      }
      if c == '\0' {
        if stack[depth].state != SFinish && stack[depth].saved != SFinish {
          err := UnexpectedEof;
        }
      }
      assert Now() == s.(err := FinalError(env, s, c));
      if err == Success {
        ret := stack[depth].current;
        ResetLevels();
        assert Now() == s.(lower := Cleared(|s.lower|), top := CLEARED, err := Success);
        SameFields(s.(lower := Cleared(|s.lower|), top := CLEARED), EatWs(Start));
        return ret;
      }
      return JNull;
    }

    // json_tokener_parse_ex.  A length of -1 means up to the terminator.
    method ParseEx(str: Text, len: int) returns (ret: Value)
      requires Valid() && (len >= 0 ==> len <= |str|) && (len == -1 ==> '\0' in str)
      modifies this, stack
      ensures Valid()
      ensures TooLong(str, len) ==> ret == JNull && Now() == old(Now()).(off := 0, err := BadSize)
      ensures !TooLong(str, len) ==>
                var o := Run(env, old(Abs()), ChunkOf(str, len));
                ret == o.value && err == o.err && charOffset == o.used && Abs() == o.tok
    {
      hide Run, TokIn, RecordOk, StateOf, Leaving;
      charOffset := 0;
      err := Success;
      if TooLong(str, len) {
        err := BadSize;
        return JNull;
      }
      var chunk := ChunkOf(str, len);
      ghost var x := Call(env, chunk, Run(env, old(Abs()), chunk));
      Starts(x, old(Now()));
      assert Now() == old(Now()).(off := 0, err := Success);
      var c: char;
      ghost var obj: Value;
      c, obj := Loop(chunk, x);
      ret := Finish(c, obj, x);
    }
  }

  const INT32_MAX: int := 0x7FFF_FFFF

  predicate TooLong(str: Text, len: int) {
    len < -1 || (len == -1 && |CString(str)| > INT32_MAX)
  }

  // The characters a call may look at
  function ChunkOf(str: Text, len: int): Text
    requires -1 <= len <= |str|
  {
    if len == -1 then CString(str) + ['\0'] else str[..len]
  }

  lemma Starts(x: Call, s: Snap)
    requires SnapOk(x.env, s) && Settled(s.top) && x.goal == Run(x.env, TokOf(s, JNull), x.chunk)
    ensures Unread(x, s.(off := 0, err := Success), JNull)
  {
    hide Run;
    SameFields(s, StateOf(s.top, JNull));
    assert x.chunk[0..] == x.chunk;
  }

  // json_tokener_parse_verbose: a new tokener, the whole text, and no value unless it succeeds
  method ParseVerbose(str: Text, scansAsDouble: Text -> bool) returns (v: Value, error: Error)
    requires '\0' in str
    ensures |CString(str)| > 2147483647 ==> error == BadSize && v == JNull
    ensures |CString(str)| <= 2147483647 ==>
              var d := ReadDocument(Env(false, 32, scansAsDouble), CString(str) + ['\0'], true);
              error == d.err && v == if d.err == Success then d.value else JNull
  {
    hide Run, ReadDocument;
    var tok := new JsonTokener(Env(false, DEFAULT_DEPTH, scansAsDouble));
    v := tok.ParseEx(str, -1);
    error := tok.err;
    if error != Success {
      v := JNull;
    }
    RunIsRead(Env(false, DEFAULT_DEPTH, scansAsDouble), NEW, CString(str) + ['\0']);
  }

  // JSON_TOKENER_DEFAULT_DEPTH
  const DEFAULT_DEPTH := 32
}
