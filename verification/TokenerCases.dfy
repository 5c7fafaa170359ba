// One case of json_tokener_parse_ex's switch after the other: the machine's step, told in terms of
// the tokener's fields.

module TokenerCases {
  import opened Options
  import opened Chars
  import opened OrderedMap
  import opened JsonValue
  import opened Numbers
  import opened Unicode
  import opened Tokener
  import opened TokenerRun
  import opened TokenerRecords

  // goto redo_char, and fewer passes to go
  ghost predicate Redone(x: Call, s: Snap, obj: Value, s': Snap, obj': Value, c: char) {
    && Reading(x, s, c, obj) && Reading(x, s', c, obj')
    && Measure(x, s', c, obj') < Measure(x, s, c, obj)
  }

  function In(r: Srec, state: StateName): Srec {
    r.(state := state)
  }

  // state = json_tokener_state_eatws; saved_state = saved
  function Awaits(r: Srec, saved: StateName): Srec {
    r.(state := SEatWs, saved := saved)
  }

  function Done(r: Srec, v: Value): Srec {
    Awaits(r, SFinish).(current := v)
  }

  lemma SpaceUsed(x: Call, s: Snap, c: char, obj: Value)
    requires Reading(x, s, c, obj) && s.top.state == SEatWs && IsSpace(c)
    ensures Used(x, s, c, obj)
  {
    hide StackOf, LowerAllOk, PlaceOf, PlaceOk, GoesOn, StepComment, StepAt, StepNull, StepBoolean, StepInfinity,
      StepNumber, StepBody, StepEscape, StepUnicode;
    Eats(x, s, StateOf(s.top, obj), c, s, StateOf(s.top, obj));
  }

  lemma EatWsLeft(x: Call, s: Snap, c: char, obj: Value)
    requires Reading(x, s, c, obj) && s.top.state == SEatWs && !IsSpace(c)
    ensures if c == '/' && !x.env.strict then Used(x, s.(pb := [c], top := In(s.top, SCommentStart)), c, obj)
            else Redone(x, s, obj, s.(top := In(s.top, s.top.saved)), obj, c)
  {
    hide StackOf, LowerAllOk, GoesOn, StepComment, StepAt, StepNull, StepBoolean, StepInfinity, StepNumber, StepBody,
      StepEscape, StepUnicode;
    var k := StateOf(s.top, obj);
    if c == '/' && !x.env.strict {
      hide PlaceOk, PlaceOf;
      var s' := s.(pb := [c], top := In(s.top, SCommentStart));
      Eats(x, s, k, c, s', StateOf(s'.top, obj));
    } else {
      var s' := s.(top := In(s.top, s.top.saved));
      assert RecordOk(s'.top);
      Redoes(x, s, k, c, s', StateOf(s'.top, obj));
    }
  }

  lemma SamePlace(r: Srec, state: StateName)
    ensures PlaceOk(r.saved, In(r, state)) == PlaceOk(r.saved, r)
    ensures PlaceOk(r.saved, r) ==> PlaceOf(r.saved, In(r, state)) == PlaceOf(r.saved, r)
  {
  }

  // The comment states: what becomes of the state and whether c joins the buffer
  function CommentNext(state: StateName, c: char): Option<StateName> {
    match state
    case SCommentStart => if c == '*' then Some(SComment) else if c == '/' then Some(SCommentEol) else None
    case SComment => Some(if c == '*' then SCommentEnd else SComment)
    case SCommentEol => Some(if c == '\n' then SEatWs else SCommentEol)
    case _ => Some(if c == '/' then SEatWs else SComment)
  }

  lemma CommentStays(r: Srec, c: char)
    requires (r.state == SComment && c != '*') || (r.state == SCommentEol && c != '\n')
    ensures CommentNext(r.state, c) == Some(r.state) && In(r, r.state) == r
  {
  }

  lemma CommentLeft(x: Call, s: Snap, c: char, obj: Value)
    requires Reading(x, s, c, obj) && IsComment(s.top.state)
    ensures var next := CommentNext(s.top.state, c);
            if next.None? then Leaving(x, s.(err := BadComment), c, obj)
            else
              Used(x, s.(top := In(s.top, next.value),
                         pb := if s.top.state == SCommentEol && c == '\n' then s.pb else s.pb + [c]), c, obj)
  {
    hide StackOf, LowerAllOk, PlaceOf, GoesOn, Leaving, StepEatWs, StepAt, StepNull, StepBoolean, StepInfinity,
      StepNumber, StepBody, StepEscape, StepUnicode;
    var k := StateOf(s.top, obj);
    var next := CommentNext(s.top.state, c);
    if next.None? {
      Stops(x, s, k, c, s.(err := BadComment), obj, TokIn(s, k));
    } else {
      SamePlace(s.top, next.value);
      var s' := s.(top := In(s.top, next.value),
                   pb := if s.top.state == SCommentEol && c == '\n' then s.pb else s.pb + [c]);
      Eats(x, s, k, c, s', StateOf(s'.top, obj));
    }
  }

  // json_tokener_state_start
  lemma BracketUsed(x: Call, s: Snap, c: char, obj: Value)
    requires Reading(x, s, c, obj) && s.top.state == SStart && (c == '{' || c == '[')
    ensures var top := if c == '{' then Awaits(s.top, SObjectFieldStart).(current := JObject([]))
                       else Awaits(s.top, SArray).(current := JArray([]));
            Used(x, s.(top := top), c, obj)
  {
    hide StackOf, LowerAllOk, GoesOn, StepEatWs, StepComment, StepNull, StepBoolean, StepInfinity, StepNumber,
      StepBody, StepEscape, StepUnicode, StepFinish, StepElement, StepArraySep, StepFieldStart, StepFieldEnd,
      StepObjectValue, StepObjectSep;
    var s' := s.(top := if c == '{' then Awaits(s.top, SObjectFieldStart).(current := JObject([]))
                        else Awaits(s.top, SArray).(current := JArray([])));
    Eats(x, s, At(Start), c, s', StateOf(s'.top, obj));
  }

  lemma QuoteUsed(x: Call, s: Snap, c: char, obj: Value)
    requires Reading(x, s, c, obj) && s.top.state == SStart && (c == '"' || (c == '\'' && !x.env.strict))
    ensures Used(x, s.(pb := "", quote := c, top := In(s.top, SString)), c, obj)
  {
    hide StackOf, LowerAllOk, GoesOn, StepEatWs, StepComment, StepNull, StepBoolean, StepInfinity, StepNumber,
      StepBody, StepEscape, StepUnicode, StepFinish, StepElement, StepArraySep, StepFieldStart, StepFieldEnd,
      StepObjectValue, StepObjectSep;
    Eats(x, s, At(Start), c, s.(pb := "", quote := c, top := In(s.top, SString)), Body(AsValue));
  }

  // The state for the first letter of a keyword
  function KeywordState(c: char): Option<StateName> {
    if c == 'I' || c == 'i' then Some(SInf)
    else if c == 'N' || c == 'n' then Some(SNull)
    else if c == 'T' || c == 't' || c == 'F' || c == 'f' then Some(SBoolean)
    else None
  }

  lemma KeywordRedone(x: Call, s: Snap, c: char, obj: Value)
    requires Reading(x, s, c, obj) && s.top.state == SStart && KeywordState(c).Some?
    ensures Redone(x, s, obj, s.(pb := "", stPos := 0, top := In(s.top, KeywordState(c).value)), obj, c)
  {
    hide StackOf, LowerAllOk, GoesOn, StepEatWs, StepComment, StepNull, StepBoolean, StepInfinity, StepNumber,
      StepBody, StepEscape, StepUnicode, StepFinish, StepElement, StepArraySep, StepFieldStart, StepFieldEnd,
      StepObjectValue, StepObjectSep;
    var s' := s.(pb := "", stPos := 0, top := In(s.top, KeywordState(c).value));
    Redoes(x, s, StateOf(s.top, obj), c, s', StateOf(s'.top, obj));
  }

  lemma NumberStarts(x: Call, s: Snap, c: char, obj: Value)
    requires Reading(x, s, c, obj) && s.top.state == SStart && (IsDigit(c) || c == '-')
    ensures Redone(x, s, obj, s.(pb := "", isDouble := false, top := In(s.top, SNumber)), obj, c)
  {
    hide StackOf, LowerAllOk, GoesOn, StepEatWs, StepComment, StepNull, StepBoolean, StepInfinity, StepNumber,
      StepBody, StepEscape, StepUnicode, StepFinish, StepElement, StepArraySep, StepFieldStart, StepFieldEnd,
      StepObjectValue, StepObjectSep;
    var s' := s.(pb := "", isDouble := false, top := In(s.top, SNumber));
    Redoes(x, s, StateOf(s.top, obj), c, s', Number(0));
  }

  lemma StartStopped(x: Call, s: Snap, c: char, obj: Value)
    requires Reading(x, s, c, obj) && s.top.state == SStart
    requires c != '{' && c != '[' && c != '"' && (c == '\'' ==> x.env.strict)
    requires KeywordState(c).None? && !IsDigit(c) && c != '-'
    ensures Leaving(x, s.(err := UnexpectedChar), c, obj)
  {
    hide StackOf, LowerAllOk, GoesOn, StepEatWs, StepComment, StepNull, StepBoolean, StepInfinity, StepNumber,
      StepBody, StepEscape, StepUnicode, StepFinish, StepElement, StepArraySep, StepFieldStart, StepFieldEnd,
      StepObjectValue, StepObjectSep;
    Stops(x, s, StateOf(s.top, obj), c, s.(err := UnexpectedChar), obj, TokOf(s, obj));
  }

  // json_tokener_state_finish
  lemma FinishLeft(x: Call, s: Snap, c: char, obj: Value)
    requires Reading(x, s, c, obj) && s.top.state == SFinish
    ensures if s.lower == [] then Leaving(x, s, c, obj)
            else
              var n := |s.lower| - 1;
              Redone(x, s, obj, s.(lower := s.lower[..n], top := s.lower[n]), s.top.current, c)
  {
    hide GoesOn, StepEatWs, StepComment, StepNull, StepBoolean, StepInfinity, StepNumber, StepBody, StepEscape,
      StepUnicode, StepStart, StepElement, StepArraySep, StepFieldStart, StepFieldEnd, StepObjectValue, StepObjectSep;
    if s.lower == [] {
      Stops(x, s, StateOf(s.top, obj), c, s, obj, TokOf(s, obj));
    } else {
      var n := |s.lower| - 1;
      var s' := s.(lower := s.lower[..n], top := s.lower[n]);
      assert LowerOk(s.lower[n]);
      Redoes(x, s, StateOf(s.top, obj), c, s', StateOf(s'.top, s.top.current));
    }
  }

  // A new level
  lemma Pushed(rs: seq<Srec>, r: Srec)
    requires LowerAllOk(rs) && LowerOk(r)
    ensures LowerAllOk(rs + [r])
    ensures r.state == SArrayAdd ==> StackOf(rs + [r]) == ArrayLevel(r.current.elements, StackOf(rs))
    ensures r.state == SObjectValueAdd ==>
              StackOf(rs + [r]) == ObjectLevel(r.current.members, r.fieldName.value, StackOf(rs))
  {
    hide LowerOk, RecordOk;
    assert (rs + [r])[..|rs|] == rs;
  }

  // Arrays
  lemma ArrayLeft(x: Call, s: Snap, c: char, obj: Value)
    requires Reading(x, s, c, obj) && (s.top.state == SArray || s.top.state == SArrayAfterSep)
    ensures if c == ']' then
              if s.top.state == SArrayAfterSep && x.env.strict then Leaving(x, s.(err := UnexpectedChar), c, obj)
              else Used(x, s.(top := Awaits(s.top, SFinish)), c, obj)
            else if |s.lower| >= x.env.maxDepth - 1 then Leaving(x, s.(err := TooDeep), c, obj)
            else Redone(x, s, obj, s.(lower := s.lower + [In(s.top, SArrayAdd)], top := CLEARED), obj, c)
  {
    hide GoesOn, StackOf, LowerAllOk, Leaving, StepEatWs, StepComment, StepNull, StepBoolean, StepInfinity,
      StepNumber, StepBody, StepEscape, StepUnicode, StepStart, StepFinish, StepArraySep, StepFieldStart,
      StepFieldEnd, StepObjectValue, StepObjectSep;
    var k := StateOf(s.top, obj);
    if c == ']' {
      if s.top.state == SArrayAfterSep && x.env.strict {
        Stops(x, s, k, c, s.(err := UnexpectedChar), obj, TokOf(s, obj));
      } else {
        var s' := s.(top := Awaits(s.top, SFinish));
        Eats(x, s, k, c, s', StateOf(s'.top, obj));
      }
    } else {
      StackDepth(s.lower);
      if |s.lower| >= x.env.maxDepth - 1 {
        Stops(x, s, k, c, s.(err := TooDeep), obj, TokOf(s, obj));
      } else {
        InnerArray(x, s, c, obj);
      }
    }
  }

  lemma InnerArray(x: Call, s: Snap, c: char, obj: Value)
    requires Reading(x, s, c, obj) && (s.top.state == SArray || s.top.state == SArrayAfterSep)
    requires c != ']' && |s.lower| < x.env.maxDepth - 1
    ensures Redone(x, s, obj, s.(lower := s.lower + [In(s.top, SArrayAdd)], top := CLEARED), obj, c)
  {
    hide GoesOn, StackOf, LowerAllOk, StepEatWs, StepComment, StepNull, StepBoolean, StepInfinity, StepNumber,
      StepBody, StepEscape, StepUnicode, StepStart, StepFinish, StepArraySep, StepFieldStart, StepFieldEnd,
      StepObjectValue, StepObjectSep;
    StackDepth(s.lower);
    Pushed(s.lower, In(s.top, SArrayAdd));
    var s' := s.(lower := s.lower + [In(s.top, SArrayAdd)], top := CLEARED);
    Redoes(x, s, StateOf(s.top, obj), c, s', EatWs(Start));
  }

  lemma ArrayAddLeft(x: Call, s: Snap, c: char, obj: Value)
    requires Reading(x, s, c, obj) && s.top.state == SArrayAdd
    ensures Redone(x, s, obj, s.(top := Awaits(s.top, SArraySep).(current := JArray(s.top.current.elements + [obj]))),
                   obj, c)
  {
    hide StackOf, LowerAllOk, GoesOn, StepEatWs, StepComment, StepAt, StepNull, StepBoolean, StepInfinity,
      StepNumber, StepBody, StepEscape, StepUnicode;
    var s' := s.(top := Awaits(s.top, SArraySep).(current := JArray(s.top.current.elements + [obj])));
    Redoes(x, s, StateOf(s.top, obj), c, s', StateOf(s'.top, obj));
  }

  lemma ArraySepLeft(x: Call, s: Snap, c: char, obj: Value)
    requires Reading(x, s, c, obj) && s.top.state == SArraySep
    ensures if c == ']' then Used(x, s.(top := Awaits(s.top, SFinish)), c, obj)
            else if c == ',' then Used(x, s.(top := Awaits(s.top, SArrayAfterSep)), c, obj)
            else Leaving(x, s.(err := BadArray), c, obj)
  {
    hide StackOf, LowerAllOk, GoesOn, StepEatWs, StepComment, StepNull, StepBoolean, StepInfinity, StepNumber,
      StepBody, StepEscape, StepUnicode, StepStart, StepFinish, StepElement, StepFieldStart, StepFieldEnd,
      StepObjectValue, StepObjectSep;
    var k := StateOf(s.top, obj);
    if c == ']' || c == ',' {
      var s' := s.(top := Awaits(s.top, if c == ']' then SFinish else SArrayAfterSep));
      Eats(x, s, k, c, s', StateOf(s'.top, obj));
    } else {
      Stops(x, s, k, c, s.(err := BadArray), obj, TokOf(s, obj));
    }
  }

  // Objects
  lemma FieldStartLeft(x: Call, s: Snap, c: char, obj: Value)
    requires Reading(x, s, c, obj) && (s.top.state == SObjectFieldStart || s.top.state == SObjectFieldStartAfterSep)
    ensures if c == '}' then
              if s.top.state == SObjectFieldStartAfterSep && x.env.strict then
                Leaving(x, s.(err := UnexpectedChar), c, obj)
              else Used(x, s.(top := Awaits(s.top, SFinish)), c, obj)
            else if c == '"' || c == '\'' then Used(x, s.(quote := c, pb := "", top := In(s.top, SObjectField)), c, obj)
            else Leaving(x, s.(err := BadKeyName), c, obj)
  {
    hide StackOf, LowerAllOk, GoesOn, Leaving, Used, StepEatWs, StepComment, StepNull, StepBoolean, StepInfinity,
      StepNumber, StepBody, StepEscape, StepUnicode, StepStart, StepFinish, StepElement, StepArraySep, StepFieldEnd,
      StepObjectValue, StepObjectSep;
    var k := StateOf(s.top, obj);
    if c == '}' && s.top.state == SObjectFieldStartAfterSep && x.env.strict {
      Stops(x, s, k, c, s.(err := UnexpectedChar), obj, TokOf(s, obj));
    } else if c == '}' || c == '"' || c == '\'' {
      FieldStartUsed(x, s, c, obj);
    } else {
      Stops(x, s, k, c, s.(err := BadKeyName), obj, TokOf(s, obj));
    }
  }

  lemma FieldStartUsed(x: Call, s: Snap, c: char, obj: Value)
    requires Reading(x, s, c, obj) && (s.top.state == SObjectFieldStart || s.top.state == SObjectFieldStartAfterSep)
    requires if c == '}' then s.top.state == SObjectFieldStartAfterSep ==> !x.env.strict else c == '"' || c == '\''
    ensures Used(x, if c == '}' then s.(top := Awaits(s.top, SFinish))
                    else s.(quote := c, pb := "", top := In(s.top, SObjectField)), c, obj)
  {
    hide StackOf, LowerAllOk, GoesOn, StepEatWs, StepComment, StepNull, StepBoolean, StepInfinity, StepNumber,
      StepBody, StepEscape, StepUnicode, StepStart, StepFinish, StepElement, StepArraySep, StepFieldEnd,
      StepObjectValue, StepObjectSep;
    var s' :=
      if c == '}' then s.(top := Awaits(s.top, SFinish)) else s.(quote := c, pb := "", top := In(s.top, SObjectField));
    Eats(x, s, StateOf(s.top, obj), c, s', StateOf(s'.top, obj));
  }

  lemma FieldEndLeft(x: Call, s: Snap, c: char, obj: Value)
    requires Reading(x, s, c, obj) && s.top.state == SObjectFieldEnd
    ensures if c == ':' then Used(x, s.(top := Awaits(s.top, SObjectValue)), c, obj)
            else Leaving(x, s.(err := BadKeySeparator), c, obj)
  {
    hide StackOf, LowerAllOk, GoesOn, StepEatWs, StepComment, StepNull, StepBoolean, StepInfinity, StepNumber,
      StepBody, StepEscape, StepUnicode, StepStart, StepFinish, StepElement, StepArraySep, StepFieldStart,
      StepObjectValue, StepObjectSep;
    var k := StateOf(s.top, obj);
    if c == ':' {
      var s' := s.(top := Awaits(s.top, SObjectValue));
      Eats(x, s, k, c, s', StateOf(s'.top, obj));
    } else {
      Stops(x, s, k, c, s.(err := BadKeySeparator), obj, TokOf(s, obj));
    }
  }

  lemma ObjectValueLeft(x: Call, s: Snap, c: char, obj: Value)
    requires Reading(x, s, c, obj) && s.top.state == SObjectValue
    ensures if |s.lower| >= x.env.maxDepth - 1 then Leaving(x, s.(err := TooDeep), c, obj)
            else Redone(x, s, obj, s.(lower := s.lower + [In(s.top, SObjectValueAdd)], top := CLEARED), obj, c)
  {
    hide GoesOn, StackOf, LowerAllOk, StepEatWs, StepComment, StepNull, StepBoolean, StepInfinity, StepNumber,
      StepBody, StepEscape, StepUnicode, StepStart, StepFinish, StepElement, StepArraySep, StepFieldStart,
      StepFieldEnd, StepObjectSep;
    StackDepth(s.lower);
    if |s.lower| >= x.env.maxDepth - 1 {
      Stops(x, s, StateOf(s.top, obj), c, s.(err := TooDeep), obj, TokOf(s, obj));
    } else {
      hide Leaving;
      Pushed(s.lower, In(s.top, SObjectValueAdd));
      var s' := s.(lower := s.lower + [In(s.top, SObjectValueAdd)], top := CLEARED);
      Redoes(x, s, StateOf(s.top, obj), c, s', EatWs(Start));
    }
  }

  lemma ObjectValueAddLeft(x: Call, s: Snap, c: char, obj: Value)
    requires Reading(x, s, c, obj) && s.top.state == SObjectValueAdd
    ensures Redone(x, s, obj,
              s.(top := Awaits(s.top, SObjectSep).(
                   current := JObject(Put(s.top.current.members, s.top.fieldName.value, obj)), fieldName := None)),
                     obj, c)
  {
    hide StackOf, LowerAllOk, GoesOn, Put, StepEatWs, StepComment, StepAt, StepNull, StepBoolean, StepInfinity,
      StepNumber, StepBody, StepEscape, StepUnicode;
    var s' := s.(top := Awaits(s.top, SObjectSep).(
                   current := JObject(Put(s.top.current.members, s.top.fieldName.value, obj)), fieldName := None));
    Redoes(x, s, StateOf(s.top, obj), c, s', StateOf(s'.top, obj));
  }

  lemma ObjectSepLeft(x: Call, s: Snap, c: char, obj: Value)
    requires Reading(x, s, c, obj) && s.top.state == SObjectSep
    ensures if c == '}' then Used(x, s.(top := Awaits(s.top, SFinish)), c, obj)
            else if c == ',' then Used(x, s.(top := Awaits(s.top, SObjectFieldStartAfterSep)), c, obj)
            else Leaving(x, s.(err := BadValueSeparator), c, obj)
  {
    hide StackOf, LowerAllOk, GoesOn, StepEatWs, StepComment, StepNull, StepBoolean, StepInfinity, StepNumber,
      StepBody, StepEscape, StepUnicode, StepStart, StepFinish, StepElement, StepArraySep, StepFieldStart,
      StepFieldEnd, StepObjectValue;
    var k := StateOf(s.top, obj);
    if c == '}' || c == ',' {
      var s' := s.(top := Awaits(s.top, if c == '}' then SFinish else SObjectFieldStartAfterSep));
      Eats(x, s, k, c, s', StateOf(s'.top, obj));
    } else {
      Stops(x, s, k, c, s.(err := BadValueSeparator), obj, TokOf(s, obj));
    }
  }

  // Quoted texts: a value, or a key, which strdup cuts at a NUL
  function Closed(r: Srec, s: Text): Srec {
    if r.state == SString then Done(r, JString(s)) else Awaits(r, SObjectFieldEnd).(fieldName := Some(CString(s)))
  }

  lemma BodyLeft(x: Call, s: Snap, c: char, obj: Value)
    requires Reading(x, s, c, obj) && (s.top.state == SString || s.top.state == SObjectField)
    ensures if c == s.quote then Used(x, s.(top := Closed(s.top, s.pb)), c, obj)
            else if c == '\\' then Used(x, s.(top := s.top.(saved := s.top.state, state := SStringEscape)), c, obj)
            else Used(x, s.(pb := s.pb + [c]), c, obj)
  {
    hide StackOf, LowerAllOk, GoesOn, CString, StepEatWs, StepComment, StepAt, StepNull, StepBoolean, StepInfinity,
      StepNumber, StepEscape, StepUnicode;
    var s' :=
      if c == s.quote then s.(top := Closed(s.top, s.pb))
      else if c == '\\' then s.(top := s.top.(saved := s.top.state, state := SStringEscape))
      else s.(pb := s.pb + [c]);
    Eats(x, s, StateOf(s.top, obj), c, s', StateOf(s'.top, obj));
  }

  lemma EscapeLeft(x: Call, s: Snap, c: char, obj: Value)
    requires Reading(x, s, c, obj) && s.top.state == SStringEscape
    ensures if Unescape(c).Some? then
              Used(x, s.(pb := s.pb + [Unescape(c).value], top := In(s.top, s.top.saved)), c, obj)
            else if c == 'u' then Used(x, s.(ucs := 0, stPos := 0, top := In(s.top, SEscapeUnicode)), c, obj)
            else Leaving(x, s.(err := BadString), c, obj)
  {
    hide StackOf, LowerAllOk, GoesOn, Unescape, StepEatWs, StepComment, StepAt, StepNull, StepBoolean, StepInfinity,
      StepNumber, StepBody, StepUnicode;
    var k := StateOf(s.top, obj);
    if Unescape(c).Some? || c == 'u' {
      var s' :=
        if Unescape(c).Some? then s.(pb := s.pb + [Unescape(c).value], top := In(s.top, s.top.saved))
        else s.(ucs := 0, stPos := 0, top := In(s.top, SEscapeUnicode));
      Eats(x, s, k, c, s', StateOf(s'.top, obj));
    } else {
      Stops(x, s, k, c, s.(err := BadString), obj, TokOf(s, obj));
    }
  }

  // Keywords
  // In a keyword state that tries word0 and word1
  ghost predicate InWord(x: Call, s: Snap, c: char, obj: Value, buf: Text,
                         word0: Text, v0: Value, word1: Text, v1: Value, err: Error) {
    && Reading(x, s, c, obj) && s.top.state in {SNull, SBoolean, SInf} && err != Success
    && Step(x.env, TokOf(s, obj), x.chunk[s.off..]) ==
       StepWord(x.env, Append(TokOf(s, obj), [c]), buf, word0, v0, word1, v1, err)
  }

  lemma WordLeft(x: Call, s: Snap, c: char, obj: Value, buf: Text, word0: Text, v0: Value, word1: Text, v1: Value,
                 err: Error)
    requires InWord(x, s, c, obj, buf, word0, v0, word1, v1, err)
    ensures var s1 := s.(pb := s.pb + [c]);
            var m := MoveInWord(x.env.strict, buf, s.stPos, word0, word1);
            && (m.First? ==> Redone(x, s, obj, s1.(top := Done(s.top, v0)), obj, c))
            && (m.Second? ==> Redone(x, s, obj, s1.(top := Done(s.top, v1)), obj, c))
            && (m.More? ==> Used(x, s1.(stPos := s.stPos + 1), c, obj))
            && (m.Wrong? ==> Leaving(x, s1.(err := err), c, obj))
  {
    hide StackOf, LowerAllOk, GoesOn, Step, MoveInWord;
    hide Redone, Leaving, Used;
    match MoveInWord(x.env.strict, buf, s.stPos, word0, word1)
    case First => WordDone(x, s, c, obj, v0);
    case Second => WordDone(x, s, c, obj, v1);
    case More => WordGoesOn(x, s, c, obj);
    case Wrong => WordFails(x, s, c, obj, err);
  }

  lemma WordGoesOn(x: Call, s: Snap, c: char, obj: Value)
    requires Reading(x, s, c, obj) && s.top.state in {SNull, SBoolean, SInf}
    requires var k := Append(TokOf(s, obj), [c]);
             Step(x.env, TokOf(s, obj), x.chunk[s.off..]) == Eat(k.(stPos := k.stPos + 1), 1)
    ensures Used(x, s.(pb := s.pb + [c], stPos := s.stPos + 1), c, obj)
  {
    hide StackOf, LowerAllOk, GoesOn, Step;
    Eats(x, s, StateOf(s.top, obj), c, s.(pb := s.pb + [c], stPos := s.stPos + 1), StateOf(s.top, obj));
  }

  lemma WordFails(x: Call, s: Snap, c: char, obj: Value, err: Error)
    requires Reading(x, s, c, obj) && s.top.state in {SNull, SBoolean, SInf} && err != Success
    requires Step(x.env, TokOf(s, obj), x.chunk[s.off..]) == Stop(Append(TokOf(s, obj), [c]), err)
    ensures Leaving(x, s.(pb := s.pb + [c], err := err), c, obj)
  {
    hide StackOf, LowerAllOk, GoesOn, Step;
    var s1 := s.(pb := s.pb + [c], err := err);
    Stops(x, s, StateOf(s.top, obj), c, s1, obj, TokOf(s1, obj));
  }

  lemma WordDone(x: Call, s: Snap, c: char, obj: Value, v: Value)
    requires Reading(x, s, c, obj) && s.top.state in {SNull, SBoolean, SInf}
    requires Step(x.env, TokOf(s, obj), x.chunk[s.off..]) == Redo(Yield(Append(TokOf(s, obj), [c]), v))
    ensures Redone(x, s, obj, s.(pb := s.pb + [c], top := Done(s.top, v)), obj, c)
  {
    hide StackOf, LowerAllOk, GoesOn, Step;
    Redoes(x, s, StateOf(s.top, obj), c, s.(pb := s.pb + [c], top := Done(s.top, v)), EatWs(Finish(v)));
  }

  // In a number of which this call has read n characters
  ghost predicate InNumber(x: Call, s: Snap, n: nat, c: char) {
    s.top.state == SNumber && RecordOk(s.top) && ReadingIn(x, s, Number(n), c)
  }

  function WithDigit(s: Snap, c: char): Snap {
    s.(pb := s.pb + [c], isDouble := s.isDouble || c == '.' || c == 'e' || c == 'E')
  }

  lemma EntersNumber(x: Call, s: Snap, c: char, obj: Value)
    requires Reading(x, s, c, obj) && s.top.state == SNumber
    ensures InNumber(x, s, 0, c)
  {
  }

  lemma NumberGoesOn(x: Call, s: Snap, n: nat, c: char, obj: Value)
    requires InNumber(x, s, n, c) && IsNumberChar(c) && c != '\0'
    ensures var s' := WithDigit(s, c).(off := s.off + 1);
            if s'.off == |x.chunk| then Leaving(x, s'.(err := Continue), c, obj)
            else s'.off < |x.chunk| && InNumber(x, s', n + 1, x.chunk[s'.off])
  {
    hide StackOf, LowerAllOk, GoesOn, Leaving, UsedIn;
    var s1 := WithDigit(s, c);
    NumberCharUsed(x, s, n, c);
    Advances(x, s1, Number(n + 1), c);
    if s.off + 1 == |x.chunk| {
      NumberCutOff(x, s1.(off := s.off + 1), n + 1, c, obj);
    }
  }

  lemma NumberCharUsed(x: Call, s: Snap, n: nat, c: char)
    requires ReadingIn(x, s, Number(n), c) && IsNumberChar(c)
    ensures UsedIn(x, WithDigit(s, c), Number(n + 1), c)
  {
    hide StackOf, LowerAllOk, RecordOk, GoesOn;
    Eats(x, s, Number(n), c, WithDigit(s, c), Number(n + 1));
  }

  // A chunk that ends in a number
  lemma NumberCutOff(x: Call, s: Snap, n: nat, c: char, obj: Value)
    requires AtEndIn(x, s, Number(n)) && s.top.state == SNumber && RecordOk(s.top) && c != '\0'
    ensures Leaving(x, s.(err := Continue), c, obj)
  {
    hide StackOf, LowerAllOk;
    AnyCharacter(x.env, TokOf(s, obj), Continue, c, 1 as char);
  }

  ghost predicate NumberRedone(x: Call, s: Snap, c: char, obj: Value) {
    Reading(x, s, c, obj) && Rank(TokOf(s, obj), c) < 6
  }

  predicate GoesToInfinity(pb: Text, n: nat, c: char) {
    pb != [] && pb[0] == '-' && n == 1 && (c == 'i' || c == 'I')
  }

  // The value of a complete number, if it is one
  function NumberFound(env: Env, pb: Text, isDouble: bool): Option<Value> {
    if !isDouble then
      match ScanInt64(pb)
      case None => None
      case Some(n) => if n != 0 && pb != [] && pb[0] == '0' && env.strict then None else Some(JInt(n))
    else if env.scansAsDouble(pb) then Some(JDouble(pb))
    else None
  }

  lemma NumberMeasure(x: Call, s: Snap, c0: char, s': Snap, c: char, obj: Value)
    requires Reading(x, s, c0, obj) && s.top.state == SNumber && s.off <= s'.off
    requires s'.off == s.off ==> c == c0 && !IsNumberChar(c)
    ensures NumberRedone(x, s', c, obj) ==> Reading(x, s', c, obj) && Measure(x, s', c, obj) < Measure(x, s, c0, obj)
  {
    hide StackOf, LowerAllOk, IsNumberChar;
  }

  lemma NumberLeft(x: Call, s: Snap, n: nat, c: char, obj: Value)
    requires InNumber(x, s, n, c) && !IsNumberChar(c)
    ensures if GoesToInfinity(s.pb, n, c) then NumberRedone(x, s.(top := In(s.top, SInf)), c, obj)
            else
              var v := NumberFound(x.env, s.pb, s.isDouble);
              if v.None? then Leaving(x, s.(err := BadNumber), c, obj)
              else NumberRedone(x, s.(top := Done(s.top, v.value)), c, obj)
  {
    hide StackOf, LowerAllOk, GoesOn, ScanInt64;
    var v := NumberFound(x.env, s.pb, s.isDouble);
    if GoesToInfinity(s.pb, n, c) || v.Some? {
      var s' := s.(top := if GoesToInfinity(s.pb, n, c) then In(s.top, SInf) else Done(s.top, v.value));
      hide Leaving;
      Redoes(x, s, Number(n), c, s', StateOf(s'.top, obj));
    } else {
      Stops(x, s, Number(n), c, s.(err := BadNumber), obj, TokIn(s, Number(n)));
    }
  }

  // In a \\u escape, with the high surrogate hi pending
  ghost predicate InEscape(x: Call, s: Snap, hi: nat, c: char) {
    && s.top.state == SEscapeUnicode && RecordOk(s.top)
    && ReadingIn(x, s, EscapeUnicode(QuotedOf(s.top.saved, s.top), hi), c)
  }

  lemma EntersEscape(x: Call, s: Snap, c: char, obj: Value)
    requires Reading(x, s, c, obj) && s.top.state == SEscapeUnicode
    ensures InEscape(x, s, 0, c)
  {
  }

  lemma DigitFails(x: Call, s: Snap, hi: nat, c: char, obj: Value)
    requires InEscape(x, s, hi, c)
    ensures !IsHexDigit(c) && c != '\0' ==> Leaving(x, s.(err := BadString), c, obj)
    ensures (IsHexDigit(c) || c == '\0') && s.stPos >= 4 ==> Leaving(x, s.(err := Undefined), c, obj)
  {
    hide StackOf, LowerAllOk, GoesOn, AddHexDigit, IsHexDigit, StepCode;
    var k := EscapeUnicode(QuotedOf(s.top.saved, s.top), hi);
    if !IsHexDigit(c) && c != '\0' {
      Stops(x, s, k, c, s.(err := BadString), obj, TokIn(s, k));
    } else if s.stPos >= 4 {
      Stops(x, s, k, c, s.(err := Undefined), obj, TokIn(s, k));
    }
  }

  // A chunk that ends, at a terminator or not, before a pending high surrogate found its partner
  function Given(hi: nat): Text {
    if hi != 0 then REPLACEMENT else ""
  }

  lemma DigitsMeetNul(x: Call, s: Snap, hi: nat, obj: Value)
    requires s.top.state == SEscapeUnicode && RecordOk(s.top)
    requires UsedIn(x, s, EscapeUnicode(QuotedOf(s.top.saved, s.top), hi), '\0')
    ensures Leaving(x, s.(off := s.off + 1, pb := s.pb + Given(hi)), '\0', obj)
  {
    hide StackOf, LowerAllOk;
    assert s.pb + "" == s.pb;
  }

  lemma DigitsEnd(x: Call, s: Snap, hi: nat, c: char, obj: Value)
    requires s.top.state == SEscapeUnicode && RecordOk(s.top) && c != '\0'
    requires AtEndIn(x, s, EscapeUnicode(QuotedOf(s.top.saved, s.top), hi))
    ensures Leaving(x, s.(err := Continue, pb := s.pb + Given(hi)), c, obj)
  {
    hide Run, StackOf, LowerAllOk, Out;
    assert s.pb + "" == s.pb;
    assert x.chunk[s.off..] == [];
    RunAtEnd(x.env, TokIn(s, EscapeUnicode(QuotedOf(s.top.saved, s.top), hi)));
    AnyCharacter(x.env, TokOf(s.(pb := s.pb + Given(hi)), obj), Continue, c, 1 as char);
  }

  lemma DigitUsed(x: Call, s: Snap, hi: nat, c: char)
    requires InEscape(x, s, hi, c) && (IsHexDigit(c) || c == '\0') && s.stPos < 3
    ensures UsedIn(x, s.(ucs := AddHexDigit(s.ucs, c, s.stPos), stPos := s.stPos + 1),
                   EscapeUnicode(QuotedOf(s.top.saved, s.top), hi), c)
  {
    hide StackOf, LowerAllOk, GoesOn, AddHexDigit, IsHexDigit, StepCode, CodeAt, Joins, StepEatWs, StepComment, StepAt,
      StepNull, StepBoolean, StepInfinity, StepNumber, StepBody, StepEscape;
    var k := EscapeUnicode(QuotedOf(s.top.saved, s.top), hi);
    Eats(x, s, k, c, s.(ucs := AddHexDigit(s.ucs, c, s.stPos), stPos := s.stPos + 1), k);
  }

  // One of the first three digits
  lemma DigitGoesOn(x: Call, s: Snap, hi: nat, c: char, obj: Value)
    requires InEscape(x, s, hi, c) && (IsHexDigit(c) || c == '\0') && s.stPos < 3
    ensures var s' := s.(ucs := AddHexDigit(s.ucs, c, s.stPos), stPos := s.stPos + 1, off := s.off + 1);
            if c == '\0' then Leaving(x, s'.(pb := s.pb + Given(hi)), c, obj)
            else if s'.off == |x.chunk| then Leaving(x, s'.(err := Continue, pb := s.pb + Given(hi)), c, obj)
            else s'.off < |x.chunk| && InEscape(x, s', hi, x.chunk[s'.off])
  {
    hide Step, Run, UsedIn, StackOf, LowerAllOk, GoesOn, AddHexDigit, IsHexDigit, Leaving, Given;
    var k := EscapeUnicode(QuotedOf(s.top.saved, s.top), hi);
    var s1 := s.(ucs := AddHexDigit(s.ucs, c, s.stPos), stPos := s.stPos + 1);
    DigitUsed(x, s, hi, c);
    if c == '\0' {
      DigitsMeetNul(x, s1, hi, obj);
    } else {
      Advances(x, s1, k, c);
      if s.off + 1 == |x.chunk| {
        DigitsEnd(x, s1.(off := s.off + 1), hi, c, obj);
      }
    }
  }

  // The code and the buffer once the fourth digit c is in
  function Complete(s: Snap, hi: nat, c: char): Snap
    requires s.stPos == 3
  {
    var uc := AddHexDigit(s.ucs, c, 3);
    if hi != 0 && IsLowSurrogate(uc) then s.(ucs := DecodePair(hi, uc), stPos := 4)
    else s.(ucs := uc, stPos := 4, pb := s.pb + if hi != 0 then REPLACEMENT else "")
  }

  // "\u" stands behind the character at off, inside the chunk.
  predicate EscapeAhead(chunk: Text, off: nat) {
    off + 1 != |chunk| && off + 2 != |chunk| && off + 2 < |chunk| && chunk[off + 1] == '\\' && chunk[off + 2] == 'u'
  }

  function CodeBytes(u: nat): Text {
    if u >= 0x800 && (IsHighSurrogate(u) || IsLowSurrogate(u)) then REPLACEMENT else Utf8(u)
  }

  lemma FourthDigit(x: Call, s: Snap, q: Quoted, hi: nat, c: char)
    requires ReadingIn(x, s, EscapeUnicode(q, hi), c) && (IsHexDigit(c) || c == '\0') && s.stPos == 3
    ensures var s1 := Complete(s, hi, c);
            Step(x.env, TokIn(s, EscapeUnicode(q, hi)), x.chunk[s.off..]) ==
            StepCode(TokIn(s1, EscapeUnicode(q, 0)), x.chunk[s.off..], q, s1.ucs)
  {
    hide StackOf, LowerAllOk, GoesOn, AddHexDigit, IsHexDigit, StepCode, DecodePair, IsLowSurrogate, RecordOk;
    assert s.pb + "" == s.pb;
  }

  lemma CodeLeft(x: Call, s: Snap, hi: nat, c: char, obj: Value)
    requires InEscape(x, s, hi, c) && s.stPos == 3 && (IsHexDigit(c) || c == '\0')
    requires var s1 := Complete(s, hi, c);
             !(s1.ucs >= 0x800 && IsHighSurrogate(s1.ucs) && EscapeAhead(x.chunk, s.off))
    ensures var s1 := Complete(s, hi, c);
            Used(x, s1.(pb := s1.pb + CodeBytes(s1.ucs), top := In(s.top, s.top.saved)), c, obj)
  {
    hide StackOf, LowerAllOk, GoesOn, AddHexDigit, Utf8, IsHighSurrogate, IsLowSurrogate, Step, Complete, IsHexDigit;
    var q := QuotedOf(s.top.saved, s.top);
    FourthDigit(x, s, q, hi, c);
    CompleteKeeps(s, hi, c);
    var s1 := Complete(s, hi, c);
    var s2 := s1.(pb := s1.pb + CodeBytes(s1.ucs), top := In(s.top, s.top.saved));
    Eats(x, s, EscapeUnicode(q, hi), c, s2, Body(q));
  }

  lemma CompleteKeeps(s: Snap, hi: nat, c: char)
    requires s.stPos == 3
    ensures var s1 := Complete(s, hi, c);
            s1 == s.(pb := s1.pb, ucs := s1.ucs, stPos := 4)
  {
  }

  lemma PairAtEnd(x: Call, s: Snap, q: Quoted, c: char, obj: Value)
    requires SnapOk(x.env, s) && s.top.state == SEscapeUnicode && q == QuotedOf(s.top.saved, s.top)
    requires s.off == |x.chunk| && c != '\0'
    requires x.goal == After(s.off, AtEnd(x.env, TokIn(s, EscapeUnicode(q, 0))))
    ensures Leaving(x, s.(err := Continue), c, obj)
  {
    hide StackOf, LowerAllOk;
    AnyCharacter(x.env, TokIn(s, EscapeUnicode(q, 0)), Continue, c, 1 as char);
  }

  // A high surrogate in front of another escape: on to its first digit
  lemma PairLeft(x: Call, s: Snap, hi: nat, c: char, obj: Value)
    requires InEscape(x, s, hi, c) && s.stPos == 3 && (IsHexDigit(c) || c == '\0')
    requires var s1 := Complete(s, hi, c);
             s1.ucs >= 0x800 && IsHighSurrogate(s1.ucs) && EscapeAhead(x.chunk, s.off)
    ensures var s1 := Complete(s, hi, c);
            if c == '\0' then Leaving(x, s1.(pb := s1.pb + REPLACEMENT + REPLACEMENT, off := s.off + 2), c, obj)
            else if s.off + 3 == |x.chunk| then
              Leaving(x, s1.(pb := s1.pb + REPLACEMENT, off := s.off + 3, err := Continue), c, obj)
            else
              s.off + 3 < |x.chunk| &&
              InEscape(x, s1.(ucs := 0, stPos := 0, off := s.off + 3), s1.ucs, x.chunk[s.off + 3])
  {
    hide StackOf, LowerAllOk, AddHexDigit, Utf8, IsHighSurrogate, IsLowSurrogate, Step, Complete, IsHexDigit;
    var q := QuotedOf(s.top.saved, s.top);
    var t := x.chunk[s.off..];
    FourthDigit(x, s, q, hi, c);
    CompleteKeeps(s, hi, c);
    var s1 := Complete(s, hi, c);
    assert t[1] == '\\' && t[2] == 'u' && |t| >= 3;
    assert t[3..] == x.chunk[s.off + 3..];
    if c == '\0' {
      assert s1.pb + (REPLACEMENT + REPLACEMENT) == s1.pb + REPLACEMENT + REPLACEMENT;
    } else if s.off + 3 == |x.chunk| {
      assert t[3..] == [];
      var s2 := s1.(pb := s1.pb + REPLACEMENT);
      var k := TokIn(s2, EscapeUnicode(q, 0));
      assert Step(x.env, TokIn(s, EscapeUnicode(q, hi)), t) == Eat(k, 3);
      assert t[0] == c && Run(x.env, k, []) == AtEnd(x.env, k);
      assert x.goal == After(s.off, After(3, Run(x.env, k, t[3..])));
      PairAtEnd(x, s2.(off := s.off + 3), q, c, obj);
    }
  }

  // Between two characters
  ghost predicate Unread(x: Call, s: Snap, obj: Value) {
    SnapOk(x.env, s) && Settled(s.top) && s.err == Success && GoesOn(x, TokOf(s, obj), s.off)
  }

  lemma UnreadMeets(x: Call, s: Snap, c: char, obj: Value)
    requires Unread(x, s, obj)
    ensures s.off < |x.chunk| ==> Reading(x, s, x.chunk[s.off], obj)
    ensures s.off == |x.chunk| && c != '\0' ==> Leaving(x, s.(err := PeekError(s)), c, obj)
  {
    hide TokIn, LowerAllOk, RecordOk, StateOf, Run, Leaving;
    if s.off == |x.chunk| && c != '\0' {
      PeekLeaves(x, s, obj, c);
    }
  }

  lemma UsedMeets(x: Call, s: Snap, c: char, obj: Value)
    requires Used(x, s, c, obj)
    ensures s.off < |x.chunk|
    ensures var s' := s.(off := s.off + 1);
            if c == '\0' then Leaving(x, s', c, obj) else Unread(x, s', obj)
  {
    hide LowerAllOk, RecordOk, StateOf, Leaving, Run;
    if c == '\0' {
      MeetsNul(x, s, c, obj);
    } else {
      SameFields(s, StateOf(s.top, obj));
    }
  }
}
