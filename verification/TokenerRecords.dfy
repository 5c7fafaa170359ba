// The tokener's own data: the stack of records, and the machine state it stands for.

module TokenerRecords {
  import opened Options
  import opened Chars
  import opened JsonValue
  import opened Tokener
  import opened TokenerRun

  // enum json_tokener_state
  datatype StateName =
    | SEatWs | SStart | SFinish | SNull | SCommentStart | SComment | SCommentEol | SCommentEnd
    | SString | SStringEscape | SEscapeUnicode | SBoolean | SNumber | SArray | SArrayAdd | SArraySep
    | SObjectFieldStart | SObjectField | SObjectFieldEnd | SObjectValue | SObjectValueAdd | SObjectSep
    | SArrayAfterSep | SObjectFieldStartAfterSep | SInf

  // struct json_tokener_srec; JNull is also the NULL pointer
  datatype Srec = Srec(state: StateName, saved: StateName, current: Value, fieldName: Option<Text>)

  const CLEARED := Srec(SEatWs, SStart, JNull, None)

  predicate IsComment(s: StateName) {
    s == SCommentStart || s == SComment || s == SCommentEol || s == SCommentEnd
  }

  // What a record has to hold: no value and no key, any value, an array, an object, an object and a key
  datatype Need = Nothing | AnyValue | AnArray | AnObject | ObjectAndKey | Never

  predicate Meets(n: Need, r: Srec) {
    && n != Never
    && (r.fieldName.Some? <==> n == ObjectAndKey)
    && (n == Nothing ==> r.current == JNull)
    && (n == AnArray ==> r.current.JArray?)
    && (n == AnObject || n == ObjectAndKey ==> r.current.JObject?)
  }

  // For a state that decides on the next character
  function PlaceNeed(s: StateName): Need {
    match s
    case SStart => Nothing
    case SFinish => AnyValue
    case SArray => AnArray
    case SArrayAfterSep => AnArray
    case SArraySep => AnArray
    case SObjectFieldStart => AnObject
    case SObjectFieldStartAfterSep => AnObject
    case SObjectSep => AnObject
    case SObjectFieldEnd => ObjectAndKey
    case SObjectValue => ObjectAndKey
    case _ => Never
  }

  predicate PlaceOk(s: StateName, r: Srec) {
    Meets(PlaceNeed(s), r)
  }

  function PlaceOf(s: StateName, r: Srec): Place
    requires PlaceOk(s, r)
  {
    match s
    case SStart => Start
    case SFinish => Finish(r.current)
    case SArray => Element(r.current.elements, false)
    case SArrayAfterSep => Element(r.current.elements, true)
    case SArraySep => ArraySep(r.current.elements)
    case SObjectFieldStart => FieldStart(r.current.members, false)
    case SObjectFieldStartAfterSep => FieldStart(r.current.members, true)
    case SObjectFieldEnd => FieldEnd(r.current.members, r.fieldName.value)
    case SObjectValue => ObjectValue(r.current.members, r.fieldName.value)
    case SObjectSep => ObjectSep(r.current.members)
  }

  // For a quoted text that goes on in state s
  function QuotedNeed(s: StateName): Need {
    if s == SString then Nothing else if s == SObjectField then AnObject else Never
  }

  predicate QuotedOk(s: StateName, r: Srec) {
    Meets(QuotedNeed(s), r)
  }

  function QuotedOf(s: StateName, r: Srec): Quoted
    requires QuotedOk(s, r)
  {
    if s == SString then AsValue else AsKey(r.current.members)
  }

  function RecordNeed(state: StateName, saved: StateName): Need {
    match state
    case SEatWs => PlaceNeed(saved)
    case SCommentStart => PlaceNeed(saved)
    case SComment => PlaceNeed(saved)
    case SCommentEol => PlaceNeed(saved)
    case SCommentEnd => PlaceNeed(saved)
    case SNull => if saved == SStart then Nothing else Never
    case SBoolean => if saved == SStart then Nothing else Never
    case SNumber => if saved == SStart then Nothing else Never
    case SInf => if saved == SStart then Nothing else Never
    case SString => if saved != SFinish then Nothing else Never
    case SObjectField => if saved != SFinish then AnObject else Never
    case SStringEscape => QuotedNeed(saved)
    case SEscapeUnicode => QuotedNeed(saved)
    case SArrayAdd => if saved != SFinish then AnArray else Never
    case SObjectValueAdd => if saved != SFinish then ObjectAndKey else Never
    case s => if saved == s then PlaceNeed(s) else Never
  }

  predicate RecordOk(r: Srec) {
    Meets(RecordNeed(r.state, r.saved), r)
  }

  // obj is the value that the level above has just handed down.
  function StateOf(r: Srec, obj: Value): State
    requires RecordOk(r)
  {
    match r.state
    case SEatWs => EatWs(PlaceOf(r.saved, r))
    case SCommentStart => CommentStart(PlaceOf(r.saved, r))
    case SComment => Comment(PlaceOf(r.saved, r))
    case SCommentEol => CommentEol(PlaceOf(r.saved, r))
    case SCommentEnd => CommentEnd(PlaceOf(r.saved, r))
    case SNull => Null
    case SBoolean => Boolean
    case SNumber => Number(0)
    case SInf => Infinity
    case SString => Body(AsValue)
    case SObjectField => Body(AsKey(r.current.members))
    case SStringEscape => Escape(QuotedOf(r.saved, r))
    case SEscapeUnicode => EscapeUnicode(QuotedOf(r.saved, r), 0)
    case SArrayAdd => ArrayAdd(r.current.elements, obj)
    case SObjectValueAdd => ObjectValueAdd(r.current.members, r.fieldName.value, obj)
    case s => At(PlaceOf(s, r))
  }

  // A level with another one above it
  predicate LowerOk(r: Srec) {
    RecordOk(r) && (r.state == SArrayAdd || r.state == SObjectValueAdd || r == CLEARED)
  }

  predicate LowerAllOk(rs: seq<Srec>) {
    forall i | 0 <= i < |rs| :: LowerOk(rs[i])
  }

  function StackOf(rs: seq<Srec>): Stack
    requires LowerAllOk(rs)
  {
    if rs == [] then Bottom
    else
      var r, under := rs[|rs| - 1], StackOf(rs[..|rs| - 1]);
      match r.state
      case SArrayAdd => ArrayLevel(r.current.elements, under)
      case SObjectValueAdd => ObjectLevel(r.current.members, r.fieldName.value, under)
      case _ => ResetLevel(under)
  }

  lemma {:induction false} StackDepth(rs: seq<Srec>)
    requires LowerAllOk(rs)
    ensures Depth(StackOf(rs)) == |rs|
  {
    if rs != [] {
      StackDepth(rs[..|rs| - 1]);
    }
  }

  // ---- the tokener's fields as one value

  datatype Snap = Snap(
    lower: seq<Srec>, top: Srec, pb: Text, stPos: nat, isDouble: bool, ucs: nat, quote: char, off: nat, err: Error)

  ghost predicate SnapOk(env: Env, s: Snap) {
    |s.lower| < env.maxDepth && LowerAllOk(s.lower) && RecordOk(s.top)
  }

  // The machine with these fields, in state k
  ghost function TokIn(s: Snap, k: State): Tok
    requires LowerAllOk(s.lower)
  {
    Tok(k, StackOf(s.lower), s.pb, s.stPos, s.isDouble, s.ucs, s.quote)
  }

  ghost function TokOf(s: Snap, obj: Value): Tok
    requires LowerAllOk(s.lower) && RecordOk(s.top)
  {
    TokIn(s, StateOf(s.top, obj))
  }

  // What a call reads, and what will come of it: the chunk and its outcome
  datatype Call = Call(env: Env, chunk: Text, goal: Outcome)

  // The call goes on in the machine state k at offset off.
  ghost predicate GoesOn(x: Call, k: Tok, off: nat) {
    off <= |x.chunk| && x.goal == After(off, Run(x.env, k, x.chunk[off..]))
  }

  // At redo_char in machine state k, with c in hand
  ghost predicate ReadingIn(x: Call, s: Snap, k: State, c: char) {
    && SnapOk(x.env, s) && s.err == Success
    && s.off < |x.chunk| && c == x.chunk[s.off]
    && GoesOn(x, TokIn(s, k), s.off)
  }

  ghost predicate Reading(x: Call, s: Snap, c: char, obj: Value) {
    SnapOk(x.env, s) && ReadingIn(x, s, StateOf(s.top, obj), c)
  }

  // Behind a break, with c used up
  ghost predicate UsedIn(x: Call, s: Snap, k: State, c: char) {
    && SnapOk(x.env, s) && s.err == Success
    && s.off < |x.chunk| && c == x.chunk[s.off]
    && if c == '\0' then x.goal == After(s.off + 1, Out(x.env, Suspend(TokIn(s, k)), Success, c))
       else GoesOn(x, TokIn(s, k), s.off + 1)
  }

  // Not waiting for obj
  predicate Settled(r: Srec) {
    r.state != SArrayAdd && r.state != SObjectValueAdd
  }

  ghost predicate Used(x: Call, s: Snap, c: char, obj: Value) {
    SnapOk(x.env, s) && Settled(s.top) && UsedIn(x, s, StateOf(s.top, obj), c)
  }

  // At the label out
  ghost predicate Leaving(x: Call, s: Snap, c: char, obj: Value) {
    && SnapOk(x.env, s) && Settled(s.top) && s.off <= |x.chunk|
    && (s.err == Success && c != '\0' ==> s.top.saved == SFinish)
    && x.goal == After(s.off, Out(x.env, TokOf(s, obj), s.err, c))
  }

  // How a case leaves the switch: goto redo_char, break, goto out
  datatype Exit = ToRedo | ToNext | ToOut

  ghost predicate Left(x: Call, e: Exit, s: Snap, c: char, obj: Value) {
    match e
    case ToRedo => Reading(x, s, c, obj)
    case ToNext => Used(x, s, c, obj)
    case ToOut => Leaving(x, s, c, obj)
  }

  // Bounds the passes through the switch that are left
  ghost function Measure(x: Call, s: Snap, c: char, obj: Value): nat
  {
    if SnapOk(x.env, s) && s.off <= |x.chunk| then 7 * (|x.chunk| - s.off) + Rank(TokOf(s, obj), c) else 0
  }

  lemma Suspended(s: Snap, obj: Value)
    requires LowerAllOk(s.lower) && RecordOk(s.top)
    ensures Suspend(TokOf(s, obj)) == TokOf(s, obj) == Forget(TokOf(s, obj))
  {
    hide PlaceOk, PlaceOf, StackOf;
  }

  // ---- how the machine's steps show in the fields

  lemma Eats(x: Call, s: Snap, k: State, c: char, s': Snap, k': State)
    requires ReadingIn(x, s, k, c) && SnapOk(x.env, s') && s'.off == s.off && s'.err == Success
    requires Step(x.env, TokIn(s, k), x.chunk[s.off..]) == Eat(TokIn(s', k'), 1)
    ensures UsedIn(x, s', k', c)
  {
    hide Step, TokIn, Rank, Suspend;
    assert x.chunk[s.off..][1..] == x.chunk[s.off + 1..];
  }

  lemma Redoes(x: Call, s: Snap, k: State, c: char, s': Snap, k': State)
    requires ReadingIn(x, s, k, c) && SnapOk(x.env, s') && s'.off == s.off && s'.err == Success
    requires Step(x.env, TokIn(s, k), x.chunk[s.off..]) == Redo(TokIn(s', k'))
    ensures ReadingIn(x, s', k', c) && Rank(TokIn(s', k'), c) < Rank(TokIn(s, k), c)
  {
    hide Step, TokIn, Rank;
    StepProgresses(x.env, TokIn(s, k), x.chunk[s.off..]);
  }

  lemma Stops(x: Call, s: Snap, k: State, c: char, s': Snap, obj: Value, t: Tok)
    requires ReadingIn(x, s, k, c) && SnapOk(x.env, s') && s'.off == s.off
    requires Settled(s'.top) && (s'.err == Success ==> s'.top.saved == SFinish)
    requires Step(x.env, TokIn(s, k), x.chunk[s.off..]) == Stop(t, s'.err) && Forget(t) == TokOf(s', obj)
    ensures Leaving(x, s', c, obj)
  {
    hide Step, TokIn, Rank, Forget;
  }

  // Only whether the last character was a terminator matters.
  lemma AnyCharacter(env: Env, tok: Tok, err: Error, c: char, d: char)
    requires c != '\0' && d != '\0'
    ensures Out(env, tok, err, c) == Out(env, tok, err, d)
  {
  }

  // A chunk used up: what PEEK_CHAR sets is what the call ends with.
  ghost predicate AtEndIn(x: Call, s: Snap, k: State) {
    SnapOk(x.env, s) && s.off == |x.chunk| && s.err == Success && GoesOn(x, TokIn(s, k), s.off)
  }

  function PeekError(s: Snap): Error {
    if s.lower == [] && s.top.state == SEatWs && s.top.saved == SFinish then Success else Continue
  }

  lemma PeekLeaves(x: Call, s: Snap, obj: Value, c: char)
    requires SnapOk(x.env, s) && Settled(s.top) && AtEndIn(x, s, StateOf(s.top, obj)) && c != '\0'
    ensures Leaving(x, s.(err := PeekError(s)), c, obj)
  {
    hide Run, Suspend, StackOf, StateOf, LowerAllOk, Out;
    Suspended(s, obj);
    EndIsPeeked(s, obj);
    assert x.chunk[s.off..] == [];
    RunAtEnd(x.env, TokOf(s, obj));
    AnyCharacter(x.env, TokOf(s, obj), PeekError(s), c, 1 as char);
  }

  lemma RunAtEnd(env: Env, tok: Tok)
    ensures Run(env, tok, []) == AtEnd(env, tok)
  {
  }

  lemma EndIsPeeked(s: Snap, obj: Value)
    requires LowerAllOk(s.lower) && RecordOk(s.top)
    ensures var k := TokOf(s, obj);
            PeekError(s) == if k.under.Bottom? && k.state.EatWs? && k.state.next.Finish? then Success else Continue
  {
  }

  // ADVANCE_CHAR and PEEK_CHAR
  lemma Advances(x: Call, s: Snap, k: State, c: char)
    requires UsedIn(x, s, k, c) && c != '\0'
    ensures var s' := s.(off := s.off + 1);
            if s'.off == |x.chunk| then AtEndIn(x, s', k) else ReadingIn(x, s', k, x.chunk[s'.off])
  {
    hide TokIn;
    assert TokIn(s.(off := s.off + 1), k) == TokIn(s, k) by { SameFields(s, k); }
  }

  lemma SameFields(s: Snap, k: State)
    requires LowerAllOk(s.lower)
    ensures forall n: nat, e: Error :: TokIn(s.(off := n, err := e), k) == TokIn(s, k)
  {
  }

  lemma MeetsNul(x: Call, s: Snap, c: char, obj: Value)
    requires Used(x, s, c, obj) && c == '\0'
    ensures Leaving(x, s.(off := s.off + 1), c, obj)
  {
    Suspended(s, obj);
    hide Suspend, Out;
  }

  // ---- the end of a call

  function Cleared(n: nat): seq<Srec> {
    seq(n, i => CLEARED)
  }

  lemma {:induction false} ClearedStack(rs: seq<Srec>)
    requires LowerAllOk(rs)
    ensures LowerAllOk(Cleared(|rs|)) && StackOf(Cleared(|rs|)) == ResetAll(StackOf(rs))
  {
    if rs != [] {
      ClearedStack(rs[..|rs| - 1]);
      assert Cleared(|rs|)[..|rs| - 1] == Cleared(|rs| - 1);
    }
  }

  lemma HeldIs(r: Srec, obj: Value)
    requires RecordOk(r) && Settled(r)
    ensures Held(StateOf(r, obj)) == if r.state == SFinish || r.saved == SFinish then Some(r.current) else None
    ensures StateOf(r, obj).At? && Held(StateOf(r, obj)).Some? <==> r.state == SFinish
  {
  }

  predicate IsTrailing(env: Env, s: Snap, c: char) {
    c != '\0' && s.top.state == SFinish && s.lower == [] && env.strict
  }

  // tok->err behind the label out
  function FinalError(env: Env, s: Snap, c: char): Error {
    if IsTrailing(env, s, c) then UnexpectedChar
    else if c == '\0' && s.top.state != SFinish && s.top.saved != SFinish then UnexpectedEof
    else s.err
  }

  lemma OutIs(x: Call, s: Snap, c: char, obj: Value)
    requires Leaving(x, s, c, obj)
    ensures var e := FinalError(x.env, s, c);
            && x.goal.err == e && x.goal.used == s.off
            && (e == Success ==>
                  && x.goal.value == s.top.current && LowerAllOk(Cleared(|s.lower|))
                  && x.goal.tok == TokOf(s.(lower := Cleared(|s.lower|), top := CLEARED), JNull))
            && (e != Success ==> x.goal.value == JNull && x.goal.tok == TokOf(s, JNull))
  {
    hide RecordOk, LowerAllOk, StackOf;
    HeldIs(s.top, obj);
    StackDepth(s.lower);
    ClearedStack(s.lower);
    SettledState(s.top, obj);
    ClearedIsOk();
  }

  lemma ClearedIsOk()
    ensures RecordOk(CLEARED) && StateOf(CLEARED, JNull) == EatWs(Start)
  {
  }

  lemma SettledState(r: Srec, obj: Value)
    requires RecordOk(r) && Settled(r)
    ensures StateOf(r, obj) == StateOf(r, JNull)
  {
  }
}
