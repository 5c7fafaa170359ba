// Whole calls of json_tokener_parse_ex: termination, depth and the number of steps.

module TokenerRun {
  import opened Options
  import opened Chars
  import opened JsonValue
  import opened Unicode
  import opened Tokener

  function Potential(p: Place): nat {
    match p
    case Finish(_) => 3
    case Element(_, _) => 3
    case ObjectValue(_, _) => 3
    case Start => 1
    case _ => 0
  }

  // How often the switch can still be entered for the current character c
  function Rank(tok: Tok, c: char): (r: nat)
    ensures r <= 6
  {
    match tok.state
    case EatWs(next) => 1 + Potential(next)
    case At(here) => Potential(here)
    case ArrayAdd(_, _) => 2
    case ObjectValueAdd(_, _, _) => 2
    case Null => if tok.stPos == 0 then 0 else 5
    case Boolean => if tok.stPos == 0 then 0 else 5
    case Infinity => if tok.pb == [] then 0 else 5
    case Number(_) => if IsNumberChar(c) then 0 else 6
    case _ => 0
  }

  // Every redo brings its end closer, and no step moves past the end of the chunk.
  ghost predicate Progress(rank: nat, t: Text, m: Micro)
    requires t != []
  {
    match m
    case Redo(k) => Rank(k, t[0]) < rank
    case Eat(k, n) => 1 <= n <= |t|
    case Stop(k, e) => e != Continue
  }

  lemma WordProgresses(env: Env, tok: Tok, t: Text)
    requires t != []
    ensures tok.state.Null? ==> Progress(Rank(tok, t[0]), t, StepNull(env, tok, t[0]))
    ensures tok.state.Boolean? ==> Progress(Rank(tok, t[0]), t, StepBoolean(env, tok, t[0]))
    ensures tok.state.Infinity? ==> Progress(Rank(tok, t[0]), t, StepInfinity(env, tok, t[0]))
  {
  }

  lemma NumberProgresses(env: Env, tok: Tok, t: Text)
    requires t != [] && tok.state.Number?
    ensures Progress(Rank(tok, t[0]), t, StepNumber(env, tok, t[0], tok.state.caseLen))
  {
  }

  lemma UnicodeProgresses(tok: Tok, t: Text)
    requires t != [] && tok.state.EscapeUnicode?
    ensures Progress(Rank(tok, t[0]), t, StepUnicode(tok, t, tok.state.q, tok.state.hi))
  {
  }

  lemma PlaceProgresses(env: Env, tok: Tok, t: Text)
    requires t != [] && tok.state.At?
    ensures Progress(Rank(tok, t[0]), t, StepAt(env, tok, t[0], tok.state.here))
  {
  }

  lemma StepProgresses(env: Env, tok: Tok, t: Text)
    requires t != []
    ensures Progress(Rank(tok, t[0]), t, Step(env, tok, t))
  {
    match tok.state
    case Null => WordProgresses(env, tok, t);
    case Boolean => WordProgresses(env, tok, t);
    case Infinity => WordProgresses(env, tok, t);
    case Number(_) => NumberProgresses(env, tok, t);
    case EscapeUnicode(_, _) => UnicodeProgresses(tok, t);
    case At(_) => PlaceProgresses(env, tok, t);
    case _ =>
  }

  datatype Outcome = Outcome(tok: Tok, err: Error, value: Value, used: nat)

  // The finished value when the level is at, or on its way to, the finish state
  function Held(s: State): Option<Value> {
    match s
    case EatWs(Finish(v)) => Some(v)
    case CommentStart(Finish(v)) => Some(v)
    case Comment(Finish(v)) => Some(v)
    case CommentEol(Finish(v)) => Some(v)
    case CommentEnd(Finish(v)) => Some(v)
    case At(Finish(v)) => Some(v)
    case _ => None
  }

  // The locals of a call are gone when it returns.
  function Forget(tok: Tok): Tok {
    match tok.state
    case Number(_) => To(tok, Number(0))
    case EscapeUnicode(q, _) => To(tok, EscapeUnicode(q, 0))
    case _ => tok
  }

  // The input ran out: a high surrogate still waiting for its partner is replaced.
  function Suspend(tok: Tok): Tok {
    if tok.state.EscapeUnicode? && tok.state.hi != 0 then Forget(Append(tok, REPLACEMENT)) else Forget(tok)
  }

  function ResetAll(s: Stack): Stack {
    match s
    case Bottom => Bottom
    case ArrayLevel(_, under) => ResetLevel(ResetAll(under))
    case ObjectLevel(_, _, under) => ResetLevel(ResetAll(under))
    case ResetLevel(under) => ResetLevel(ResetAll(under))
  }

  // What follows the label `out`; c is the last character looked at.
  function Out(env: Env, tok: Tok, err: Error, c: char): Outcome {
    var held := Held(tok.state);
    var trailing := c != '\0' && tok.state.At? && held.Some? && tok.under.Bottom? && env.strict;
    var e := if trailing then UnexpectedChar else if c == '\0' && held.None? then UnexpectedEof else err;
    if e == Success && held.Some? then
      Outcome(To(tok, EatWs(Start)).(under := ResetAll(tok.under)), Success, held.value, 0)
    else Outcome(tok, e, JNull, 0)
  }

  // PEEK_CHAR at the end of the chunk
  function AtEnd(env: Env, tok: Tok): Outcome {
    var done := tok.under.Bottom? && tok.state.EatWs? && tok.state.next.Finish?;
    Out(env, Suspend(tok), if done then Success else Continue, 1 as char)
  }

  function After(n: nat, o: Outcome): Outcome {
    o.(used := n + o.used)
  }

  // The rest of a call of json_tokener_parse_ex, with t still unread
  function Run(env: Env, tok: Tok, t: Text): Outcome
    decreases |t|, if t == [] then 0 else Rank(tok, t[0])
  {
    if t == [] then AtEnd(env, tok)
    else
      StepProgresses(env, tok, t);
      match Step(env, tok, t)
      case Redo(k) => Run(env, k, t)
      case Eat(k, n) =>
        if t[0] == '\0' then After(n, Out(env, Suspend(k), Success, '\0'))
        else After(n, Run(env, k, t[n..]))
      case Stop(k, e) => Out(env, Forget(k), e, t[0])
  }

  // Passes through the switch: a call ends after at most seven for each character it is given.
  function Passes(env: Env, tok: Tok, t: Text): (n: nat)
    ensures n <= 7 * |t|
    ensures t != [] ==> n <= Rank(tok, t[0]) + 1 + 7 * (|t| - 1)
    decreases |t|, if t == [] then 0 else Rank(tok, t[0])
  {
    if t == [] then 0
    else
      StepProgresses(env, tok, t);
      match Step(env, tok, t)
      case Redo(k) => 1 + Passes(env, k, t)
      case Eat(k, n) => if t[0] == '\0' then 1 else 1 + Passes(env, k, t[n..])
      case Stop(_, _) => 1
  }

  predicate StackSafe(env: Env, tok: Tok) {
    Depth(tok.under) <= env.maxDepth - 1
  }

  lemma ResetAllKeepsDepth(s: Stack)
    ensures Depth(ResetAll(s)) == Depth(s)
  {
  }

  lemma WordKeepsStack(env: Env, tok: Tok, c: char)
    ensures StepNull(env, tok, c).tok.under == tok.under
    ensures StepBoolean(env, tok, c).tok.under == tok.under
    ensures StepInfinity(env, tok, c).tok.under == tok.under
  {
  }

  lemma StringKeepsStack(tok: Tok, t: Text, q: Quoted, hi: nat)
    requires t != []
    ensures StepBody(tok, t[0], q).tok.under == tok.under
    ensures StepEscape(tok, t[0], q).tok.under == tok.under
    ensures StepUnicode(tok, t, q, hi).tok.under == tok.under
  {
  }

  lemma SpaceKeepsStack(env: Env, tok: Tok, c: char, next: Place)
    ensures StepEatWs(env, tok, c, next).tok.under == tok.under
    ensures tok.state.CommentStart? || tok.state.Comment? || tok.state.CommentEol? || tok.state.CommentEnd? ==>
              StepComment(tok, c).tok.under == tok.under
  {
  }

  lemma NumberKeepsStack(env: Env, tok: Tok, c: char, caseLen: nat)
    ensures StepNumber(env, tok, c, caseLen).tok.under == tok.under
  {
  }

  lemma PlaceKeepsDepth(env: Env, tok: Tok, c: char, here: Place)
    requires StackSafe(env, tok)
    ensures StackSafe(env, StepAt(env, tok, c, here).tok)
  {
  }

  lemma StepKeepsDepth(env: Env, tok: Tok, t: Text)
    requires t != [] && StackSafe(env, tok)
    ensures StackSafe(env, Step(env, tok, t).tok)
  {
    hide StepNull, StepBoolean, StepInfinity, StepNumber, StepBody, StepEscape, StepUnicode, StepAt, StepEatWs,
         StepComment;
    match tok.state
    case Null => WordKeepsStack(env, tok, t[0]);
    case Boolean => WordKeepsStack(env, tok, t[0]);
    case Infinity => WordKeepsStack(env, tok, t[0]);
    case Body(q) => StringKeepsStack(tok, t, q, 0);
    case Escape(q) => StringKeepsStack(tok, t, q, 0);
    case EscapeUnicode(q, hi) => StringKeepsStack(tok, t, q, hi);
    case At(here) => PlaceKeepsDepth(env, tok, t[0], here);
    case Number(caseLen) => NumberKeepsStack(env, tok, t[0], caseLen);
    case EatWs(next) => SpaceKeepsStack(env, tok, t[0], next);
    case CommentStart(next) => SpaceKeepsStack(env, tok, t[0], next);
    case Comment(next) => SpaceKeepsStack(env, tok, t[0], next);
    case CommentEol(next) => SpaceKeepsStack(env, tok, t[0], next);
    case CommentEnd(next) => SpaceKeepsStack(env, tok, t[0], next);
    case ArrayAdd(_, _) =>
    case ObjectValueAdd(_, _, _) =>
  }

  // The stack index stays below max_depth in every call, whatever the input and however it ends.
  lemma {:induction false} RunKeepsDepth(env: Env, tok: Tok, t: Text)
    requires StackSafe(env, tok)
    ensures StackSafe(env, Run(env, tok, t).tok)
    decreases |t|, if t == [] then 0 else Rank(tok, t[0])
  {
    if t == [] {
      ResetAllKeepsDepth(tok.under);
    } else {
      StepProgresses(env, tok, t);
      StepKeepsDepth(env, tok, t);
      match Step(env, tok, t)
      case Redo(k) => RunKeepsDepth(env, k, t);
      case Eat(k, n) =>
        ResetAllKeepsDepth(k.under);
        if t[0] != '\0' {
          RunKeepsDepth(env, k, t[n..]);
        }
      case Stop(k, _) => ResetAllKeepsDepth(k.under);
    }
  }
}
