// The pushdown tokener computes what the recursive-descent reader computes, on every text.

module TokenerRefines {
  import opened Arith
  import opened Options
  import opened Chars
  import opened OrderedMap
  import opened JsonValue
  import opened Numbers
  import opened Unicode
  import opened Tokener
  import opened TokenerRun
  import opened Reader

  // From tok with t unread the call comes to k with rest unread.
  ghost predicate Reaches(env: Env, tok: Tok, t: Text, k: Tok, rest: Text) {
    |rest| <= |t| && Run(env, tok, t) == After(|t| - |rest|, Run(env, k, rest))
  }

  // The call reports what a reading that stops reports.
  ghost predicate Reports<T>(env: Env, tok: Tok, t: Text, r: Read<T>) {
    var o := Run(env, tok, t);
    match r
    case Got(_, _) => false
    case Ran => o.err == Continue && o.value == JNull && o.used == |t|
    case Fail(e, rest) => o.err == e && o.value == JNull && o.used == |t| - |rest|
    case Early(v, rest) => o.err == Success && o.value == v && o.used == |t| - |rest|
  }

  lemma Redone(env: Env, tok: Tok, t: Text, k: Tok)
    requires t != [] && Step(env, tok, t) == Redo(k)
    ensures Reaches(env, tok, t, k, t)
  {
  }

  lemma Eaten(env: Env, tok: Tok, t: Text, k: Tok, n: nat)
    requires t != [] && Step(env, tok, t) == Eat(k, n) && t[0] != '\0' && n <= |t|
    ensures Reaches(env, tok, t, k, t[n..])
  {
  }

  lemma ReachesTrans(env: Env, a: Tok, t: Text, b: Tok, u: Text, c: Tok, v: Text)
    requires Reaches(env, a, t, b, u) && Reaches(env, b, u, c, v)
    ensures Reaches(env, a, t, c, v)
  {
  }

  lemma ReportsBack<T>(env: Env, a: Tok, t: Text, b: Tok, u: Text, r: Read<T>)
    requires Reaches(env, a, t, b, u) && Reports(env, b, u, r)
    ensures Reports(env, a, t, r)
  {
  }

  lemma ReportsAs<T, U>(env: Env, tok: Tok, t: Text, r: Read<T>)
    requires !r.Got? && Reports(env, tok, t, r)
    ensures Reports<U>(env, tok, t, r.PropagateFailure())
  {
  }

  // ---- white space and comments

  ghost function HeldBy(p: Place): Option<Value> {
    if p.Finish? then Some(p.v) else None
  }

  // On the same levels, with the same position in words
  predicate Beside(k: Tok, tok: Tok) {
    k.under == tok.under && k.stPos == tok.stPos
  }

  // SkipSpace, seen from inside white space or a comment in front of place p
  ghost predicate Skips(env: Env, tok: Tok, t: Text, p: Place, s: Space) {
    var o := Run(env, tok, t);
    match s
    case Token(rest) => exists k: Tok :: k.state == At(p) && Beside(k, tok) && Reaches(env, tok, t, k, rest)
    case Spaces => exists k: Tok :: k.state == EatWs(p) && Beside(k, tok) && Reaches(env, tok, t, k, [])
    case InComment => Reports<()>(env, tok, t, Ran)
    case Unclosed(rest) => Reports<()>(env, tok, t, if p.Finish? then Early(p.v, rest) else Fail(UnexpectedEof, rest))
    case NoComment(rest) =>
      rest != [] &&
      Reports<()>(env, tok, t, if p.Finish? then Fail(BadComment, rest) else FailAt(BadComment, rest))
  }

  lemma SkipsBack(env: Env, a: Tok, t: Text, b: Tok, u: Text, p: Place, s: Space)
    requires Reaches(env, a, t, b, u) && Skips(env, b, u, p, s) && Beside(a, b)
    ensures Skips(env, a, t, p, s)
  {
    match s
    case Token(rest) =>
      var k: Tok :| k.state == At(p) && Beside(k, b) && Reaches(env, b, u, k, rest);
      ReachesTrans(env, a, t, b, u, k, rest);
    case Spaces =>
      var k: Tok :| k.state == EatWs(p) && Beside(k, b) && Reaches(env, b, u, k, []);
      ReachesTrans(env, a, t, b, u, k, []);
    case InComment => ReportsBack<()>(env, a, t, b, u, Ran);
    case Unclosed(rest) =>
      ReportsBack<()>(env, a, t, b, u, if p.Finish? then Early(p.v, rest) else Fail(UnexpectedEof, rest));
    case NoComment(rest) =>
      ReportsBack<()>(env, a, t, b, u, if p.Finish? then Fail(BadComment, rest) else FailAt(BadComment, rest));
  }

  lemma {:induction false} SpaceSkips(env: Env, tok: Tok, t: Text, p: Place)
    requires tok.state == EatWs(p)
    ensures Skips(env, tok, t, p, SkipSpace(env, t))
    decreases |t|
  {
    if t == [] {
    } else if IsSpace(t[0]) {
      Eaten(env, tok, t, tok, 1);
      SpaceSkips(env, tok, t[1..], p);
      SkipsBack(env, tok, t, tok, t[1..], p, SkipSpace(env, t[1..]));
    } else if t[0] != '/' || env.strict {
      Redone(env, tok, t, To(tok, At(p)));
    } else {
      var k := To(tok, CommentStart(p)).(pb := [t[0]]);
      Eaten(env, tok, t, k, 1);
      CommentStartSkips(env, k, t[1..], p);
      if |t| > 1 {
        assert t[1..][1..] == t[2..];
      }
      SkipsBack(env, tok, t, k, t[1..], p, SkipSpace(env, t));
    }
  }

  lemma {:induction false} CommentStartSkips(env: Env, tok: Tok, t: Text, p: Place)
    requires tok.state == CommentStart(p)
    ensures Skips(env, tok, t, p,
              if t == [] then InComment
              else if t[0] == '*' then SkipBlock(env, t[1..])
              else if t[0] == '/' then SkipLine(env, t[1..])
              else NoComment(t))
    decreases |t|
  {
    if t != [] {
      if t[0] == '*' {
        var k := Append(To(tok, Comment(p)), [t[0]]);
        Eaten(env, tok, t, k, 1);
        BlockSkips(env, k, t[1..], p);
        SkipsBack(env, tok, t, k, t[1..], p, SkipBlock(env, t[1..]));
      } else if t[0] == '/' {
        var k := Append(To(tok, CommentEol(p)), [t[0]]);
        Eaten(env, tok, t, k, 1);
        LineSkips(env, k, t[1..], p);
        SkipsBack(env, tok, t, k, t[1..], p, SkipLine(env, t[1..]));
      }
    }
  }

  lemma {:induction false} BlockSkips(env: Env, tok: Tok, t: Text, p: Place)
    requires tok.state == Comment(p)
    ensures Skips(env, tok, t, p, SkipBlock(env, t))
    decreases |t|
  {
    if t != [] && t[0] != '\0' {
      var k := Append(if t[0] == '*' then To(tok, CommentEnd(p)) else tok, [t[0]]);
      Eaten(env, tok, t, k, 1);
      if t[0] == '*' {
        BlockEndSkips(env, k, t[1..], p);
      } else {
        BlockSkips(env, k, t[1..], p);
      }
      SkipsBack(env, tok, t, k, t[1..], p, SkipBlock(env, t));
    }
  }

  lemma {:induction false} BlockEndSkips(env: Env, tok: Tok, t: Text, p: Place)
    requires tok.state == CommentEnd(p)
    ensures Skips(env, tok, t, p, SkipBlockEnd(env, t))
    decreases |t|
  {
    hide StepEatWs, StepAt, StepNull, StepBoolean, StepInfinity, StepNumber, StepBody, StepEscape, StepUnicode;
    if t != [] && t[0] != '\0' {
      var k := Append(To(tok, if t[0] == '/' then EatWs(p) else Comment(p)), [t[0]]);
      Eaten(env, tok, t, k, 1);
      if t[0] == '/' {
        SpaceSkips(env, k, t[1..], p);
      } else {
        BlockSkips(env, k, t[1..], p);
      }
      SkipsBack(env, tok, t, k, t[1..], p, SkipBlockEnd(env, t));
    }
  }

  lemma {:induction false} LineSkips(env: Env, tok: Tok, t: Text, p: Place)
    requires tok.state == CommentEol(p)
    ensures Skips(env, tok, t, p, SkipLine(env, t))
    decreases |t|
  {
    hide StepEatWs, StepAt, StepNull, StepBoolean, StepInfinity, StepNumber, StepBody, StepEscape, StepUnicode;
    if t != [] && t[0] != '\0' {
      var k := if t[0] == '\n' then To(tok, EatWs(p)) else Append(tok, [t[0]]);
      Eaten(env, tok, t, k, 1);
      if t[0] == '\n' {
        SpaceSkips(env, k, t[1..], p);
      } else {
        LineSkips(env, k, t[1..], p);
      }
      SkipsBack(env, tok, t, k, t[1..], p, SkipLine(env, t));
    }
  }

  // White space behind a complete value or in front of a token
  lemma NextIs(env: Env, tok: Tok, t: Text, p: Place) returns (k: Tok)
    requires tok.state == EatWs(p)
    requires p.Finish? ==> !tok.under.Bottom?
    ensures var r := Next(env, t, HeldBy(p));
            if r.Got? then k.state == At(p) && Beside(k, tok) && Reaches(env, tok, t, k, r.rest)
            else Reports(env, tok, t, r)
  {
    SpaceSkips(env, tok, t, p);
    k := tok;
    match SkipSpace(env, t)
    case Token(rest) => k :| k.state == At(p) && Beside(k, tok) && Reaches(env, tok, t, k, rest);
    case Spaces => k :| k.state == EatWs(p) && Beside(k, tok) && Reaches(env, tok, t, k, []);
    case _ =>
  }

  // ---- words

  // The two words of a keyword state cannot both be under way past their first letter.
  ghost predicate Apart(exact: bool, t: Text, word0: Text, word1: Text) {
    var n0, n1 := Common(exact, word0, t), Common(exact, word1, t);
    (n0 == n1 && |word0| == |word1|) || n0 <= 1 || n1 <= 1
  }

  ghost predicate WordStep(env: Env, tok: Tok, c: char, word0: Text, v0: Value, word1: Text, v1: Value, err: Fault) {
    match tok.state
    case Null => word0 == "null" && v0 == JNull && word1 == "NaN" && v1 == JNaN && err == BadNull
    case Boolean => word0 == "true" && v0 == JBool(true) && word1 == "false" && v1 == JBool(false) && err == BadBoolean
    case Infinity =>
      && word0 == "Infinity" && v0 == JInfinity((tok.pb + [c])[0] == '-') && word1 == word0 && v1 == v0
      && err == UnexpectedChar
    case _ => false
  }

  // The buffer of a keyword state: the front of t, behind a minus sign if the word is a negative infinity
  ghost predicate Buffered(tok: Tok, t: Text, n: nat) {
    n <= |t| && t != [] && tok.stPos == n && tok.pb == Minus(tok, t[0]) + t[..n]
  }

  function Minus(tok: Tok, c: char): Text {
    if tok.state.Infinity? && (tok.pb + [c])[0] == '-' then "-" else ""
  }

  lemma AgreedIsNotNul(exact: bool, word: Text, t: Text, n: nat)
    requires '\0' !in word
    ensures n < Common(exact, word, t) ==> t[n] != '\0'
  {
    if n < Common(exact, word, t) {
      CommonIsSame(exact, word, t, n);
      assert word[n] in word;
    }
  }

  lemma WordGoesOn(exact: bool, word: Text, t: Text, n: nat)
    requires n < |t|
    ensures Agrees(exact, word, t[..n + 1], Min(n + 1, |word|)) <==>
            n < Common(exact, word, t) || Common(exact, word, t) == |word|
  {
    CommonOfPrefix(exact, word, t, n + 1);
    hide Common;
  }

  // The counts behind each decision, and where they leave a reader
  ghost predicate MoveFits(m: WordMove, n: nat, n0: nat, len0: nat, n1: nat, len1: nat) {
    match m
    case First => n == n0 == len0
    case Second => n == n1 == len1 && n0 < len0
    case More => n < n0 || n < n1
    case Wrong => n0 <= n && n1 <= n && n0 < len0 && n1 < len1
  }

  // The n-th pass through a keyword state
  lemma WordMoves(exact: bool, t: Text, n: nat, word0: Text, word1: Text)
    requires |word0| >= 3 && |word1| >= 3 && Apart(exact, t, word0, word1)
    requires n < |t| && (n <= Common(exact, word0, t) || n <= Common(exact, word1, t))
    ensures MoveFits(MoveInWord(exact, t[..n + 1], n, word0, word1), n,
                     Common(exact, word0, t), |word0|, Common(exact, word1, t), |word1|)
  {
    WordGoesOn(exact, word0, t, n);
    WordGoesOn(exact, word1, t, n);
    hide Common, Agrees, Min;
  }

  // The text ends inside a word.
  lemma WordEnds(env: Env, tok: Tok, t: Text, word0: Text, v0: Value, word1: Text, v1: Value, err: Fault)
    requires t != [] && WordStep(env, tok, t[0], word0, v0, word1, v1, err)
    requires |word0| >= 3 && |word1| >= 3 && Apart(env.strict, t, word0, word1)
    requires |t| <= Common(env.strict, word0, t) || |t| <= Common(env.strict, word1, t)
    ensures ReadWord(env, t, word0, v0, word1, v1, err) == Ran && Reports<Value>(env, tok, [], Ran)
  {
    hide Common;
  }

  lemma Stopped<T>(env: Env, tok: Tok, t: Text, k: Tok, err: Error)
    requires t != [] && Step(env, tok, t) == Stop(k, err) && Held(k.state).None? && err != Success
    ensures Reports<T>(env, tok, t, Fail(Blamed(err, t[0]), t))
  {
  }

  // What the reader makes of the word the machine decides on in its n-th pass
  lemma WordOutcome(env: Env, t: Text, n: nat, word0: Text, v0: Value, word1: Text, v1: Value, err: Fault, m: WordMove)
    requires n < |t| && MoveFits(m, n, Common(env.strict, word0, t), |word0|, Common(env.strict, word1, t), |word1|)
    requires n <= Common(env.strict, word0, t) || n <= Common(env.strict, word1, t)
    ensures var r := ReadWord(env, t, word0, v0, word1, v1, err);
            match m
            case First => r == Got(v0, t[n..])
            case Second => r == Got(v1, t[n..])
            case More => true
            case Wrong => r == Fail(Blamed(err, t[n]), t[n..])
  {
    hide Common;
  }

  lemma WordSteps(env: Env, tok: Tok, t: Text, n: nat, word0: Text, v0: Value, word1: Text, v1: Value, err: Fault)
    requires n < |t| && Buffered(tok, t, n) && WordStep(env, tok, t[0], word0, v0, word1, v1, err)
    ensures var next := Append(tok, [t[n]]);
            Step(env, tok, t[n..]) ==
            match MoveInWord(env.strict, t[..n + 1], n, word0, word1)
            case First => Redo(Yield(next, v0))
            case Second => Redo(Yield(next, v1))
            case More => Eat(next.(stPos := n + 1), 1)
            case Wrong => Stop(next, err)
    ensures Held(tok.state).None? && err != Success
    ensures var next := Append(tok, [t[n]]).(stPos := n + 1);
            Buffered(next, t, n + 1) && WordStep(env, next, t[0], word0, v0, word1, v1, err)
  {
    hide MoveInWord;
    assert t[n..][0] == t[n] && t[..n] + [t[n]] == t[..n + 1];
    var buf := tok.pb + [t[n]];
    assert buf == Minus(tok, t[0]) + t[..n + 1];
    if Minus(tok, t[0]) == "-" {
      assert buf[0] == '-' && buf[1..] == t[..n + 1];
    } else {
      assert buf == t[..n + 1] && buf[0] == t[0];
    }
  }

  // The character that decides a word
  lemma WordDecides(env: Env, tok: Tok, t: Text, n: nat, word0: Text, v0: Value, word1: Text, v1: Value, err: Fault)
    returns (k: Tok)
    requires |word0| >= 3 && |word1| >= 3 && '\0' !in word0 && '\0' !in word1
    requires Apart(env.strict, t, word0, word1)
    requires n < |t| && Buffered(tok, t, n)
    requires n <= Common(env.strict, word0, t) || n <= Common(env.strict, word1, t)
    requires WordStep(env, tok, t[0], word0, v0, word1, v1, err)
    requires MoveInWord(env.strict, t[..n + 1], n, word0, word1) != More
    ensures WordReached(env, tok, t, n, k, ReadWord(env, t, word0, v0, word1, v1, err))
  {
    hide Common, MoveInWord, Step, Run, Reports, Reaches, WordStep, Apart, ReadWord, Minus, Held;
    WordSteps(env, tok, t, n, word0, v0, word1, v1, err);
    var m := MoveInWord(env.strict, t[..n + 1], n, word0, word1);
    WordMoves(env.strict, t, n, word0, word1);
    WordOutcome(env, t, n, word0, v0, word1, v1, err, m);
    AgreedIsNotNul(env.strict, word0, t, n);
    AgreedIsNotNul(env.strict, word1, t, n);
    var next := Append(tok, [t[n]]);
    hide Buffered;
    match m
    case First =>
      k := Yield(next, v0);
      Redone(env, tok, t[n..], k);
    case Second =>
      k := Yield(next, v1);
      Redone(env, tok, t[n..], k);
    case Wrong =>
      k := next;
      Stopped<Value>(env, tok, t[n..], next, err);
  }

  ghost predicate WordReached(env: Env, tok: Tok, t: Text, n: nat, k: Tok, r: Read<Value>)
    requires n <= |t|
  {
    if r.Got? then
      && k.state == EatWs(Finish(r.value)) && k.under == tok.under && k.stPos > 0
      && Reaches(env, tok, t[n..], k, r.rest)
    else Reports(env, tok, t[n..], r)
  }

  lemma {:induction false} WordIs(env: Env, tok: Tok, t: Text, n: nat, word0: Text, v0: Value, word1: Text,
                                  v1: Value, err: Fault) returns (k: Tok)
    requires |word0| >= 3 && |word1| >= 3 && '\0' !in word0 && '\0' !in word1
    requires Apart(env.strict, t, word0, word1)
    requires Buffered(tok, t, n) && (n <= Common(env.strict, word0, t) || n <= Common(env.strict, word1, t))
    requires WordStep(env, tok, t[0], word0, v0, word1, v1, err)
    ensures WordReached(env, tok, t, n, k, ReadWord(env, t, word0, v0, word1, v1, err))
    decreases |t| - n
  {
    hide Common, MoveInWord, Step, Run, Reports, Reaches, WordStep, Apart, ReadWord, Minus, Held;
    k := tok;
    var r := ReadWord(env, t, word0, v0, word1, v1, err);
    if n == |t| {
      assert t[n..] == [];
      WordEnds(env, tok, t, word0, v0, word1, v1, err);
    } else if MoveInWord(env.strict, t[..n + 1], n, word0, word1) != More {
      k := WordDecides(env, tok, t, n, word0, v0, word1, v1, err);
    } else {
      WordSteps(env, tok, t, n, word0, v0, word1, v1, err);
      WordMoves(env.strict, t, n, word0, word1);
      AgreedIsNotNul(env.strict, word0, t, n);
      AgreedIsNotNul(env.strict, word1, t, n);
      var next := Append(tok, [t[n]]).(stPos := n + 1);
      hide Buffered;
      Eaten(env, tok, t[n..], next, 1);
      assert t[n..][1..] == t[n + 1..];
      k := WordIs(env, next, t, n + 1, word0, v0, word1, v1, err);
      if r.Got? {
        ReachesTrans(env, tok, t[n..], next, t[n + 1..], k, r.rest);
      } else {
        ReportsBack(env, tok, t[n..], next, t[n + 1..], r);
      }
    }
  }

  // ---- numbers

  ghost predicate NumberSoFar(tok: Tok, pre: Text) {
    && tok.state == Number(|pre|) && tok.pb == pre && tok.isDouble == IsReal(pre)
    && forall i | 0 <= i < |pre| :: IsNumberChar(pre[i])
  }

  lemma NumberGrows(env: Env, tok: Tok, t: Text, pre: Text)
    requires t != [] && IsNumberChar(t[0]) && NumberSoFar(tok, pre)
    ensures Step(env, tok, t).Eat? && Step(env, tok, t).n == 1
    ensures NumberSoFar(Step(env, tok, t).tok, pre + [t[0]]) && Beside(Step(env, tok, t).tok, tok)
  {
  }

  lemma NumberEnds(env: Env, tok: Tok, t: Text, pre: Text) returns (k: Tok)
    requires t != [] && !IsNumberChar(t[0]) && pre != [] && NumberSoFar(tok, pre) && !StartsMinusInfinity(pre + t)
    ensures var r := NumberAt(env, pre, t);
            if r.Got? then k.state == EatWs(Finish(r.value)) && Beside(k, tok) && Reaches(env, tok, t, k, r.rest)
            else Reports(env, tok, t, r)
  {
    hide Run, IsNumberChar, ScanInt64, IsReal, NumberRun;
    hide StepEatWs, StepComment, StepAt, StepNull, StepBoolean, StepInfinity, StepBody, StepEscape, StepUnicode;
    k := Step(env, tok, t).tok;
    if pre[0] == '-' && |pre| == 1 {
      assert (pre + t)[0] == '-' && (pre + t)[1] == t[0];
    }
    match Step(env, tok, t)
    case Redo(_) => Redone(env, tok, t, k);
    case Stop(_, err) => Stopped<Value>(env, tok, t, k, err);
  }

  lemma NumberReads(env: Env, t: Text, pre: Text)
    requires forall i | 0 <= i < |pre| :: IsNumberChar(pre[i])
    requires t != [] && !IsNumberChar(t[0])
    ensures ReadNumber(env, pre + t) == NumberAt(env, pre, t)
  {
    NumberRunGoesOn(pre, t);
    assert (pre + t)[|pre|..] == t;
    hide NumberAt;
  }

  lemma {:induction false} NumberIs(env: Env, tok: Tok, t: Text, pre: Text) returns (k: Tok)
    requires NumberSoFar(tok, pre) && (pre == [] ==> t != [] && IsNumberChar(t[0])) && !StartsMinusInfinity(pre + t)
    ensures var r := ReadNumber(env, pre + t);
            if r.Got? then k.state == EatWs(Finish(r.value)) && Beside(k, tok) && Reaches(env, tok, t, k, r.rest)
            else Reports(env, tok, t, r)
    decreases |t|
  {
    hide ReadNumber, Step, Run, Reports, Reaches, NumberAt, NumberSoFar, IsNumberChar;
    var r := ReadNumber(env, pre + t);
    if t == [] {
      k := tok;
      NumberRunsOut(env, tok, pre);
      assert pre + t == pre;
    } else if !IsNumberChar(t[0]) {
      SoFarIsNumber(tok, pre);
      NumberReads(env, t, pre);
      k := NumberEnds(env, tok, t, pre);
    } else {
      NumberGrows(env, tok, t, pre);
      NumberIsNotNul(t[0]);
      var next := Step(env, tok, t).tok;
      Eaten(env, tok, t, next, 1);
      assert pre + t == (pre + [t[0]]) + t[1..];
      k := NumberIs(env, next, t[1..], pre + [t[0]]);
      if r.Got? {
        ReachesTrans(env, tok, t, next, t[1..], k, r.rest);
      } else {
        ReportsBack(env, tok, t, next, t[1..], r);
      }
    }
  }

  lemma SoFarIsNumber(tok: Tok, pre: Text)
    requires NumberSoFar(tok, pre)
    ensures forall i | 0 <= i < |pre| :: IsNumberChar(pre[i])
  {
  }

  lemma NumberIsNotNul(c: char)
    requires IsNumberChar(c)
    ensures c != '\0'
  {
  }

  lemma NumberRunsOut(env: Env, tok: Tok, pre: Text)
    requires NumberSoFar(tok, pre) && pre != []
    ensures ReadNumber(env, pre) == Ran && Reports<Value>(env, tok, [], Ran)
  {
    NumberRunEnds(pre);
    hide IsNumberChar, NumberRun;
  }

  // ---- quoted texts

  ghost function Closed(q: Quoted, s: Text): State {
    match q
    case AsValue => EatWs(Finish(JString(s)))
    case AsKey(ms) => EatWs(FieldEnd(ms, CString(s)))
  }

  ghost predicate IsQuote(c: char) {
    c == '"' || c == '\''
  }

  // Reading goes on from tok as r says; k is where a complete text leaves the tokener, with st_pos zero or not.
  ghost predicate TextFollows(env: Env, tok: Tok, t: Text, q: Quoted, r: Read<Text>, clear: bool, k: Tok) {
    if r.Got? then
      && k.state == Closed(q, r.value) && k.under == tok.under && (k.stPos == 0) == clear
      && Reaches(env, tok, t, k, r.rest)
    else Reports(env, tok, t, r)
  }

  lemma TextBack(env: Env, tok: Tok, t: Text, next: Tok, u: Text, q: Quoted, r: Read<Text>, clear: bool, k: Tok)
    requires Reaches(env, tok, t, next, u) && next.under == tok.under && TextFollows(env, next, u, q, r, clear, k)
    ensures TextFollows(env, tok, t, q, r, clear, k)
  {
    if r.Got? {
      ReachesTrans(env, tok, t, next, u, k, r.rest);
    } else {
      ReportsBack(env, tok, t, next, u, r);
    }
  }

  // The four digits of an escape, up to but not including the last one
  ghost predicate InDigits(tok: Tok, q: Quoted, hi: nat, acc: nat) {
    && tok.state == EscapeUnicode(q, hi) && tok.stPos < 4
    && tok.ucs == acc * 16 * Weight(tok.stPos) && tok.ucs < 0x10000
  }

  ghost predicate DigitsFollow(env: Env, tok: Tok, t: Text, q: Quoted, hi: nat, r: Read<nat>, k: Tok, u: Text) {
    if r.Got? then
      && u != [] && r.rest == u[1..] && IsHexDigit(u[0])
      && k.state == EscapeUnicode(q, hi) && k.stPos == 3 && AddHexDigit(k.ucs, u[0], 3) == r.value < 0x10000
      && k.under == tok.under && k.pb == tok.pb && k.quote == tok.quote && Reaches(env, tok, t, k, u)
    else Reports(env, tok, t, r)
  }

  lemma HexDigitIsSmall(c: char)
    requires IsHexDigit(c)
    ensures 0 <= HexDigit(c) < 16
  {
  }

  lemma HexDigitAdds(acc: nat, c: char, stPos: nat)
    requires IsHexDigit(c) && stPos < 4 && acc * 16 * Weight(stPos) < 0x10000
    ensures 0 <= HexDigit(c) < 16
    ensures AddHexDigit(acc * 16 * Weight(stPos), c, stPos) == (acc * 16 + HexDigit(c)) * Weight(stPos) < 0x10000
  {
    hide HexDigit, IsHexDigit, Weight;
    HexDigitIsSmall(c);
    WeightsAre(stPos);
    WeighedIn(acc, HexDigit(c), Weight(stPos));
  }

  lemma WeightsAre(stPos: nat)
    requires stPos < 4
    ensures Weight(stPos) in {1, 16, 256, 4096} && (stPos == 0 ==> Weight(stPos) == 4096)
  {
  }

  lemma WeighedIn(acc: nat, h: nat, w: nat)
    requires w in {1, 16, 256, 4096} && acc * 16 * w < 0x10000 && h < 16
    ensures acc * 16 * w + h * w == (acc * 16 + h) * w < 0x10000
  {
    if w == 1 {
    } else if w == 16 {
    } else if w == 256 {
    } else {
    }
  }

  // The terminator is taken for a digit, and the call is over.
  lemma NulIsEaten(env: Env, tok: Tok, t: Text, q: Quoted, hi: nat, acc: nat)
    requires InDigits(tok, q, hi, acc) && t != [] && t[0] == '\0'
    ensures var m := Step(env, tok, t);
            && m.Eat? && m.n == (if tok.stPos == 3 then NulTakes(t, acc, hi) else 1)
            && forall e: Error :: Out(env, Suspend(m.tok), e, '\0').err == UnexpectedEof &&
                                  Out(env, Suspend(m.tok), e, '\0').value == JNull &&
                                  Out(env, Suspend(m.tok), e, '\0').used == 0
  {
    hide AddHexDigit, DecodePair, Utf8, IsHighSurrogate, IsLowSurrogate;
    hide StepEatWs, StepComment, StepAt, StepNull, StepBoolean, StepInfinity, StepNumber, StepBody, StepEscape;
  }

  lemma NoDigit(env: Env, tok: Tok, t: Text)
    requires tok.state.EscapeUnicode? && t != [] && !IsHexDigit(t[0]) && t[0] != '\0'
    ensures Step(env, tok, t) == Stop(tok, BadString)
  {
    hide IsHexDigit, StepCode, CodeAt, Joins;
  }

  lemma DigitsStop(env: Env, tok: Tok, t: Text, q: Quoted, hi: nat, acc: nat)
    requires InDigits(tok, q, hi, acc) && (t == [] || !IsHexDigit(t[0]))
    ensures Reports(env, tok, t, Digits(t, 4 - tok.stPos, acc, hi))
  {
    hide Step, IsHexDigit;
    if t == [] {
      Starved(env, tok);
    } else if t[0] == '\0' {
      hide Out, NulTakes;
      NulIsEaten(env, tok, t, q, hi, acc);
    } else {
      NoDigit(env, tok, t);
    }
  }

  function DigitIn(tok: Tok, c: char): Tok
    requires tok.stPos < 3
  {
    tok.(ucs := AddHexDigit(tok.ucs, c, tok.stPos), stPos := tok.stPos + 1)
  }

  lemma DigitTaken(env: Env, tok: Tok, t: Text)
    requires tok.state.EscapeUnicode? && tok.stPos < 3 && t != [] && IsHexDigit(t[0])
    ensures Step(env, tok, t) == Eat(DigitIn(tok, t[0]), 1) && t[0] != '\0'
  {
    hide AddHexDigit, CodeAt, StepCode;
  }

  lemma WeightFalls(n: nat, stPos: nat)
    requires stPos < 3
    ensures n * Weight(stPos) == n * 16 * Weight(stPos + 1)
  {
  }

  lemma DigitsGoOn(env: Env, tok: Tok, t: Text, q: Quoted, hi: nat, acc: nat) returns (next: Tok)
    requires InDigits(tok, q, hi, acc) && t != [] && IsHexDigit(t[0]) && tok.stPos < 3
    ensures Step(env, tok, t) == Eat(next, 1) && t[0] != '\0'
    ensures InDigits(next, q, hi, acc * 16 + HexDigit(t[0])) && next.stPos == tok.stPos + 1
    ensures next.under == tok.under && next.pb == tok.pb && next.quote == tok.quote
  {
    hide Step, HexDigit, AddHexDigit, IsHexDigit, Weight;
    HexDigitAdds(acc, t[0], tok.stPos);
    DigitTaken(env, tok, t);
    WeightFalls(acc * 16 + HexDigit(t[0]), tok.stPos);
    next := DigitIn(tok, t[0]);
  }

  lemma {:induction false} DigitsAre(env: Env, tok: Tok, t: Text, q: Quoted, hi: nat, acc: nat)
    returns (k: Tok, u: Text)
    requires InDigits(tok, q, hi, acc)
    ensures DigitsFollow(env, tok, t, q, hi, Digits(t, 4 - tok.stPos, acc, hi), k, u)
    ensures tok.stPos < 3 && Digits(t, 4 - tok.stPos, acc, hi).Got? ==> |u| < |t|
    decreases |t|
  {
    hide Step, Run, HexDigit;
    k, u := tok, t;
    var r := Digits(t, 4 - tok.stPos, acc, hi);
    if t == [] || !IsHexDigit(t[0]) {
      DigitsStop(env, tok, t, q, hi, acc);
    } else if tok.stPos < 3 {
      var next := DigitsGoOn(env, tok, t, q, hi, acc);
      Eaten(env, tok, t, next, 1);
      k, u := DigitsAre(env, next, t[1..], q, hi, acc * 16 + HexDigit(t[0]));
      if r.Got? {
        ReachesTrans(env, tok, t, next, t[1..], k, u);
      } else {
        ReportsBack(env, tok, t, next, t[1..], r);
      }
    } else {
      HexDigitAdds(acc, t[0], 3);
      assert Digits(t[1..], 0, acc * 16 + HexDigit(t[0]), hi).Got?;
    }
  }

  // One character of a quoted text
  lemma BodyGoesOn(env: Env, tok: Tok, t: Text, q: Quoted)
    requires tok.state == Body(q) && IsQuote(tok.quote) && t != []
    ensures var c := t[0];
            Step(env, tok, t) ==
            if c == tok.quote then Eat(To(tok, Closed(q, tok.pb)), 1)
            else if c == '\\' then Eat(To(tok, Escape(q)), 1)
            else Eat(Append(tok, [c]), 1)
  {
  }

  lemma EscapeGoesOn(env: Env, tok: Tok, t: Text, q: Quoted)
    requires tok.state == Escape(q) && t != []
    ensures var c := t[0];
            Step(env, tok, t) ==
            if Unescape(c).Some? then Eat(Append(To(tok, Body(q)), [Unescape(c).value]), 1)
            else if c == 'u' then Eat(To(tok, EscapeUnicode(q, 0)).(ucs := 0, stPos := 0), 1)
            else Stop(tok, BadString)
  {
  }

  // The text runs out, or a terminator comes, in a state that holds no value.
  lemma Starved(env: Env, tok: Tok)
    requires tok.state.Body? || tok.state.Escape? || tok.state.EscapeUnicode?
    ensures Reports<Text>(env, tok, [], Ran)
  {
  }

  lemma Terminated(env: Env, tok: Tok, t: Text, k: Tok, n: nat)
    requires t != [] && t[0] == '\0' && Step(env, tok, t) == Eat(k, n) && n == 1 && Held(k.state).None?
    ensures Reports<Text>(env, tok, t, Fail(UnexpectedEof, t[1..]))
  {
  }

  lemma {:induction false} TextIs(env: Env, tok: Tok, t: Text, q: Quoted) returns (k: Tok)
    requires tok.state == Body(q) && IsQuote(tok.quote)
    ensures TextFollows(env, tok, t, q, ReadText(t, tok.quote, tok.pb), tok.stPos == 0 && Codeless(t, tok.quote), k)
    decreases |t|, 1
  {
    hide Step, Run, Reports, Reaches;
    k := tok;
    var r := ReadText(t, tok.quote, tok.pb);
    var clear := tok.stPos == 0 && Codeless(t, tok.quote);
    if t == [] {
      Starved(env, tok);
    } else {
      BodyGoesOn(env, tok, t, q);
      var c := t[0];
      if c == tok.quote {
        k := To(tok, Closed(q, tok.pb));
        Eaten(env, tok, t, k, 1);
      } else if c == '\0' {
        Terminated(env, tok, t, Append(tok, [c]), 1);
      } else if c == '\\' {
        var next := To(tok, Escape(q));
        Eaten(env, tok, t, next, 1);
        k := EscapeIs(env, next, t[1..], q);
        TextBack(env, tok, t, next, t[1..], q, r, clear, k);
      } else {
        var next := Append(tok, [c]);
        Eaten(env, tok, t, next, 1);
        k := TextIs(env, next, t[1..], q);
        TextBack(env, tok, t, next, t[1..], q, r, clear, k);
      }
    }
  }

  // Behind a backslash
  ghost function ReadEscape(t: Text, quote: char, acc: Text): Read<Text> {
    if t == [] then Ran
    else if Unescape(t[0]).Some? then ReadText(t[1..], quote, acc + [Unescape(t[0]).value])
    else if t[0] != 'u' then FailAt(BadString, t)
    else
      var (code, rest) :- Digits(t[1..], 4, 0, 0);
      ReadCode(rest, quote, acc, code)
  }

  predicate EscapeCodeless(t: Text, quote: char) {
    t == [] || (t[0] != 'u' && Codeless(t[1..], quote))
  }

  lemma {:induction false} EscapeIs(env: Env, tok: Tok, t: Text, q: Quoted) returns (k: Tok)
    requires tok.state == Escape(q) && IsQuote(tok.quote)
    ensures TextFollows(env, tok, t, q, ReadEscape(t, tok.quote, tok.pb),
                        tok.stPos == 0 && EscapeCodeless(t, tok.quote), k)
    decreases |t|, 2
  {
    hide Step, Run, Reports, Reaches, ReadText, ReadCode;
    k := tok;
    var r := ReadEscape(t, tok.quote, tok.pb);
    if t == [] {
      Starved(env, tok);
    } else {
      EscapeGoesOn(env, tok, t, q);
      if Unescape(t[0]).Some? {
        var next := Append(To(tok, Body(q)), [Unescape(t[0]).value]);
        Eaten(env, tok, t, next, 1);
        k := TextIs(env, next, t[1..], q);
        TextBack(env, tok, t, next, t[1..], q, r, tok.stPos == 0 && EscapeCodeless(t, tok.quote), k);
      } else if t[0] == 'u' {
        var next := To(tok, EscapeUnicode(q, 0)).(ucs := 0, stPos := 0);
        Eaten(env, tok, t, next, 1);
        k := UnicodeIs(env, next, t[1..], q, 0);
        assert tok.pb + "" == tok.pb;
        assert r == ReadDigits(t[1..], 0, tok.quote, tok.pb);
        TextBack(env, tok, t, next, t[1..], q, r, false, k);
      } else {
        Stopped<Text>(env, tok, t, tok, BadString);
      }
    }
  }

  // Four digits and what they stand for, with the high surrogate hi in front of them
  ghost function ReadDigits(t: Text, hi: nat, quote: char, acc: Text): Read<Text> {
    var (code, rest) :- Digits(t, 4, 0, hi);
    if hi != 0 && IsLowSurrogate(code) then ReadCode(rest, quote, acc, DecodePair(hi, code))
    else ReadCode(rest, quote, acc + (if hi != 0 then REPLACEMENT else ""), code)
  }

  lemma {:induction false} UnicodeIs(env: Env, tok: Tok, t: Text, q: Quoted, hi: nat) returns (k: Tok)
    requires tok.state == EscapeUnicode(q, hi) && tok.stPos == 0 && tok.ucs == 0 && IsQuote(tok.quote)
    ensures TextFollows(env, tok, t, q, ReadDigits(t, hi, tok.quote, tok.pb), false, k)
    decreases |t|, 0
  {
    hide Step, Run, Reports, Reaches, ReadText, ReadCode, Digits, IsLowSurrogate, DecodePair;
    var r := ReadDigits(t, hi, tok.quote, tok.pb);
    var m, u := DigitsAre(env, tok, t, q, hi, 0);
    var d := Digits(t, 4, 0, hi);
    if d.Got? {
      k := CodeIs(env, m, u, q, hi);
      assert tok.pb + "" == tok.pb;
      TextBack(env, tok, t, m, u, q, r, false, k);
    } else {
      k := tok;
      ReportsAs<nat, Text>(env, tok, t, d);
    }
  }

  lemma CodeGoesOn(env: Env, tok: Tok, u: Text, q: Quoted, hi: nat) returns (a: Tok)
    requires tok.state == EscapeUnicode(q, hi) && tok.stPos == 3 && u != [] && IsHexDigit(u[0])
    ensures Step(env, tok, u) == StepCode(a, u, q, CodeAt(tok, hi, u[0])) && u[0] != '\0'
    ensures a.pb == tok.pb + (if hi != 0 && !Joins(tok, hi, u[0]) then REPLACEMENT else "")
    ensures a.under == tok.under && a.quote == tok.quote
    ensures a.state == EscapeUnicode(q, 0) && a.stPos == 4
  {
    a := To(tok, EscapeUnicode(q, 0)).(ucs := CodeAt(tok, hi, u[0]), stPos := 4);
    a := Append(a, if hi != 0 && !Joins(tok, hi, u[0]) then REPLACEMENT else "");
    hide StepCode, CodeAt, Joins, AddHexDigit;
  }

  // The last digit, u[0]
  lemma {:induction false} CodeIs(env: Env, tok: Tok, u: Text, q: Quoted, hi: nat) returns (k: Tok)
    requires tok.state == EscapeUnicode(q, hi) && tok.stPos == 3 && IsQuote(tok.quote)
    requires u != [] && IsHexDigit(u[0])
    ensures var lone := hi != 0 && !Joins(tok, hi, u[0]);
            TextFollows(env, tok, u, q,
              ReadCode(u[1..], tok.quote, tok.pb + (if lone then REPLACEMENT else ""), CodeAt(tok, hi, u[0])), false, k)
    decreases |u|, 3
  {
    var code := CodeAt(tok, hi, u[0]);
    var a := CodeGoesOn(env, tok, u, q, hi);
    hide Step, Run, Reports, Reaches, ReadText, Digits, IsLowSurrogate, IsHighSurrogate, DecodePair, CodeAt, Joins,
         Utf8;
    var t := u[1..];
    var r := ReadCode(t, tok.quote, a.pb, code);
    var next: Tok;
    if code >= 0x800 && IsHighSurrogate(code) && |t| >= 2 && t[0] == '\\' && t[1] == 'u' {
      if |t| == 2 {
        next := Append(a, REPLACEMENT);
        Eaten(env, tok, u, next, 3);
        Starved(env, next);
        assert Digits(t[2..], 4, 0, code) == Ran;
        k := next;
        ReportsBack(env, tok, u, next, [], r);
      } else {
        next := To(a, EscapeUnicode(q, code)).(ucs := 0, stPos := 0);
        Eaten(env, tok, u, next, 3);
        k := UnicodeIs(env, next, u[3..], q, code);
        assert t[2..] == u[3..];
        TextBack(env, tok, u, next, u[3..], q, r, false, k);
      }
    } else {
      var bytes := if code >= 0x800 && (IsHighSurrogate(code) || IsLowSurrogate(code)) then REPLACEMENT else Utf8(code);
      next := Append(To(a, Body(q)), bytes);
      Eaten(env, tok, u, next, 1);
      k := TextIs(env, next, t, q);
      TextBack(env, tok, u, next, t, q, r, false, k);
    }
  }

  // ---- values

  // Reading a value from tok; k is where a complete value leaves the tokener.
  ghost predicate ValueFollows(env: Env, tok: Tok, t: Text, under: Stack, r: Read<Parsed>, k: Tok) {
    if r.Got? then
      && k.state == EatWs(Finish(r.value.value)) && k.under == under && (k.stPos == 0) == r.value.clear
      && Reaches(env, tok, t, k, r.rest)
    else Reports(env, tok, t, r)
  }

  lemma ValueBack(env: Env, tok: Tok, t: Text, next: Tok, u: Text, under: Stack, r: Read<Parsed>, k: Tok)
    requires Reaches(env, tok, t, next, u) && ValueFollows(env, next, u, under, r, k)
    ensures ValueFollows(env, tok, t, under, r, k)
  {
    if r.Got? {
      ReachesTrans(env, tok, t, next, u, k, r.rest);
    } else {
      ReportsBack(env, tok, t, next, u, r);
    }
  }

  // Reading ended in front of the value.
  lemma ValueStops<T>(env: Env, tok: Tok, t: Text, next: Tok, u: Text, under: Stack, r: Read<T>, k: Tok)
    requires Reaches(env, tok, t, next, u) && !r.Got? && Reports(env, next, u, r)
    ensures ValueFollows(env, tok, t, under, r.PropagateFailure(), k)
  {
    ReportsBack(env, tok, t, next, u, r);
    ReportsAs<T, Parsed>(env, tok, t, r);
  }

  lemma Stays(env: Env, tok: Tok, t: Text)
    ensures Reaches(env, tok, t, tok, t)
  {
  }

  // A word, from its first character on
  lemma WordHere(env: Env, tok: Tok, t: Text, s: State, word0: Text, v0: Value, word1: Text, v1: Value, err: Fault)
    returns (k: Tok)
    requires t != [] && t[0] != '-' && Step(env, tok, t) == Redo(To(tok, s).(pb := "", stPos := 0))
    requires |word0| >= 3 && |word1| >= 3 && '\0' !in word0 && '\0' !in word1
    requires Apart(env.strict, t, word0, word1)
    requires WordStep(env, To(tok, s).(pb := "", stPos := 0), t[0], word0, v0, word1, v1, err)
    ensures ValueFollows(env, tok, t, tok.under, Matched(ReadWord(env, t, word0, v0, word1, v1, err)), k)
  {
    hide Step, Run, Reports, Reaches, ReadWord, WordStep, Apart;
    var next := To(tok, s).(pb := "", stPos := 0);
    Redone(env, tok, t, next);
    FromTheStart(next, t);
    WordStepMinus(env, next, t[0], word0, v0, word1, v1, err);
    k := WordMatched(env, next, t, word0, v0, word1, v1, err);
    ValueBack(env, tok, t, next, t, tok.under, Matched(ReadWord(env, t, word0, v0, word1, v1, err)), k);
  }

  lemma FromTheStart(tok: Tok, t: Text)
    requires t != [] && tok.stPos == 0 && tok.pb == Minus(tok, t[0])
    ensures Buffered(tok, t, 0)
  {
    assert t[..0] == "";
  }

  lemma WordStepMinus(env: Env, tok: Tok, c: char, word0: Text, v0: Value, word1: Text, v1: Value, err: Fault)
    requires tok.pb == "" && c != '-'
    ensures Minus(tok, c) == ""
  {
  }

  // A whole word, from the first character compared on
  lemma WordMatched(env: Env, tok: Tok, t: Text, word0: Text, v0: Value, word1: Text, v1: Value, err: Fault)
    returns (k: Tok)
    requires |word0| >= 3 && |word1| >= 3 && '\0' !in word0 && '\0' !in word1
    requires Apart(env.strict, t, word0, word1) && Buffered(tok, t, 0)
    requires WordStep(env, tok, t[0], word0, v0, word1, v1, err)
    ensures ValueFollows(env, tok, t, tok.under, Matched(ReadWord(env, t, word0, v0, word1, v1, err)), k)
  {
    hide Step, Run, Reports, Reaches, ReadWord, WordStep, Apart, Buffered;
    var r := ReadWord(env, t, word0, v0, word1, v1, err);
    k := WordIs(env, tok, t, 0, word0, v0, word1, v1, err);
    assert t[0..] == t;
    if !r.Got? {
      ReportsAs<Value, Parsed>(env, tok, t, r);
    }
  }

  lemma InfinityApart(exact: bool, t: Text)
    ensures Apart(exact, t, "Infinity", "Infinity")
  {
  }

  lemma NullApart(exact: bool, t: Text)
    ensures Apart(exact, t, "null", "NaN")
  {
  }

  lemma BooleanApart(exact: bool, t: Text)
    ensures Apart(exact, t, "true", "false")
  {
  }

  lemma KeywordHere(env: Env, tok: Tok, t: Text) returns (k: Tok)
    requires tok.state == At(Start) && t != [] && t[0] in {'I', 'i', 'N', 'n', 'T', 't', 'F', 'f'}
    ensures ValueFollows(env, tok, t, tok.under, ReadHere(env, t, Depth(tok.under), tok.stPos == 0), k)
  {
    hide Step, Run, ValueFollows, ReadHere, ReadWord, Apart, WordStep;
    var c := t[0];
    KeywordStarts(env, tok, t);
    KeywordReads(env, t, Depth(tok.under), tok.stPos == 0);
    WordsAreClean();
    if c == 'I' || c == 'i' {
      InfinityApart(env.strict, t);
      k := WordHere(env, tok, t, Infinity, "Infinity", JInfinity(false), "Infinity", JInfinity(false), UnexpectedChar);
    } else if c == 'N' || c == 'n' {
      NullApart(env.strict, t);
      k := WordHere(env, tok, t, Null, "null", JNull, "NaN", JNaN, BadNull);
    } else {
      BooleanApart(env.strict, t);
      k := WordHere(env, tok, t, Boolean, "true", JBool(true), "false", JBool(false), BadBoolean);
    }
  }

  lemma WordsAreClean()
    ensures '\0' !in "Infinity" && '\0' !in "null" && '\0' !in "NaN" && '\0' !in "true" && '\0' !in "false"
  {
  }

  lemma KeywordStarts(env: Env, tok: Tok, t: Text)
    requires tok.state == At(Start) && t != []
    ensures var reset := tok.(pb := "", stPos := 0);
            && (t[0] in {'I', 'i'} ==>
                  && Step(env, tok, t) == Redo(To(reset, Infinity))
                  && WordStep(env, To(reset, Infinity), t[0], "Infinity", JInfinity(false),
                              "Infinity", JInfinity(false),
                              UnexpectedChar))
            && (t[0] in {'N', 'n'} ==>
                  && Step(env, tok, t) == Redo(To(reset, Null))
                  && WordStep(env, To(reset, Null), t[0], "null", JNull, "NaN", JNaN, BadNull))
            && (t[0] in {'T', 't', 'F', 'f'} ==>
                  && Step(env, tok, t) == Redo(To(reset, Boolean))
                  && WordStep(env, To(reset, Boolean), t[0], "true", JBool(true), "false", JBool(false), BadBoolean))
  {
    hide StepEatWs, StepComment, StepNull, StepBoolean, StepInfinity, StepNumber, StepBody, StepEscape, StepUnicode;
    hide StepFinish, StepElement, StepArraySep, StepFieldStart, StepFieldEnd, StepObjectValue, StepObjectSep;
  }

  // A finished element goes into the array below, and the separator comes next.
  lemma ArrayTakes(env: Env, tok: Tok, t: Text, es: seq<Value>, v: Value, under: Stack) returns (k: Tok)
    requires tok.state == At(Finish(v)) && tok.under == ArrayLevel(es, under) && t != [] && Counts(env, t[0])
    ensures k.state == At(ArraySep(es + [v])) && k.under == under && k.stPos == tok.stPos && Reaches(env, tok, t, k, t)
  {
    var a := To(tok, ArrayAdd(es, v)).(under := under);
    var b := To(a, EatWs(ArraySep(es + [v])));
    k := To(b, At(ArraySep(es + [v])));
    Redone(env, tok, t, a);
    Redone(env, a, t, b);
    Redone(env, b, t, k);
    hide Run;
    ReachesTrans(env, tok, t, a, t, b, t);
    ReachesTrans(env, tok, t, b, t, k, t);
  }

  lemma ObjectTakes(env: Env, tok: Tok, t: Text, ms: Members, key: Text, v: Value, under: Stack) returns (k: Tok)
    requires tok.state == At(Finish(v)) && tok.under == ObjectLevel(ms, key, under) && t != [] && Counts(env, t[0])
    ensures k.state == At(ObjectSep(Put(ms, key, v))) && k.under == under && k.stPos == tok.stPos
    ensures Reaches(env, tok, t, k, t)
  {
    var a := To(tok, ObjectValueAdd(ms, key, v)).(under := under);
    var b := To(a, EatWs(ObjectSep(Put(ms, key, v))));
    k := To(b, At(ObjectSep(Put(ms, key, v))));
    Redone(env, tok, t, a);
    Redone(env, a, t, b);
    Redone(env, b, t, k);
    hide Run, Put;
    ReachesTrans(env, tok, t, a, t, b, t);
    ReachesTrans(env, tok, t, b, t, k, t);
  }

  lemma ValueEaten(env: Env, tok: Tok, t: Text, v: Value)
    requires t != [] && t[0] != '\0' && Step(env, tok, t) == Eat(Yield(tok, v), 1)
    ensures ValueFollows(env, tok, t, tok.under, Got(Parsed(v, tok.stPos == 0), t[1..]), Yield(tok, v))
  {
    Eaten(env, tok, t, Yield(tok, v), 1);
  }

  lemma ValueStopped(env: Env, tok: Tok, t: Text, err: Error, k: Tok)
    requires t != [] && Step(env, tok, t) == Stop(tok, err) && Held(tok.state).None? && err != Success
    ensures ValueFollows(env, tok, t, tok.under, FailAt(err, t), k)
  {
    Stopped<Parsed>(env, tok, t, tok, err);
  }

  lemma {:induction false} ValueIs(env: Env, tok: Tok, t: Text) returns (k: Tok)
    requires tok.state == EatWs(Start)
    ensures ValueFollows(env, tok, t, tok.under, ReadValue(env, t, Depth(tok.under), tok.stPos == 0), k)
    decreases |t|, 2
  {
    hide Step, Run, Reports, Reaches, Next, ReadHere;
    var r := ReadValue(env, t, Depth(tok.under), tok.stPos == 0);
    var m := NextIs(env, tok, t, Start);
    var n := Next(env, t, None);
    Stays(env, tok, t);
    if n.Got? {
      k := HereIs(env, m, n.rest);
      ValueBack(env, tok, t, m, n.rest, tok.under, r, k);
    } else {
      k := tok;
      ValueStops(env, tok, t, tok, t, tok.under, n, k);
    }
  }

  lemma {:induction false} HereIs(env: Env, tok: Tok, t: Text) returns (k: Tok)
    requires tok.state == At(Start) && t != []
    ensures ValueFollows(env, tok, t, tok.under, ReadHere(env, t, Depth(tok.under), tok.stPos == 0), k)
    decreases |t|, 1
  {
    var c := t[0];
    if c in {'I', 'i', 'N', 'n', 'T', 't', 'F', 'f'} {
      k := KeywordHere(env, tok, t);
    } else {
      k := OtherHere(env, tok, t);
    }
  }

  lemma {:induction false} OtherHere(env: Env, tok: Tok, t: Text) returns (k: Tok)
    requires tok.state == At(Start) && t != []
    requires t[0] !in {'I', 'i', 'N', 'n', 'T', 't', 'F', 'f'}
    ensures ValueFollows(env, tok, t, tok.under, ReadHere(env, t, Depth(tok.under), tok.stPos == 0), k)
    decreases |t|, 0
  {
    hide Run, Reports, Reaches, ReadElements, ReadMembers, ReadText, ReadNumber, ReadWord, TextFollows;
    var r := ReadHere(env, t, Depth(tok.under), tok.stPos == 0);
    var c := t[0];
    if c == '{' {
      var next := To(tok, EatWs(FieldStart([], false)));
      Eaten(env, tok, t, next, 1);
      k := MembersAre(env, next, t[1..], [], false);
      ValueBack(env, tok, t, next, t[1..], tok.under, r, k);
    } else if c == '[' {
      var next := To(tok, EatWs(Element([], false)));
      Eaten(env, tok, t, next, 1);
      k := ElementsAre(env, next, t[1..], [], false);
      ValueBack(env, tok, t, next, t[1..], tok.under, r, k);
    } else if c == '"' || (c == '\'' && !env.strict) {
      k := StringHere(env, tok, t);
    } else if StartsMinusInfinity(t) {
      k := MinusHere(env, tok, t);
    } else if IsDigit(c) || c == '-' {
      k := NumberHere(env, tok, t);
    } else {
      k := tok;
      ValueStopped(env, tok, t, UnexpectedChar, k);
    }
  }

  lemma StringHere(env: Env, tok: Tok, t: Text) returns (k: Tok)
    requires tok.state == At(Start) && t != [] && (t[0] == '"' || (t[0] == '\'' && !env.strict))
    ensures ValueFollows(env, tok, t, tok.under, ReadHere(env, t, Depth(tok.under), tok.stPos == 0), k)
  {
    var next := To(tok, Body(AsValue)).(pb := "", quote := t[0]);
    Eaten(env, tok, t, next, 1);
    k := TextIs(env, next, t[1..], AsValue);
    hide Step, Run, Reports, Reaches, ReadText, Codeless;
    var s := ReadText(t[1..], t[0], "");
    if s.Got? {
      ReachesTrans(env, tok, t, next, t[1..], k, s.rest);
    } else {
      ValueStops(env, tok, t, next, t[1..], tok.under, s, k);
    }
  }

  lemma NumberHere(env: Env, tok: Tok, t: Text) returns (k: Tok)
    requires tok.state == At(Start) && t != [] && (IsDigit(t[0]) || t[0] == '-') && !StartsMinusInfinity(t)
    ensures ValueFollows(env, tok, t, tok.under, ReadHere(env, t, Depth(tok.under), tok.stPos == 0), k)
  {
    var next := To(tok, Number(0)).(pb := "", isDouble := false);
    Redone(env, tok, t, next);
    k := NumberIs(env, next, t, "");
    assert "" + t == t;
    hide Step, Run, Reports, Reaches, ReadNumber;
    var r := ReadNumber(env, t);
    if r.Got? {
      ReachesTrans(env, tok, t, next, t, k, r.rest);
    } else {
      ReportsBack(env, tok, t, next, t, r);
      ReportsAs<Value, Parsed>(env, tok, t, r);
    }
  }

  // "-I" is matched against "Infinity" from st_pos on: from the start if that is zero, and otherwise against what can
  // not be there.
  lemma MinusHere(env: Env, tok: Tok, t: Text) returns (k: Tok)
    requires tok.state == At(Start) && StartsMinusInfinity(t)
    ensures ValueFollows(env, tok, t, tok.under, ReadHere(env, t, Depth(tok.under), tok.stPos == 0), k)
  {
    var a := To(tok, Number(0)).(pb := "", isDouble := false);
    var b := To(a, Number(1)).(pb := "-");
    var c := To(b, Infinity);
    hide Step, Run, Reports, Reaches, ReadHere, ReadWord, Matched;
    MinusSteps(env, tok, t);
    MinusReads(env, t, Depth(tok.under), tok.stPos == 0);
    var u := t[1..];
    Redone(env, tok, t, a);
    Eaten(env, a, t, b, 1);
    Redone(env, b, u, c);
    ReachesTrans(env, tok, t, a, t, b, u);
    ReachesTrans(env, tok, t, b, u, c, u);
    if tok.stPos == 0 {
      k := MinusMatched(env, c, u);
      ValueBack(env, tok, t, c, u, tok.under, ReadHere(env, t, Depth(tok.under), true), k);
    } else {
      k := tok;
      MinusMissed(env, c, u);
      Stopped<Parsed>(env, c, u, Append(c, [u[0]]), UnexpectedChar);
      ReportsBack<Parsed>(env, tok, t, c, u, FailAt(UnexpectedChar, u));
    }
  }

  lemma MinusMatched(env: Env, tok: Tok, u: Text) returns (k: Tok)
    requires tok.state == Infinity && tok.pb == "-" && tok.stPos == 0 && u != []
    ensures ValueFollows(env, tok, u, tok.under,
              Matched(ReadWord(env, u, "Infinity", JInfinity(true), "Infinity", JInfinity(true), UnexpectedChar)), k)
  {
    hide Run, Reports, Reaches, ReadWord, Matched, Apart;
    InfinityApart(env.strict, u);
    WordsAreClean();
    FromTheStart(tok, u);
    k := WordMatched(env, tok, u, "Infinity", JInfinity(true), "Infinity", JInfinity(true), UnexpectedChar);
  }

  lemma MinusSteps(env: Env, tok: Tok, t: Text)
    requires tok.state == At(Start) && StartsMinusInfinity(t)
    ensures var a := To(tok, Number(0)).(pb := "", isDouble := false);
            var b := To(a, Number(1)).(pb := "-");
            && Step(env, tok, t) == Redo(a) && Step(env, a, t) == Eat(b, 1)
            && Step(env, b, t[1..]) == Redo(To(b, Infinity))
  {
    hide StepEatWs, StepComment, StepNull, StepBoolean, StepInfinity, StepBody, StepEscape, StepUnicode, ScanInt64;
    assert "" + ['-'] == "-" && t[1..][0] == t[1];
  }

  lemma MinusMissed(env: Env, tok: Tok, u: Text)
    requires tok.state == Infinity && tok.pb == "-" && tok.stPos > 0 && u != []
    ensures Step(env, tok, u) == Stop(Append(tok, [u[0]]), UnexpectedChar)
  {
    assert (tok.pb + [u[0]])[1..] == [u[0]];
  }

  // ---- arrays

  lemma {:induction false} ElementsAre(env: Env, tok: Tok, t: Text, es: seq<Value>, afterSep: bool) returns (k: Tok)
    requires tok.state == EatWs(Element(es, afterSep))
    ensures ValueFollows(env, tok, t, tok.under, ReadElements(env, t, Depth(tok.under), es, afterSep, tok.stPos == 0),
                         k)
    decreases |t|, 5
  {
    hide Step, Run, Reports, Reaches, Next, ReadElement;
    var m := NextIs(env, tok, t, Element(es, afterSep));
    var n := Next(env, t, None);
    Stays(env, tok, t);
    if n.Got? {
      k := ElementIs(env, m, n.rest, es, afterSep);
      ValueBack(env, tok, t, m, n.rest, tok.under,
                ReadElement(env, n.rest, Depth(tok.under), es, afterSep, tok.stPos == 0), k);
    } else {
      k := tok;
      ValueStops(env, tok, t, tok, t, tok.under, n, k);
    }
  }

  lemma {:induction false} ElementIs(env: Env, tok: Tok, t: Text, es: seq<Value>, afterSep: bool) returns (k: Tok)
    requires tok.state == At(Element(es, afterSep)) && t != []
    ensures ValueFollows(env, tok, t, tok.under, ReadElement(env, t, Depth(tok.under), es, afterSep, tok.stPos == 0), k)
    decreases |t|, 4
  {
    hide Run, Reports, Reaches, Next, ReadValue, ReadElements, ElementsTail;
    var depth := Depth(tok.under);
    var r := ReadElement(env, t, depth, es, afterSep, tok.stPos == 0);
    if t[0] == ']' {
      k := Yield(tok, JArray(es));
      if afterSep && env.strict {
        ValueStopped(env, tok, t, UnexpectedChar, k);
      } else {
        ValueEaten(env, tok, t, JArray(es));
      }
    } else if depth >= env.maxDepth - 1 {
      k := tok;
      ValueStopped(env, tok, t, TooDeep, k);
    } else {
      var p := To(tok, EatWs(Start)).(under := ArrayLevel(es, tok.under));
      Redone(env, tok, t, p);
      k := InnerElement(env, p, t, es, tok.under);
      ValueBack(env, tok, t, p, t, tok.under, r, k);
    }
  }

  lemma {:induction false} InnerElement(env: Env, tok: Tok, t: Text, es: seq<Value>, under: Stack) returns (k: Tok)
    requires tok.state == EatWs(Start) && tok.under == ArrayLevel(es, under) && t != []
    ensures var v := ReadValue(env, t, Depth(under) + 1, tok.stPos == 0);
            ValueFollows(env, tok, t, under,
              if !v.Got? then v else
              var n := Next(env, v.rest, Some(v.value.value));
              if !n.Got? then n.PropagateFailure()
              else ElementsTail(env, n.rest, Depth(under), es + [v.value.value], v.value.clear), k)
    decreases |t|, 3
  {
    hide Step, Run, Reports, Reaches, Next, ReadValue, ReadElements, ElementsTail;
    var v := ReadValue(env, t, Depth(under) + 1, tok.stPos == 0);
    k := ValueIs(env, tok, t);
    if v.Got? {
      var b := k;
      var c := NextIs(env, b, v.rest, Finish(v.value.value));
      var n := Next(env, v.rest, Some(v.value.value));
      if n.Got? {
        var d := ArrayTakes(env, c, n.rest, es, v.value.value, under);
        k := SeparatorIs(env, d, n.rest, es + [v.value.value]);
        var r := ElementsTail(env, n.rest, Depth(under), es + [v.value.value], v.value.clear);
        ValueBack(env, c, n.rest, d, n.rest, under, r, k);
        ValueBack(env, b, v.rest, c, n.rest, under, r, k);
        ValueBack(env, tok, t, b, v.rest, under, r, k);
      } else {
        ValueStops(env, tok, t, b, v.rest, under, n, k);
      }
    }
  }

  lemma {:induction false} SeparatorIs(env: Env, tok: Tok, t: Text, es: seq<Value>) returns (k: Tok)
    requires tok.state == At(ArraySep(es)) && t != []
    ensures ValueFollows(env, tok, t, tok.under, ElementsTail(env, t, Depth(tok.under), es, tok.stPos == 0), k)
    decreases |t|, 0
  {
    hide Run, Reports, Reaches, ReadElements;
    if t[0] == ']' {
      k := Yield(tok, JArray(es));
      ValueEaten(env, tok, t, JArray(es));
    } else if t[0] == ',' {
      var next := To(tok, EatWs(Element(es, true)));
      Eaten(env, tok, t, next, 1);
      k := ElementsAre(env, next, t[1..], es, true);
      ValueBack(env, tok, t, next, t[1..], tok.under,
                ReadElements(env, t[1..], Depth(tok.under), es, true, tok.stPos == 0), k);
    } else {
      k := tok;
      ValueStopped(env, tok, t, BadArray, k);
    }
  }

  // ---- objects

  lemma {:induction false} MembersAre(env: Env, tok: Tok, t: Text, ms: Members, afterSep: bool) returns (k: Tok)
    requires tok.state == EatWs(FieldStart(ms, afterSep))
    ensures ValueFollows(env, tok, t, tok.under, ReadMembers(env, t, Depth(tok.under), ms, afterSep, tok.stPos == 0), k)
    decreases |t|, 5
  {
    hide Step, Run, Reports, Reaches, Next, ReadKey;
    var depth := Depth(tok.under);
    var m := NextIs(env, tok, t, FieldStart(ms, afterSep));
    var n := Next(env, t, None);
    Stays(env, tok, t);
    if n.Got? {
      k := KeyIs(env, m, n.rest, ms, afterSep);
      ValueBack(env, tok, t, m, n.rest, tok.under, ReadKey(env, n.rest, depth, ms, afterSep, tok.stPos == 0), k);
    } else {
      k := tok;
      ValueStops(env, tok, t, tok, t, tok.under, n, k);
    }
  }

  lemma {:induction false} KeyIs(env: Env, tok: Tok, t: Text, ms: Members, afterSep: bool) returns (k: Tok)
    requires tok.state == At(FieldStart(ms, afterSep)) && t != []
    ensures ValueFollows(env, tok, t, tok.under, ReadKey(env, t, Depth(tok.under), ms, afterSep, tok.stPos == 0), k)
    decreases |t|, 4
  {
    hide Run, Reports, Reaches, ReadText, ReadMember, ReadMembers;
    var depth := Depth(tok.under);
    if t[0] == '}' {
      k := Yield(tok, JObject(ms));
      if afterSep && env.strict {
        ValueStopped(env, tok, t, UnexpectedChar, k);
      } else {
        ValueEaten(env, tok, t, JObject(ms));
      }
    } else if t[0] != '"' && t[0] != '\'' {
      k := tok;
      ValueStopped(env, tok, t, BadKeyName, k);
    } else {
      var next := To(tok, Body(AsKey(ms))).(quote := t[0], pb := "");
      Eaten(env, tok, t, next, 1);
      var b := TextIs(env, next, t[1..], AsKey(ms));
      var key := ReadText(t[1..], t[0], "");
      if key.Got? {
        k := MemberIs(env, b, key.rest, ms, CString(key.value));
        var r := ReadMember(env, key.rest, depth, ms, CString(key.value), b.stPos == 0);
        ValueBack(env, next, t[1..], b, key.rest, tok.under, r, k);
        ValueBack(env, tok, t, next, t[1..], tok.under, r, k);
      } else {
        k := tok;
        ValueStops(env, tok, t, next, t[1..], tok.under, key, k);
      }
    }
  }

  lemma {:induction false} MemberIs(env: Env, tok: Tok, t: Text, ms: Members, key: Text) returns (k: Tok)
    requires tok.state == EatWs(FieldEnd(ms, key))
    ensures ValueFollows(env, tok, t, tok.under, ReadMember(env, t, Depth(tok.under), ms, key, tok.stPos == 0), k)
    decreases |t|, 5
  {
    hide Run, Reports, Reaches, Next, ReadMemberValue;
    var depth := Depth(tok.under);
    var m := NextIs(env, tok, t, FieldEnd(ms, key));
    var n := Next(env, t, None);
    Stays(env, tok, t);
    if !n.Got? {
      k := tok;
      ValueStops(env, tok, t, tok, t, tok.under, n, k);
    } else if n.rest[0] != ':' {
      k := tok;
      ValueStopped(env, m, n.rest, BadKeySeparator, k);
      ValueBack(env, tok, t, m, n.rest, tok.under, FailAt(BadKeySeparator, n.rest), k);
    } else {
      var next := To(m, EatWs(ObjectValue(ms, key)));
      Eaten(env, m, n.rest, next, 1);
      k := MemberValueIs(env, next, n.rest[1..], ms, key);
      var r := ReadMemberValue(env, n.rest[1..], depth, ms, key, tok.stPos == 0);
      ValueBack(env, m, n.rest, next, n.rest[1..], tok.under, r, k);
      ValueBack(env, tok, t, m, n.rest, tok.under, r, k);
    }
  }

  lemma {:induction false} MemberValueIs(env: Env, tok: Tok, t: Text, ms: Members, key: Text) returns (k: Tok)
    requires tok.state == EatWs(ObjectValue(ms, key))
    ensures ValueFollows(env, tok, t, tok.under, ReadMemberValue(env, t, Depth(tok.under), ms, key, tok.stPos == 0), k)
    decreases |t|, 4
  {
    hide Run, Reports, Reaches, Next, ReadValue, ReadMembers, MembersTail, Put;
    var depth := Depth(tok.under);
    var r := ReadMemberValue(env, t, depth, ms, key, tok.stPos == 0);
    var m := NextIs(env, tok, t, ObjectValue(ms, key));
    var n := Next(env, t, None);
    Stays(env, tok, t);
    if !n.Got? {
      k := tok;
      ValueStops(env, tok, t, tok, t, tok.under, n, k);
    } else if depth >= env.maxDepth - 1 {
      k := tok;
      ValueStopped(env, m, n.rest, TooDeep, k);
      ValueBack(env, tok, t, m, n.rest, tok.under, r, k);
    } else {
      var p := To(m, EatWs(Start)).(under := ObjectLevel(ms, key, tok.under));
      Redone(env, m, n.rest, p);
      k := InnerMember(env, p, n.rest, ms, key, tok.under);
      ValueBack(env, m, n.rest, p, n.rest, tok.under, r, k);
      ValueBack(env, tok, t, m, n.rest, tok.under, r, k);
    }
  }

  lemma {:induction false} InnerMember(env: Env, tok: Tok, t: Text, ms: Members, key: Text, under: Stack)
    returns (k: Tok)
    requires tok.state == EatWs(Start) && tok.under == ObjectLevel(ms, key, under) && t != []
    ensures var v := ReadValue(env, t, Depth(under) + 1, tok.stPos == 0);
            ValueFollows(env, tok, t, under,
              if !v.Got? then v else
              var n := Next(env, v.rest, Some(v.value.value));
              if !n.Got? then n.PropagateFailure()
              else MembersTail(env, n.rest, Depth(under), Put(ms, key, v.value.value), v.value.clear), k)
    decreases |t|, 3
  {
    hide Step, Run, Reports, Reaches, Next, ReadValue, ReadMembers, MembersTail, Put;
    var v := ReadValue(env, t, Depth(under) + 1, tok.stPos == 0);
    k := ValueIs(env, tok, t);
    if v.Got? {
      var b := k;
      var c := NextIs(env, b, v.rest, Finish(v.value.value));
      var n := Next(env, v.rest, Some(v.value.value));
      if n.Got? {
        var d := ObjectTakes(env, c, n.rest, ms, key, v.value.value, under);
        k := CommaIs(env, d, n.rest, Put(ms, key, v.value.value));
        var r := MembersTail(env, n.rest, Depth(under), Put(ms, key, v.value.value), v.value.clear);
        ValueBack(env, c, n.rest, d, n.rest, under, r, k);
        ValueBack(env, b, v.rest, c, n.rest, under, r, k);
        ValueBack(env, tok, t, b, v.rest, under, r, k);
      } else {
        ValueStops(env, tok, t, b, v.rest, under, n, k);
      }
    }
  }

  lemma {:induction false} CommaIs(env: Env, tok: Tok, t: Text, ms: Members) returns (k: Tok)
    requires tok.state == At(ObjectSep(ms)) && t != []
    ensures ValueFollows(env, tok, t, tok.under, MembersTail(env, t, Depth(tok.under), ms, tok.stPos == 0), k)
    decreases |t|, 0
  {
    hide Run, Reports, Reaches, ReadMembers;
    if t[0] == '}' {
      k := Yield(tok, JObject(ms));
      ValueEaten(env, tok, t, JObject(ms));
    } else if t[0] == ',' {
      var next := To(tok, EatWs(FieldStart(ms, true)));
      Eaten(env, tok, t, next, 1);
      k := MembersAre(env, next, t[1..], ms, true);
      ValueBack(env, tok, t, next, t[1..], tok.under,
                ReadMembers(env, t[1..], Depth(tok.under), ms, true, tok.stPos == 0), k);
    } else {
      k := tok;
      ValueStopped(env, tok, t, BadValueSeparator, k);
    }
  }

  // ---- whole texts

  // Ready for a new text; the registers may hold anything.
  ghost predicate Ready(tok: Tok) {
    tok.state == EatWs(Start) && tok.under == Bottom
  }

  ghost predicate ReportedAs(o: Outcome, t: Text, d: Report) {
    o.err == d.err && o.value == d.value && o.used == |t| - |d.rest|
  }

  // On every text a call reports the error, the value and the length that the reader reports.
  lemma RunIsRead(env: Env, tok: Tok, t: Text)
    requires Ready(tok)
    ensures ReportedAs(Run(env, tok, t), t, ReadDocument(env, t, tok.stPos == 0))
  {
    var k := ValueIs(env, tok, t);
    var r := ReadValue(env, t, 0, tok.stPos == 0);
    hide ReadValue;
    if r.Got? {
      SpaceSkips(env, k, r.rest, Finish(r.value.value));
      EndIs(env, k, r.rest, r.value.value);
    }
  }

  lemma FinishIs(env: Env, k: Tok, rest: Text, v: Value)
    requires k.state == At(Finish(v)) && k.under == Bottom && rest != []
    ensures var o := Run(env, k, rest);
            o.used == 0 &&
            if env.strict && rest[0] != '\0' then o.err == UnexpectedChar && o.value == JNull
            else o.err == Success && o.value == v
  {
    assert Step(env, k, rest) == Stop(k, Success);
    hide Step;
  }

  lemma AtEndWith(env: Env, k: Tok, v: Value)
    requires k.state == EatWs(Finish(v)) && k.under == Bottom
    ensures var o := Run(env, k, []); o.err == Success && o.value == v && o.used == 0
  {
  }

  lemma EndIs(env: Env, tok: Tok, t: Text, v: Value)
    requires tok.state == EatWs(Finish(v)) && tok.under == Bottom
    requires Skips(env, tok, t, Finish(v), SkipSpace(env, t))
    ensures var o := Run(env, tok, t);
            match SkipSpace(env, t)
            case Spaces => o.err == Success && o.value == v && o.used == |t|
            case InComment => o.err == Continue && o.value == JNull && o.used == |t|
            case Unclosed(rest) => o.err == Success && o.value == v && o.used == |t| - |rest|
            case NoComment(rest) => o.err == BadComment && o.value == JNull && o.used == |t| - |rest|
            case Token(rest) =>
              o.used == |t| - |rest| &&
              if env.strict && rest[0] != '\0' then o.err == UnexpectedChar && o.value == JNull
              else o.err == Success && o.value == v
  {
    hide Run, Step, SkipSpace, Out;
    match SkipSpace(env, t)
    case Token(rest) =>
      var k: Tok :| k.state == At(Finish(v)) && Beside(k, tok) && Reaches(env, tok, t, k, rest);
      FinishIs(env, k, rest, v);
    case Spaces =>
      var k: Tok :| k.state == EatWs(Finish(v)) && Beside(k, tok) && Reaches(env, tok, t, k, []);
      AtEndWith(env, k, v);
    case _ =>
  }
}
