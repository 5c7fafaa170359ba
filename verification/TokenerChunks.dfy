// Feeding a text in pieces.

module TokenerChunks {
  import opened Options
  import opened Chars
  import opened OrderedMap
  import opened JsonValue
  import opened Numbers
  import opened Unicode
  import opened Tokener
  import opened TokenerRun

  // The rest of a chunk, t, starts with the last digit of a high surrogate and ends before the
  // program can tell whether a second escape follows.
  predicate PairAhead(tok: Tok, t: Text) {
    && tok.state.EscapeUnicode? && tok.stPos == 3
    && t != [] && IsHighSurrogate(CodeAt(tok, tok.state.hi, t[0]))
    && (|t| == 1 || (t[1] == '\\' && (|t| == 2 || (|t| == 3 && t[2] == 'u'))))
  }

  // A chunk that ends inside a surrogate pair
  predicate EndsInPair(env: Env, tok: Tok, t: Text)
    decreases |t|, if t == [] then 0 else Rank(tok, t[0])
  {
    if t == [] then tok.state.EscapeUnicode? && tok.state.hi != 0
    else
      StepProgresses(env, tok, t);
      match Step(env, tok, t)
      case Redo(k) => EndsInPair(env, k, t)
      case Eat(k, n) => PairAhead(tok, t) || (t[0] != '\0' && EndsInPair(env, k, t[n..]))
      case Stop(_, _) => false
  }

  // After any number characters, t goes on with the start of "Infinity".
  predicate InfinityAhead(t: Text) {
    t != [] && (if IsNumberChar(t[0]) then InfinityAhead(t[1..]) else t[0] == 'i' || t[0] == 'I')
  }

  // A pass looks beyond its character only for the second half of a pair.
  lemma StepIsLocal(env: Env, tok: Tok, t: Text, more: Text)
    requires t != [] && !PairAhead(tok, t)
    ensures Step(env, tok, t + more) == Step(env, tok, t)
  {
  }

  predicate MinusInfinity(pb: Text, t: Text) {
    InfinityAhead(t) && (pb + t)[0] == '-'
  }

  lemma NumberGrows(env: Env, tok: Tok, t: Text, a: nat)
    requires t != [] && IsNumberChar(t[0])
    ensures var c := t[0];
            Step(env, To(tok, Number(a)), t) ==
            Eat(To(Append(tok, [c]), Number(a + 1)).(isDouble := tok.isDouble || c == '.' || c == 'e' || c == 'E'), 1)
  {
    hide IsNumberChar;
  }

  lemma NumberStops(env: Env, tok: Tok, t: Text, a: nat, b: nat)
    requires t != [] && !IsNumberChar(t[0]) && !MinusInfinity(tok.pb, t)
    ensures Step(env, To(tok, Number(a)), t).Redo? ==>
              Step(env, To(tok, Number(a)), t) == Step(env, To(tok, Number(b)), t)
    ensures !Step(env, To(tok, Number(a)), t).Eat?
    ensures Step(env, To(tok, Number(a)), t).Stop? ==>
              Step(env, To(tok, Number(a)), t) == Stop(To(tok, Number(a)), BadNumber) &&
              Step(env, To(tok, Number(b)), t) == Stop(To(tok, Number(b)), BadNumber)
  {
    hide ScanInt64;
    assert tok.pb != [] ==> (tok.pb + t)[0] == tok.pb[0];
  }

  // How many digits this call has seen matters only for a text like -Infinity.
  lemma {:induction false} CaseLenIsLocal(env: Env, tok: Tok, t: Text, a: nat, b: nat)
    requires !MinusInfinity(tok.pb, t)
    ensures Run(env, To(tok, Number(a)), t) == Run(env, To(tok, Number(b)), t)
    decreases |t|
  {
    hide Step;
    if t == [] {
    } else if IsNumberChar(t[0]) {
      NumberGrows(env, tok, t, a);
      NumberGrows(env, tok, t, b);
      var next := Step(env, To(tok, Number(a)), t).tok;
      assert tok.pb + t == next.pb + t[1..];
      CaseLenIsLocal(env, next, t[1..], a + 1, b + 1);
    } else {
      NumberStops(env, tok, t, a, b);
    }
  }

  // A chunk that ends in a number with a minus sign in front of which this call has read a part
  predicate EndsInMinus(env: Env, tok: Tok, t: Text)
    decreases |t|, if t == [] then 0 else Rank(tok, t[0])
  {
    if t == [] then tok.state.Number? && tok.state.caseLen > 0 && (tok.pb + "-")[0] == '-'
    else
      StepProgresses(env, tok, t);
      match Step(env, tok, t)
      case Redo(k) => EndsInMinus(env, k, t)
      case Eat(k, n) => t[0] != '\0' && EndsInMinus(env, k, t[n..])
      case Stop(_, _) => false
  }

  // Feeding t and then `more` is feeding t + more: the same value, error, total length and tokener.
  ghost predicate Composes(env: Env, tok: Tok, t: Text, more: Text) {
    Run(env, tok, t + more) == After(|t|, Run(env, Run(env, tok, t).tok, more))
  }

  lemma {:induction false} ChunksCompose(env: Env, tok: Tok, t: Text, more: Text)
    requires Run(env, tok, t).err == Continue
    requires !EndsInPair(env, tok, t)
    requires EndsInMinus(env, tok, t) ==> !MinusInfinity(Run(env, tok, t).tok.pb, more)
    ensures Composes(env, tok, t, more)
    decreases |t|, if t == [] then 0 else Rank(tok, t[0])
  {
    hide Step;
    if t == [] {
      assert t + more == more;
      if tok.state.Number? && tok.state.caseLen > 0 {
        assert tok.pb != [] ==> (tok.pb + more)[0] == tok.pb[0] && (tok.pb + "-")[0] == tok.pb[0];
        CaseLenIsLocal(env, tok, more, tok.state.caseLen, 0);
      }
    } else {
      StepProgresses(env, tok, t);
      StepIsLocal(env, tok, t, more);
      match Step(env, tok, t)
      case Redo(k) => ChunksCompose(env, k, t, more);
      case Eat(k, n) =>
        assert (t + more)[n..] == t[n..] + more;
        ChunksCompose(env, k, t[n..], more);
    }
  }

  // ---- and only then

  // What every tokener that calls have led to satisfies
  predicate Sane(tok: Tok) {
    && (tok.state.Number? ==> forall i | 0 <= i < |tok.pb| :: IsNumberChar(tok.pb[i]))
    && (tok.state.Body? || tok.state.Escape? || tok.state.EscapeUnicode? ==> tok.quote == '"' || tok.quote == '\'')
    && (tok.state.EscapeUnicode? ==> tok.stPos <= 4)
  }

  lemma UnicodeKeepsSane(tok: Tok, t: Text)
    requires t != [] && Sane(tok) && tok.state.EscapeUnicode?
    ensures Sane(StepUnicode(tok, t, tok.state.q, tok.state.hi).tok)
  {
    hide Utf8, AddHexDigit, DecodePair;
  }

  lemma WordMoves(env: Env, tok: Tok, buf: Text, word0: Text, v0: Value, word1: Text, v1: Value, err: Error)
    ensures var k := StepWord(env, tok, buf, word0, v0, word1, v1, err).tok;
            k.state == tok.state || k.state.EatWs?
  {
    hide MoveInWord;
    match MoveInWord(env.strict, buf, tok.stPos, word0, word1)
    case First =>
    case Second =>
    case More =>
    case Wrong =>
  }

  lemma WordKeepsSane(env: Env, tok: Tok, c: char)
    requires tok.state.Null? || tok.state.Boolean? || tok.state.Infinity?
    ensures Sane(StepNull(env, tok, c).tok) && Sane(StepBoolean(env, tok, c).tok) && Sane(StepInfinity(env, tok, c).tok)
  {
    hide StepWord;
    var buf := tok.pb + [c];
    var v := JInfinity(buf[0] == '-');
    var k := Append(tok, [c]);
    WordMoves(env, k, buf, "null", JNull, "NaN", JNaN, BadNull);
    WordMoves(env, k, buf, "true", JBool(true), "false", JBool(false), BadBoolean);
    WordMoves(env, k, if buf[0] == '-' then buf[1..] else buf, "Infinity", v, "Infinity", v, UnexpectedChar);
  }

  lemma PlaceKeepsSane(env: Env, tok: Tok, c: char, here: Place)
    requires Sane(tok)
    ensures Sane(StepAt(env, tok, c, here).tok)
  {
    hide IsNumberChar;
  }

  lemma NumberKeepsSane(env: Env, tok: Tok, c: char, caseLen: nat)
    requires Sane(tok) && tok.state.Number?
    ensures Sane(StepNumber(env, tok, c, caseLen).tok)
  {
    hide IsNumberChar, ScanInt64;
  }

  lemma SpaceKeepsSane(env: Env, tok: Tok, c: char, next: Place)
    ensures tok.state.EatWs? ==> Sane(StepEatWs(env, tok, c, next).tok)
    ensures tok.state.CommentStart? || tok.state.Comment? || tok.state.CommentEol? || tok.state.CommentEnd? ==>
              Sane(StepComment(tok, c).tok)
  {
  }

  lemma StepKeepsSane(env: Env, tok: Tok, t: Text)
    requires t != [] && Sane(tok)
    ensures Sane(Step(env, tok, t).tok)
  {
    hide StepUnicode, StepNull, StepBoolean, StepInfinity, StepNumber, StepAt, Put, IsNumberChar, StepEatWs,
         StepComment;
    match tok.state
    case EscapeUnicode(_, _) => UnicodeKeepsSane(tok, t);
    case Null => WordKeepsSane(env, tok, t[0]);
    case Boolean => WordKeepsSane(env, tok, t[0]);
    case Infinity => WordKeepsSane(env, tok, t[0]);
    case Number(caseLen) => NumberKeepsSane(env, tok, t[0], caseLen);
    case At(here) => PlaceKeepsSane(env, tok, t[0], here);
    case EatWs(next) => SpaceKeepsSane(env, tok, t[0], next);
    case CommentStart(next) => SpaceKeepsSane(env, tok, t[0], next);
    case Comment(next) => SpaceKeepsSane(env, tok, t[0], next);
    case CommentEol(next) => SpaceKeepsSane(env, tok, t[0], next);
    case CommentEnd(next) => SpaceKeepsSane(env, tok, t[0], next);
    case _ =>
  }

  lemma {:induction false} RunKeepsSane(env: Env, tok: Tok, t: Text)
    requires Sane(tok)
    ensures Sane(Run(env, tok, t).tok)
    decreases |t|, if t == [] then 0 else Rank(tok, t[0])
  {
    hide Step;
    if t != [] {
      StepProgresses(env, tok, t);
      StepKeepsSane(env, tok, t);
      match Step(env, tok, t)
      case Redo(k) => RunKeepsSane(env, k, t);
      case Eat(k, n) => if t[0] != '\0' { RunKeepsSane(env, k, t[n..]); }
      case Stop(_, _) =>
    }
  }

  // A text that tells the pieces from the whole
  function Witness(env: Env, tok: Tok, t: Text): Text
    requires EndsInPair(env, tok, t) || EndsInMinus(env, tok, t)
    decreases |t|, if t == [] then 0 else Rank(tok, t[0])
  {
    if t == [] then if tok.state.Number? then "-i" else "g"
    else
      StepProgresses(env, tok, t);
      match Step(env, tok, t)
      case Redo(k) => Witness(env, k, t)
      case Eat(k, n) => if PairAhead(tok, t) then PairWitness(t) else Witness(env, k, t[n..])
  }

  // The start of a second escape, as far as t does not have it, and no hexadecimal digit
  function PairWitness(t: Text): Text {
    if |t| <= 1 then "\\ug" else if |t| == 2 then "ug" else "g"
  }

  lemma {:induction false} WitnessTells(env: Env, tok: Tok, t: Text)
    requires Run(env, tok, t).err == Continue && Sane(tok)
    requires EndsInPair(env, tok, t) || EndsInMinus(env, tok, t)
    ensures !Composes(env, tok, t, Witness(env, tok, t))
    decreases |t|, if t == [] then 0 else Rank(tok, t[0])
  {
    hide Step, PairAhead, Sane;
    var more := Witness(env, tok, t);
    if t == [] {
      assert t + more == more;
      if tok.state.Number? { MinusTells(env, tok); } else { HalfPairTells(env, tok); }
    } else if PairAhead(tok, t) {
      PairIsRead(env, tok, t);
      PairTells(env, tok, t);
    } else {
      StepProgresses(env, tok, t);
      StepKeepsSane(env, tok, t);
      StepIsLocal(env, tok, t, more);
      match Step(env, tok, t)
      case Redo(k) => WitnessTells(env, k, t);
      case Eat(k, n) =>
        assert (t + more)[n..] == t[n..] + more;
        WitnessTells(env, k, t[n..]);
    }
  }

  // The pending high surrogate has been replaced in the one case only.
  lemma HalfPairTells(env: Env, tok: Tok)
    requires tok.state.EscapeUnicode? && tok.state.hi != 0
    ensures Run(env, tok, "g") != After(0, Run(env, Run(env, tok, "").tok, "g"))
  {
    assert Run(env, tok, "g").tok.pb == tok.pb;
    assert Run(env, tok, "").tok.pb == tok.pb + REPLACEMENT;
  }

  // Only a call that has read a single character of the number goes on to "Infinity".
  lemma MinusTells(env: Env, tok: Tok)
    requires tok.state.Number? && tok.state.caseLen > 0 && (tok.pb + "-")[0] == '-' && Sane(tok)
    ensures Run(env, tok, "-i") != After(0, Run(env, Run(env, tok, "").tok, "-i"))
  {
    hide Run, Step;
    MinusWhole(env, tok);
    MinusPiece(env, To(tok, Number(0)));
    AtEndOfNumber(env, tok);
  }

  lemma AtEndOfNumber(env: Env, tok: Tok)
    requires tok.state.Number?
    ensures Run(env, tok, "").tok == To(tok, Number(0))
  {
  }

  lemma SeparatorMeetsLetter(env: Env, tok: Tok)
    requires tok.state.EatWs? && (tok.state.next.ArraySep? || tok.state.next.ObjectSep?)
    ensures Run(env, tok, "i").tok.pb == tok.pb
  {
    assert Run(env, tok, "i") == Run(env, To(tok, At(tok.state.next)), "i");
  }

  lemma StartMeetsLetter(env: Env, tok: Tok)
    requires tok.state == EatWs(Start)
    ensures Run(env, tok, "i").tok.pb == "i"
  {
    var c := To(tok, At(Start));
    assert Run(env, tok, "i") == Run(env, c, "i");
    var d := To(c, Infinity).(pb := "", stPos := 0);
    assert Run(env, c, "i") == Run(env, d, "i");
    FirstLetter(env, d);
  }

  lemma FirstLetter(env: Env, tok: Tok)
    requires tok.state == Infinity && tok.pb == "" && tok.stPos == 0
    ensures Run(env, tok, "i").tok.pb == "i"
  {
    assert "" + ['i'] == "i" && "i"[1..] == "";
    assert Common(env.strict, "Infinity", "i") <= 1;
    var m := Step(env, tok, "i");
    assert m.tok.pb == "i" && (m.Eat? ==> m.n == 1 && Suspend(m.tok) == m.tok);
    assert !m.Redo?;
    hide Step;
  }

  lemma LevelMeetsLetter(env: Env, tok: Tok, v: Value)
    requires tok.state == At(Finish(v))
    ensures Run(env, tok, "i").tok.pb in {tok.pb, "i"}
  {
    match tok.under
    case Bottom =>
    case ArrayLevel(es, under) =>
      var b := To(tok, ArrayAdd(es, v)).(under := under);
      SeparatorMeetsLetter(env, To(b, EatWs(ArraySep(es + [v]))));
      assert Run(env, tok, "i") == Run(env, b, "i");
    case ObjectLevel(ms, key, under) =>
      var b := To(tok, ObjectValueAdd(ms, key, v)).(under := under);
      SeparatorMeetsLetter(env, To(b, EatWs(ObjectSep(Put(ms, key, v)))));
      assert Run(env, tok, "i") == Run(env, b, "i");
    case ResetLevel(under) =>
      StartMeetsLetter(env, To(tok, EatWs(Start)).(under := under));
  }

  lemma ValueMeetsLetter(env: Env, tok: Tok, v: Value)
    requires tok.state == EatWs(Finish(v))
    ensures Run(env, tok, "i").tok.pb in {tok.pb, "i"}
  {
    LevelMeetsLetter(env, To(tok, At(Finish(v))), v);
  }

  lemma MinusWhole(env: Env, tok: Tok)
    requires tok.state.Number? && tok.state.caseLen > 0
    ensures Run(env, tok, "-i").tok.pb in {tok.pb + "-", "i"}
  {
    var a := Step(env, tok, "-i").tok;
    assert a.pb == tok.pb + "-" && a.state.caseLen > 1;
    assert "-i"[1..] == "i";
    assert Run(env, tok, "-i").tok == Run(env, a, "i").tok;
    match Step(env, a, "i")
    case Redo(k) => ValueMeetsLetter(env, k, k.state.next.v);
    case Stop(_, _) =>
  }

  lemma MinusPiece(env: Env, tok: Tok)
    requires tok.state == Number(0) && (tok.pb + "-")[0] == '-' && Sane(tok)
    ensures Run(env, tok, "-i").tok.pb == tok.pb + "-" + "i"
  {
    var a := Step(env, tok, "-i").tok;
    assert a.pb == tok.pb + "-" && a.state == Number(1);
    assert "-i"[1..] == "i";
    assert Run(env, tok, "-i").tok == Run(env, a, "i").tok;
    var b := To(a, Infinity);
    assert Run(env, a, "i") == Run(env, b, "i");
    LetterIsWrong(env, b);
  }

  lemma LetterIsWrong(env: Env, tok: Tok)
    requires tok.state.Infinity? && tok.pb != [] && tok.pb[0] == '-'
    requires forall i | 0 <= i < |tok.pb| :: IsNumberChar(tok.pb[i])
    ensures Run(env, tok, "i").tok.pb == tok.pb + "i"
  {
    var buf := (tok.pb + ['i'])[1..];
    assert buf[0] == 'i' || IsNumberChar(buf[0]);
    assert |tok.pb| == 1 ==> buf == "i";
    assert Common(env.strict, "Infinity", buf) <= 1;
    assert !Step(env, tok, "i").Redo?;
  }

  lemma PairTells(env: Env, tok: Tok, t: Text)
    requires PairAhead(tok, t) && Run(env, tok, t).err == Continue && Sane(tok)
    ensures !Composes(env, tok, t, PairWitness(t))
  {
    hide IsHighSurrogate, CodeAt, AddHexDigit, Run;
    PairIsRead(env, tok, t);
    HighIsLarge(CodeAt(tok, tok.state.hi, t[0]));
    assert t + PairWitness(t) == [t[0], '\\', 'u', 'g'];
    PairWhole(env, tok, t[0]);
    if |t| == 3 {
      PairCutLate(env, tok, t);
    } else {
      PairCutEarly(env, tok, t);
    }
  }

  lemma HighIsLarge(u: nat)
    requires IsHighSurrogate(u)
    ensures u >= 0xD800
  {
  }

  lemma PairIsRead(env: Env, tok: Tok, t: Text)
    requires PairAhead(tok, t) && Run(env, tok, t).err == Continue
    ensures t[0] != '\0' && IsHexDigit(t[0]) && Step(env, tok, t).Eat?
  {
  }

  // The text before the pair, with a replacement for a high surrogate that did not find its partner
  function BeforePair(tok: Tok, c: char): Text
    requires tok.state.EscapeUnicode? && tok.stPos < 4
  {
    tok.pb + if tok.state.hi != 0 && !Joins(tok, tok.state.hi, c) then REPLACEMENT else ""
  }

  lemma PairWhole(env: Env, tok: Tok, c: char)
    requires tok.state.EscapeUnicode? && tok.stPos == 3 && c != '\0'
    requires IsHexDigit(c) && IsHighSurrogate(CodeAt(tok, tok.state.hi, c)) && CodeAt(tok, tok.state.hi, c) >= 0x800
    ensures Run(env, tok, [c, '\\', 'u', 'g']).tok.pb == BeforePair(tok, c)
  {
  }

  lemma PairCutLate(env: Env, tok: Tok, t: Text)
    requires PairAhead(tok, t) && |t| == 3 && t[0] != '\0' && IsHexDigit(t[0])
    ensures Run(env, Run(env, tok, t).tok, "g").tok.pb == BeforePair(tok, t[0]) + REPLACEMENT
  {
    hide IsHighSurrogate, CodeAt, AddHexDigit, Joins;
    var code := CodeAt(tok, tok.state.hi, t[0]);
    HighIsLarge(code);
    var k := To(tok, EscapeUnicode(tok.state.q, 0)).(ucs := code, stPos := 4,
                                                     pb := BeforePair(tok, t[0]) + REPLACEMENT);
    assert Step(env, tok, t) == Eat(k, 3);
    assert Run(env, tok, t).tok == k;
  }

  lemma PairCutEarly(env: Env, tok: Tok, t: Text)
    requires PairAhead(tok, t) && |t| < 3 && t[0] != '\0' && IsHexDigit(t[0]) && Sane(tok)
    ensures Run(env, Run(env, tok, t).tok, PairWitness(t)).tok.pb == BeforePair(tok, t[0]) + REPLACEMENT
  {
    hide IsHighSurrogate, CodeAt, AddHexDigit, Joins;
    var code := CodeAt(tok, tok.state.hi, t[0]);
    HighIsLarge(code);
    var k := To(tok, Body(tok.state.q)).(ucs := code, stPos := 4, pb := BeforePair(tok, t[0]) + REPLACEMENT);
    assert Step(env, tok, t) == Eat(k, 1);
    SecondEscape(env, k);
    if |t| == 2 {
      assert t[1..] == "\\";
    }
  }

  lemma SecondEscape(env: Env, tok: Tok)
    requires tok.state.Body? && Sane(tok)
    ensures Run(env, tok, "") == AtEnd(env, tok)
    ensures Run(env, tok, "\\ug").tok.pb == tok.pb
    ensures Run(env, Run(env, tok, "\\").tok, "ug").tok.pb == tok.pb
  {
    var a := To(tok, Escape(tok.state.q));
    assert "\\ug"[1..] == "ug" && "\\"[1..] == "";
    assert Run(env, tok, "\\ug").tok == Run(env, a, "ug").tok;
    assert Run(env, tok, "\\").tok == a;
    NoSecondEscape(env, a);
  }

  lemma NoSecondEscape(env: Env, tok: Tok)
    requires tok.state.Escape?
    ensures Run(env, tok, "ug").tok.pb == tok.pb
  {
    assert "ug"[1..] == "g";
    var b := To(tok, EscapeUnicode(tok.state.q, 0)).(ucs := 0, stPos := 0);
    assert Run(env, tok, "ug").tok == Run(env, b, "g").tok;
  }

  // Two calls always agree with one, whatever text comes second, if and only if the first text
  // ends neither in a surrogate pair nor in a number with a minus sign.
  lemma ChunksComposeExactly(env: Env, tok: Tok, t: Text)
    requires Run(env, tok, t).err == Continue && Sane(tok)
    ensures (forall more: Text :: Composes(env, tok, t, more)) <==>
            !EndsInPair(env, tok, t) && !EndsInMinus(env, tok, t)
  {
    hide Composes;
    if EndsInPair(env, tok, t) || EndsInMinus(env, tok, t) {
      WitnessTells(env, tok, t);
    } else {
      forall more: Text ensures Composes(env, tok, t, more) {
        ChunksCompose(env, tok, t, more);
      }
    }
  }
}
