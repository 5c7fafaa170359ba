// Where the tokener is not what its comments or a grammar would have it, with the exact conditions.

module Leniencies {
  import opened Options
  import opened Chars
  import opened OrderedMap
  import opened JsonValue
  import opened Tokener
  import opened TokenerRun
  import opened Reader
  import opened TokenerRefines
  import opened Grammar
  import opened GrammarReads

  // ---- "-Infinity": the state for the word is entered without setting st_pos

  lemma MinusInfinityIs(env: Env, rest: Text, depth: nat)
    requires rest != []
    ensures ReadHere(env, "-Infinity" + rest, depth, true) == Got(Parsed(JInfinity(true), false), rest)
    ensures ReadHere(env, "-Infinity" + rest, depth, false) == Fail(UnexpectedChar, "Infinity" + rest)
  {
    hide ReadHere, ReadWord;
    var t := "-Infinity" + rest;
    assert t[0] == '-' && t[1] == 'I' && t[1..] == "Infinity" + rest;
    MinusReads(env, t, depth, true);
    MinusReads(env, t, depth, false);
    WordReads(env, "Infinity", JInfinity(true), "Infinity", JInfinity(true), UnexpectedChar, rest);
  }

  // It is read as minus infinity if and only if no word and no \u escape was read before since the tokener was made:
  // a reset leaves st_pos as it is.
  lemma MinusInfinityParses(env: Env, tok: Tok)
    requires Ready(tok)
    ensures var o := Run(env, tok, "-Infinity" + Nul());
            && (o.err == Success && o.value == JInfinity(true) && o.used == 9 <==> tok.stPos == 0)
            && (tok.stPos != 0 ==> o.err == UnexpectedChar && o.value == JNull && o.used == 1)
  {
    hide ReadHere, Run;
    var t := "-Infinity" + Nul();
    RunIsRead(env, tok, t);
    MinusInfinityIs(env, Nul(), 0);
    assert Next(env, t, None) == Got((), t);
    assert SkipSpace(env, Nul()) == Token(Nul());
  }

  // The token that t starts with
  lemma TokenIs(env: Env, t: Text, held: Option<Value>)
    requires t != [] && Counts(env, t[0])
    ensures Next(env, t, held) == Got((), t) && SkipSpace(env, t) == Token(t)
  {
  }

  // "[null" leads to the element behind the comma, with st_pos at the length of the word.
  lemma NullComesFirst(env: Env, u: Text, clear: bool)
    requires env.maxDepth >= 2
    ensures ReadValue(env, "[null," + u, 0, clear) == ReadElements(env, u, 0, [JNull], true, false)
  {
    hide ReadWord, Next, ReadElements;
    var b := "," + u;
    var a := "null" + b;
    var t := "[null," + u;
    assert t == "[" + a && t[1..] == a && b[1..] == u;
    TokenIs(env, t, None);
    TokenIs(env, a, None);
    TokenIs(env, b, Some(JNull));
    KeywordReads(env, a, 1, clear);
    WordReads(env, "null", JNull, "NaN", JNaN, BadNull, b);
    FirstElement(env, a, b, clear);
  }

  lemma FirstElement(env: Env, a: Text, b: Text, clear: bool)
    requires env.maxDepth >= 2 && a != [] && a[0] == 'n' && b != [] && b[0] == ','
    requires Next(env, a, None) == Got((), a) && Next(env, b, Some(JNull)) == Got((), b)
    requires ReadHere(env, a, 1, clear) == Got(Parsed(JNull, false), b)
    ensures ReadElements(env, a, 0, [], false, clear) == ReadElements(env, b[1..], 0, [JNull], true, false)
  {
    hide Next, ReadHere;
    var first: seq<Value> := [];
    assert first + [JNull] == [JNull];
    assert ReadValue(env, a, 1, clear) == Got(Parsed(JNull, false), b);
    assert ReadElement(env, a, 0, first, false, clear) == ElementsTail(env, b, 0, first + [JNull], false);
    assert ElementsTail(env, b, 0, [JNull], false) == ReadElements(env, b[1..], 0, [JNull], true, false);
  }

  lemma ElementFails(env: Env, u: Text, es: seq<Value>, clear: bool, rest: Text)
    requires env.maxDepth >= 2 && u != [] && u[0] != ']' && Counts(env, u[0])
    requires ReadHere(env, u, 1, clear) == Fail(UnexpectedChar, rest)
    ensures ReadElements(env, u, 0, es, true, clear) == Fail(UnexpectedChar, rest)
  {
    hide ReadHere, Next;
    TokenIs(env, u, None);
    assert ReadValue(env, u, 1, clear) == Fail(UnexpectedChar, rest);
    assert ReadElement(env, u, 0, es, true, clear) == Fail(UnexpectedChar, rest);
  }

  // In front of it, a null is enough.
  lemma MinusInfinityBehindNull(env: Env, tok: Tok)
    requires Ready(tok) && env.maxDepth >= 2
    ensures var o := Run(env, tok, "[null,-Infinity]" + Nul());
            o.err == UnexpectedChar && o.value == JNull && o.used == 7
  {
    hide Run, ReadHere, ReadElements, ReadValue;
    var rest := "]" + Nul();
    var u := "-Infinity" + rest;
    var t := "[null,-Infinity]" + Nul();
    assert t == "[null," + u;
    RunIsRead(env, tok, t);
    NullComesFirst(env, u, tok.stPos == 0);
    MinusInfinityIs(env, rest, 1);
    ElementFails(env, u, [JNull], false, "Infinity" + rest);
  }

  // ---- comments

  // s ends in an odd number of stars.
  predicate OddStars(s: Text) {
    s != [] && s[|s| - 1] == '*' && !OddStars(s[..|s| - 1])
  }

  // The comment is over with t[i].
  predicate Closes(t: Text, i: nat) {
    i < |t| && t[i] == '/' && OddStars(t[..i])
  }

  // The text behind the opening, up to some point in front of which the comment does not close
  lemma {:induction false} InBlock(env: Env, t: Text, n: nat)
    requires n <= |t| && (forall i: nat | i < n :: t[i] != '\0' && !Closes(t, i))
    ensures SkipBlock(env, t) == if OddStars(t[..n]) then SkipBlockEnd(env, t[n..]) else SkipBlock(env, t[n..])
  {
    if n == 0 {
      assert t[0..] == t;
    } else {
      InBlock(env, t, n - 1);
      assert t[..n][..n - 1] == t[..n - 1] && t[..n][n - 1] == t[n - 1];
      assert t[n - 1..][1..] == t[n..] && t[n - 1..][0] == t[n - 1];
      assert !Closes(t, n - 1);
    }
  }

  // A block comment is closed by the first slash behind an odd number of stars: not by the one of "**/".
  lemma BlockCloses(env: Env, t: Text, n: nat)
    requires Closes(t, n) && (forall i: nat | i < n :: t[i] != '\0' && !Closes(t, i))
    ensures SkipBlock(env, t) == SkipSpace(env, t[n + 1..])
  {
    InBlock(env, t, n);
    assert t[n..][1..] == t[n + 1..];
  }

  // Without one it goes on to the end of the text, or to the terminator,
  lemma BlockStaysOpen(env: Env, t: Text, n: nat)
    requires n <= |t| && (n < |t| ==> t[n] == '\0')
    requires forall i: nat | i < n :: t[i] != '\0' && !Closes(t, i)
    ensures SkipBlock(env, t) == if n < |t| then Unclosed(t[n + 1..]) else InComment
  {
    InBlock(env, t, n);
    if n < |t| {
      assert t[n..][1..] == t[n + 1..];
    }
  }

  lemma Stars()
    ensures OddStars("*") && !OddStars("**") && OddStars("***")
  {
    assert "*"[..0] == "" && "**"[..1] == "*" && "***"[..2] == "**";
  }

  // and so does one that looks closed.
  lemma TwoStarsDoNotClose(env: Env)
    requires !env.strict
    ensures SkipSpace(env, "/***/") == InComment
    ensures SkipSpace(env, "/**/") == Spaces && SkipSpace(env, "/****/") == Spaces
  {
    Stars();
    assert "**/"[..2] == "**" && "*/"[..1] == "*" && "***/"[..3] == "***";
    assert "/***/"[2..] == "**/" && "/**/"[2..] == "*/" && "/****/"[2..] == "***/";
    BlockStaysOpen(env, "**/", 3);
    BlockCloses(env, "*/", 1);
    BlockCloses(env, "***/", 3);
  }

  // Behind a complete value the terminator ends a comment that is open, and the value is accepted.
  lemma OpenCommentIsAccepted(env: Env, tok: Tok, t: Text, value: Parsed, behind: Text, rest: Text)
    requires Ready(tok) && ReadValue(env, t, 0, tok.stPos == 0) == Got(value, behind)
    requires SkipSpace(env, behind) == Unclosed(rest)
    ensures var o := Run(env, tok, t); o.err == Success && o.value == value.value && o.used == |t| - |rest|
  {
    hide Run, ReadValue, SkipSpace;
    RunIsRead(env, tok, t);
  }
}
