// null, true, false, NaN and Infinity, letter by letter: outside strict mode in any mixture of cases.

module Keywords {
  import opened Options
  import opened Chars
  import opened JsonValue
  import opened Tokener
  import opened TokenerRun
  import opened Reader
  import opened TokenerRefines
  import opened GrammarReads

  predicate IsLetter(c: char) {
    'a' <= c <= 'z' || 'A' <= c <= 'Z'
  }

  // a is the letter b in the other case.
  predicate OtherCase(a: char, b: char) {
    || ('a' <= b <= 'z' && a as int == b as int - 32)
    || ('A' <= b <= 'Z' && a as int == b as int + 32)
  }

  // w is the word, with the case of each letter left free unless the mode is strict.
  predicate Spells(strict: bool, w: Text, word: Text) {
    |w| == |word| && forall i | 0 <= i < |w| :: w[i] == word[i] || (!strict && OtherCase(w[i], word[i]))
  }

  predicate Letters(word: Text) {
    forall i | 0 <= i < |word| :: IsLetter(word[i])
  }

  lemma SameLetter(strict: bool, a: char, b: char)
    requires IsLetter(a)
    ensures SameChar(strict, a, b) <==> b == a || (!strict && OtherCase(b, a))
  {
  }

  lemma {:induction false} SpellsIsCommon(strict: bool, word: Text, w: Text, rest: Text)
    requires Letters(word) && |w| <= |word|
    ensures Common(strict, word, w + rest) >= |w| <==> Spells(strict, w, word[..|w|])
  {
    if w != [] {
      hide SameChar, OtherCase;
      SameLetter(strict, word[0], w[0]);
      SpellsIsCommon(strict, word[1..], w[1..], rest);
      assert (w + rest)[1..] == w[1..] + rest && (w + rest)[0] == w[0];
      assert word[1..][..|w| - 1] == word[..|w|][1..];
      SpellsFirst(strict, w, word[..|w|]);
    }
  }

  lemma SpellsFirst(strict: bool, w: Text, word: Text)
    requires |w| == |word| > 0
    ensures Spells(strict, w, word) <==>
            (w[0] == word[0] || (!strict && OtherCase(w[0], word[0]))) && Spells(strict, w[1..], word[1..])
  {
    hide OtherCase;
    if (w[0] == word[0] || (!strict && OtherCase(w[0], word[0]))) && Spells(strict, w[1..], word[1..]) {
      forall i | 0 <= i < |w|
        ensures w[i] == word[i] || (!strict && OtherCase(w[i], word[i]))
      {
        if i > 0 {
          assert w[1..][i - 1] == w[i] && word[1..][i - 1] == word[i];
        }
      }
    }
  }

  // ---- a text that is a word, with the terminator behind it

  // What a call makes of a keyword that is read as r
  lemma KeywordRuns(env: Env, tok: Tok, t: Text, r: Read<Value>)
    requires Ready(tok) && t != [] && IsLetter(t[0])
    requires ReadHere(env, t, 0, tok.stPos == 0) == Matched(r)
    ensures var o := Run(env, tok, t);
            && (r.Got? && r.rest == Nul() ==> o.err == Success && o.value == r.value && o.used == |t| - 1)
            && (r.Got? && |r.rest| == 2 && IsLetter(r.rest[0]) ==>
                  if env.strict then o.err == UnexpectedChar && o.value == JNull
                  else o.err == Success && o.value == r.value && o.used == |t| - 2)
            && (r.Fail? ==> o.err == r.err && o.value == JNull)
  {
    hide ReadHere, Run;
    RunIsRead(env, tok, t);
    assert Next(env, t, None) == Got((), t);
    assert SkipSpace(env, Nul()) == Token(Nul());
    if r.Got? && |r.rest| == 2 && IsLetter(r.rest[0]) {
      assert SkipSpace(env, r.rest) == Token(r.rest);
    }
  }

  // A character of w is in the way, before either word is complete.
  lemma WordFails(env: Env, w: Text, word0: Text, v0: Value, word1: Text, v1: Value, err: Fault)
    requires '\0' !in w && w != []
    requires var t := w + Nul();
             var n0, n1 := Common(env.strict, word0, t), Common(env.strict, word1, t);
             n0 < |word0| && n1 < |word1| && n0 < |w| && n1 < |w|
    ensures var r := ReadWord(env, w + Nul(), word0, v0, word1, v1, err); r.Fail? && r.err == err
  {
    hide Common;
    var t := w + Nul();
    var n0, n1 := Common(env.strict, word0, t), Common(env.strict, word1, t);
    var at := if n0 < n1 then n1 else n0;
    assert EndOfWord(n0, |word0|, n1, |word1|, |t|) == Differs(at);
    assert ReadWord(env, t, word0, v0, word1, v1, err) == FailAt(err, t[at..]);
    hide ReadWord, EndOfWord;
    assert t[at] == w[at] && w[at] in w;
  }

  // The terminator is in the way.
  lemma WordCut(env: Env, w: Text, word0: Text, v0: Value, word1: Text, v1: Value, err: Fault)
    requires var t := w + Nul();
             var n0, n1 := Common(env.strict, word0, t), Common(env.strict, word1, t);
             |w| == n0 < |word0| && n1 < |word1| && n1 <= n0
    ensures var r := ReadWord(env, w + Nul(), word0, v0, word1, v1, err); r.Fail? && r.err == UnexpectedEof
  {
    hide Common;
    var t := w + Nul();
    assert EndOfWord(|w|, |word0|, Common(env.strict, word1, t), |word1|, |t|) == Differs(|w|);
    assert ReadWord(env, t, word0, v0, word1, v1, err) == FailAt(err, t[|w|..]);
  }

  // The first word of a pair, or of two that are the same
  lemma FirstWord(env: Env, w: Text, word0: Text, v0: Value, word1: Text, v1: Value, err: Fault)
    requires Letters(word0) && |w| == |word0| && Spells(env.strict, w, word0)
    ensures ReadWord(env, w + Nul(), word0, v0, word1, v1, err) == Got(v0, Nul())
  {
    SpellsIsCommon(env.strict, word0, w, Nul());
    assert word0[..|w|] == word0 && (w + Nul())[|w|..] == Nul();
    hide Common, Spells;
  }

  // The second one, which the first does not begin like
  lemma SecondWord(env: Env, w: Text, rest: Text, word0: Text, v0: Value, word1: Text, v1: Value, err: Fault)
    requires Letters(word1) && |w| == |word1| && Spells(env.strict, w, word1) && rest != []
    requires Common(env.strict, word0, w + rest) < |word0|
    ensures ReadWord(env, w + rest, word0, v0, word1, v1, err) == Got(v1, rest)
  {
    SpellsIsCommon(env.strict, word1, w, rest);
    assert word1[..|w|] == word1 && (w + rest)[|w|..] == rest;
    hide Common, Spells;
  }

  lemma NotSpelled(strict: bool, w: Text, word: Text, rest: Text)
    requires Letters(word) && |w| <= |word| && !Spells(strict, w, word[..|w|])
    ensures Common(strict, word, w + rest) < |w|
  {
    SpellsIsCommon(strict, word, w, rest);
  }

  // The letter that begins one word begins no other that is tried with it.
  lemma OtherFirst(strict: bool, w: Text, word: Text, rest: Text)
    requires Letters(word) && w != [] && word != [] && !Spells(strict, w[..1], word[..1])
    ensures Common(strict, word, w + rest) == 0
  {
    NotSpelled(strict, w[..1], word, w[1..] + rest);
    assert w[..1] + (w[1..] + rest) == w + rest;
  }

  // Infinity, which has a state of its own
  lemma InfinityParses(env: Env, tok: Tok, w: Text)
    requires Ready(tok) && '\0' !in w && |w| == 8 && (w[0] == 'I' || w[0] == 'i')
    ensures var o := Run(env, tok, w + Nul());
            if Spells(env.strict, w, "Infinity") then o.err == Success && o.value == JInfinity(false) && o.used == 8
            else o.err == UnexpectedChar && o.value == JNull
  {
    hide Common, Spells, ReadWord, Run, ReadHere;
    var v, t := JInfinity(false), w + Nul();
    KeywordReads(env, t, 0, tok.stPos == 0);
    assert "Infinity"[..8] == "Infinity";
    if Spells(env.strict, w, "Infinity") {
      FirstWord(env, w, "Infinity", v, "Infinity", v, UnexpectedChar);
    } else {
      NotSpelled(env.strict, w, "Infinity", Nul());
      WordFails(env, w, "Infinity", v, "Infinity", v, UnexpectedChar);
    }
    KeywordRuns(env, tok, t, ReadWord(env, t, "Infinity", v, "Infinity", v, UnexpectedChar));
  }

  lemma TrueParses(env: Env, tok: Tok, w: Text)
    requires Ready(tok) && '\0' !in w && |w| == 4 && (w[0] == 'T' || w[0] == 't')
    ensures var o := Run(env, tok, w + Nul());
            if Spells(env.strict, w, "true") then o.err == Success && o.value == JBool(true) && o.used == 4
            else o.err == BadBoolean && o.value == JNull
  {
    var t := w + Nul();
    OtherFirst(env.strict, w, "false", Nul());
    hide Common, Spells, ReadWord, Run, ReadHere;
    KeywordReads(env, t, 0, tok.stPos == 0);
    assert "true"[..4] == "true";
    if Spells(env.strict, w, "true") {
      FirstWord(env, w, "true", JBool(true), "false", JBool(false), BadBoolean);
    } else {
      NotSpelled(env.strict, w, "true", Nul());
      WordFails(env, w, "true", JBool(true), "false", JBool(false), BadBoolean);
    }
    KeywordRuns(env, tok, t, ReadWord(env, t, "true", JBool(true), "false", JBool(false), BadBoolean));
  }

  lemma FalseParses(env: Env, tok: Tok, w: Text)
    requires Ready(tok) && '\0' !in w && |w| == 5 && (w[0] == 'F' || w[0] == 'f')
    ensures var o := Run(env, tok, w + Nul());
            if Spells(env.strict, w, "false") then o.err == Success && o.value == JBool(false) && o.used == 5
            else o.err == BadBoolean && o.value == JNull
  {
    var t := w + Nul();
    OtherFirst(env.strict, w, "true", Nul());
    hide Common, Spells, ReadWord, Run, ReadHere;
    KeywordReads(env, t, 0, tok.stPos == 0);
    assert "false"[..5] == "false";
    if Spells(env.strict, w, "false") {
      SecondWord(env, w, Nul(), "true", JBool(true), "false", JBool(false), BadBoolean);
    } else {
      NotSpelled(env.strict, w, "false", Nul());
      WordFails(env, w, "true", JBool(true), "false", JBool(false), BadBoolean);
    }
    KeywordRuns(env, tok, t, ReadWord(env, t, "true", JBool(true), "false", JBool(false), BadBoolean));
  }

  // null and NaN share a state: four letters that begin like NaN are that and one letter more.
  lemma NullParses(env: Env, tok: Tok, w: Text)
    requires Ready(tok) && '\0' !in w && |w| == 4 && (w[0] == 'N' || w[0] == 'n')
    ensures var o := Run(env, tok, w + Nul());
            if Spells(env.strict, w, "null") then o.err == Success && o.value == JNull && o.used == 4
            else if !Spells(env.strict, w[..3], "NaN") then o.err == BadNull && o.value == JNull
            else IsLetter(w[3]) ==>
                   if env.strict then o.err == UnexpectedChar && o.value == JNull
                   else o.err == Success && o.value == JNaN && o.used == 3
  {
    var t := w + Nul();
    var rest := w[3..] + Nul();
    assert w[..3] + rest == t && "NaN"[..3] == "NaN" && "null"[..4] == "null";
    hide Common, Spells, ReadWord, Run, ReadHere, IsLetter;
    KeywordReads(env, t, 0, tok.stPos == 0);
    if Spells(env.strict, w, "null") {
      FirstWord(env, w, "null", JNull, "NaN", JNaN, BadNull);
    } else {
      NotSpelled(env.strict, w, "null", Nul());
      if Spells(env.strict, w[..3], "NaN") {
        SecondWord(env, w[..3], rest, "null", JNull, "NaN", JNaN, BadNull);
      } else {
        NotSpelled(env.strict, w[..3], "NaN", rest);
        WordFails(env, w, "null", JNull, "NaN", JNaN, BadNull);
      }
    }
    KeywordRuns(env, tok, t, ReadWord(env, t, "null", JNull, "NaN", JNaN, BadNull));
  }

  // Three letters that begin like null are cut short by the terminator.
  lemma NaNParses(env: Env, tok: Tok, w: Text)
    requires Ready(tok) && '\0' !in w && |w| == 3 && (w[0] == 'N' || w[0] == 'n')
    ensures var o := Run(env, tok, w + Nul());
            if Spells(env.strict, w, "NaN") then o.err == Success && o.value == JNaN && o.used == 3
            else if Spells(env.strict, w, "nul") then o.err == UnexpectedEof && o.value == JNull
            else o.err == BadNull && o.value == JNull
  {
    var t := w + Nul();
    assert "NaN"[..3] == "NaN" && "null"[..3] == "nul";
    NullNeedsFour(env.strict, w);
    hide Common, Spells, ReadWord, Run, ReadHere;
    KeywordReads(env, t, 0, tok.stPos == 0);
    if Spells(env.strict, w, "NaN") {
      SecondWord(env, w, Nul(), "null", JNull, "NaN", JNaN, BadNull);
    } else {
      NotSpelled(env.strict, w, "NaN", Nul());
      if Spells(env.strict, w, "nul") {
        SpellsIsCommon(env.strict, "null", w, Nul());
        WordCut(env, w, "null", JNull, "NaN", JNaN, BadNull);
      } else {
        NotSpelled(env.strict, w, "null", Nul());
        WordFails(env, w, "null", JNull, "NaN", JNaN, BadNull);
      }
    }
    KeywordRuns(env, tok, t, ReadWord(env, t, "null", JNull, "NaN", JNaN, BadNull));
  }

  // The terminator is not the last letter of null.
  lemma NullNeedsFour(strict: bool, w: Text)
    requires |w| == 3
    ensures Common(strict, "null", w + Nul()) <= 3
  {
    var t := w + Nul();
    assert t[..4] + [] == t && "null"[..4] == "null";
    SpellsIsCommon(strict, "null", t, []);
    assert t + [] == t && t[3] == '\0';
  }
}
