// The numbers of section 6 of RFC 8259, and what the tokener makes of them.

module NumberForms {
  import opened Options
  import opened Chars
  import opened JsonValue
  import opened Numbers
  import opened Tokener
  import opened Reader
  import opened Grammar

  datatype Sign = NoSign | PlusSign | MinusSign

  datatype Exponent = Exponent(capital: bool, sign: Sign, digits: Text)

  // number = [ minus ] int [ frac ] [ exp ]
  datatype RfcNumber = RfcNumber(minus: bool, whole: Text, frac: Option<Text>, exp: Option<Exponent>)

  predicate NonEmptyDigits(s: Text) {
    s != [] && AllDigits(s)
  }

  predicate RfcOk(n: RfcNumber) {
    && NonEmptyDigits(n.whole) && (n.whole[0] == '0' ==> |n.whole| == 1)
    && (n.frac.Some? ==> NonEmptyDigits(n.frac.value))
    && (n.exp.Some? ==> NonEmptyDigits(n.exp.value.digits))
  }

  function MinusText(minus: bool): Text {
    if minus then ['-'] else []
  }

  function SignText(s: Sign): Text {
    match s
    case NoSign => []
    case PlusSign => ['+']
    case MinusSign => ['-']
  }

  function FracText(f: Option<Text>): Text {
    if f.None? then [] else ['.'] + f.value
  }

  function ExpText(e: Option<Exponent>): Text {
    if e.None? then [] else [if e.value.capital then 'E' else 'e'] + SignText(e.value.sign) + e.value.digits
  }

  function RfcText(n: RfcNumber): Text {
    MinusText(n.minus) + n.whole + FracText(n.frac) + ExpText(n.exp)
  }

  // sscanf("%lf") takes every number with a fraction or an exponent.
  ghost predicate ScansReals(env: Env) {
    forall n: RfcNumber | RfcOk(n) && (n.frac.Some? || n.exp.Some?) :: env.scansAsDouble(RfcText(n))
  }

  function RfcValue(n: RfcNumber): Value
    requires RfcOk(n)
  {
    if n.frac.Some? || n.exp.Some? then JDouble(RfcText(n))
    else JInt(Saturate(if n.minus then 0 - NatOf(n.whole) else NatOf(n.whole)))
  }

  lemma {:induction false} DigitRunOfDigits(s: Text)
    requires AllDigits(s)
    ensures DigitRun(s) == s
  {
    if s != [] {
      DigitRunOfDigits(s[1..]);
    }
  }

  lemma ScanDigits(d: Text)
    requires d != [] && AllDigits(d)
    ensures ScanInt64(d) == Some(Saturate(NatOf(d)))
    ensures ScanInt64(['-'] + d) == Some(Saturate(0 - NatOf(d)))
  {
    DigitRunOfDigits(d);
    assert IsDigit(d[0]);
    assert (['-'] + d)[1..] == d;
    hide NatOf, DigitRun, Saturate;
  }

  // A number without '.', 'e' and 'E'
  lemma DigitsAreInteger(d: Text)
    requires d != [] && AllDigits(d)
    ensures forall i | 0 <= i < |d| :: IsNumberChar(d[i])
    ensures !IsReal(d) && !IsReal(['-'] + d)
  {
  }

  lemma LeadingZero(d: Text)
    requires d == ['0']
    ensures AllDigits(d) && NatOf(d) == 0
  {
    assert d[..0] == [] && NatOf([]) == 0;
  }

  lemma IntegerOk(env: Env, minus: bool, d: Text)
    requires d != [] && AllDigits(d) && (d[0] == '0' ==> |d| == 1)
    ensures var s := MinusText(minus) + d;
            NumberOk(env, s) && NumberValue(env, s) == JInt(Saturate(if minus then 0 - NatOf(d) else NatOf(d)))
  {
    hide NatOf, ScanInt64, IsReal, Saturate;
    ScanDigits(d);
    DigitsAreInteger(d);
    assert [] + d == d && IsDigit(d[0]);
    hide AllDigits;
    if d[0] == '0' {
      assert d == ['0'];
      LeadingZero(d);
      SaturateZero();
    }
  }

  lemma SaturateZero()
    ensures Saturate(0) == 0
  {
  }

  predicate NumberChars(s: Text) {
    forall i | 0 <= i < |s| :: IsNumberChar(s[i])
  }

  lemma PartsAreNumberChars(n: RfcNumber)
    requires RfcOk(n)
    ensures NumberChars(MinusText(n.minus) + n.whole)
    ensures NumberChars(FracText(n.frac))
    ensures NumberChars(ExpText(n.exp))
  {
  }

  lemma RealHasMark(n: RfcNumber)
    requires n.frac.Some? || n.exp.Some?
    ensures IsReal(RfcText(n))
  {
    var front := MinusText(n.minus) + n.whole;
    if n.frac.Some? {
      assert RfcText(n)[|front|] == '.';
    } else {
      assert RfcText(n)[|front|] == ExpText(n.exp)[0];
    }
  }

  lemma FirstOfNumber(n: RfcNumber)
    requires RfcOk(n)
    ensures RfcText(n) != [] && (IsDigit(RfcText(n)[0]) || RfcText(n)[0] == '-')
  {
  }

  // Every number of the RFC is read: an integer for its value, saturated at 64 bits, any other
  // number for its text.
  lemma RfcNumberReads(env: Env, n: RfcNumber)
    requires RfcOk(n) && ScansReals(env)
    ensures NumberOk(env, RfcText(n)) && NumberValue(env, RfcText(n)) == RfcValue(n)
  {
    if n.frac.Some? || n.exp.Some? {
      PartsAreNumberChars(n);
      RealHasMark(n);
      FirstOfNumber(n);
      hide IsReal, FracText, ExpText, IsNumberChar, ScanInt64;
    } else {
      assert RfcText(n) == MinusText(n.minus) + n.whole;
      IntegerOk(env, n.minus, n.whole);
      hide NumberOk, NumberValue;
    }
  }
}
