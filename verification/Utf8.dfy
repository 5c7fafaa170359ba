// Well-formed UTF-8 (sections 3 and 4 of RFC 3629), and the bytes the tokener writes for escapes.

module Utf8Form {
  import opened Options
  import opened Chars
  import opened Unicode
  import opened Tokener
  import opened Reader
  import opened Grammar
  import opened StringReads

  predicate In(c: char, lo: int, hi: int) {
    lo <= c as int <= hi
  }

  predicate Continues(c: char) {
    In(c, 0x80, 0xBF)
  }

  // The number of octets of the first character of x; 0 if x does not start with a character
  function FirstLength(x: Text): (n: nat)
    ensures n <= |x|
  {
    if |x| >= 1 && In(x[0], 0, 0x7F) then 1
    else if |x| >= 2 && In(x[0], 0xC2, 0xDF) && Continues(x[1]) then 2
    else if |x| >= 3 && Continues(x[2]) &&
            (|| (x[0] == 0xE0 as char && In(x[1], 0xA0, 0xBF))
             || (In(x[0], 0xE1, 0xEC) && Continues(x[1]))
             || (x[0] == 0xED as char && In(x[1], 0x80, 0x9F))
             || (In(x[0], 0xEE, 0xEF) && Continues(x[1]))) then 3
    else if |x| >= 4 && Continues(x[2]) && Continues(x[3]) &&
            (|| (x[0] == 0xF0 as char && In(x[1], 0x90, 0xBF))
             || (In(x[0], 0xF1, 0xF3) && Continues(x[1]))
             || (x[0] == 0xF4 as char && In(x[1], 0x80, 0x8F))) then 4
    else 0
  }

  // Its character number
  function FirstPoint(x: Text): int
    requires FirstLength(x) > 0
  {
    match FirstLength(x)
    case 1 => x[0] as int
    case 2 => (x[0] as int - 0xC0) * 64 + (x[1] as int - 0x80)
    case 3 => (x[0] as int - 0xE0) * 4096 + (x[1] as int - 0x80) * 64 + (x[2] as int - 0x80)
    case _ =>
      (x[0] as int - 0xF0) * 262144 + (x[1] as int - 0x80) * 4096 + (x[2] as int - 0x80) * 64 + (x[3] as int - 0x80)
  }

  predicate WellFormed(x: Text) {
    x == [] || (FirstLength(x) > 0 && WellFormed(x[FirstLength(x)..]))
  }

  function Points(x: Text): seq<int>
    requires WellFormed(x)
  {
    if x == [] then [] else [FirstPoint(x)] + Points(x[FirstLength(x)..])
  }

  predicate IsScalar(u: nat) {
    u < 0xD800 || 0xE000 <= u < 0x110000
  }

  // What the tokener writes for a scalar value is that character, whatever follows it.
  lemma EncodedFirst(u: nat, rest: Text)
    requires IsScalar(u)
    ensures FirstLength(Utf8(u) + rest) == |Utf8(u)| > 0
    ensures FirstPoint(Utf8(u) + rest) == u
  {
    hide Utf8, FirstLength, FirstPoint;
    if u < 0x80 {
      OneOctet(u, rest);
    } else if u < 0x800 {
      TwoOctets(u, rest);
    } else if u < 0x10000 {
      ThreeOctets(u, rest);
    } else {
      FourOctets(u, rest);
    }
  }

  lemma OneOctet(u: nat, rest: Text)
    requires u < 0x80
    ensures FirstLength(Utf8(u) + rest) == |Utf8(u)| == 1 && FirstPoint(Utf8(u) + rest) == u
  {
    assert (Utf8(u) + rest)[0] == Utf8(u)[0];
  }

  lemma TwoOctets(u: nat, rest: Text)
    requires 0x80 <= u < 0x800
    ensures FirstLength(Utf8(u) + rest) == |Utf8(u)| == 2 && FirstPoint(Utf8(u) + rest) == u
  {
    assert u == u / 64 * 64 + u % 64;
    assert forall i | 0 <= i < 2 :: (Utf8(u) + rest)[i] == Utf8(u)[i];
  }

  lemma ThreeOctets(u: nat, rest: Text)
    requires 0x800 <= u < 0x10000 && IsScalar(u)
    ensures FirstLength(Utf8(u) + rest) == |Utf8(u)| == 3 && FirstPoint(Utf8(u) + rest) == u
  {
    assert u / 64 / 64 == u / 4096;
    assert u == u / 4096 * 4096 + u / 64 % 64 * 64 + u % 64;
    assert forall i | 0 <= i < 3 :: (Utf8(u) + rest)[i] == Utf8(u)[i];
  }

  lemma FourOctets(u: nat, rest: Text)
    requires 0x10000 <= u < 0x110000
    ensures FirstLength(Utf8(u) + rest) == |Utf8(u)| == 4 && FirstPoint(Utf8(u) + rest) == u
  {
    assert u / 64 / 64 == u / 4096 && u / 4096 / 64 == u / 262144;
    assert u == u / 262144 * 262144 + u / 4096 % 64 * 4096 + u / 64 % 64 * 64 + u % 64;
    assert forall i | 0 <= i < 4 :: (Utf8(u) + rest)[i] == Utf8(u)[i];
  }

  lemma ReplacementIsEncoded()
    ensures REPLACEMENT == Utf8(0xFFFD) && IsScalar(0xFFFD)
  {
  }

  // ---- strings of escapes

  // The plain characters up to the first escape
  function RawsAhead(s: seq<Item>): (x: Text)
    ensures |x| <= |s|
  {
    if s != [] && s[0].Raw? then [s[0].c] + RawsAhead(s[1..]) else ""
  }

  // The first of them
  function FirstRaw(s: seq<Item>): (x: Text)
    ensures |x| <= |s|
  {
    RawsAhead(s)[..FirstLength(RawsAhead(s))]
  }

  // Between the escapes stands well-formed UTF-8.
  predicate RawsOk(s: seq<Item>) {
    s == [] ||
    if s[0].Raw? then FirstRaw(s) != "" && RawsOk(s[|FirstRaw(s)|..]) else RawsOk(s[1..])
  }

  lemma RawsBehindPair(s: seq<Item>)
    requires RawsOk(s) && |s| > 1 && !s[0].Raw? && !s[1].Raw?
    ensures RawsOk(s[2..])
  {
    assert RawsOk(s[1..]) && s[1..][1..] == s[2..];
  }

  // The characters of a string: pairs of surrogates joined, lone ones replaced by U+FFFD
  function Scalars(s: seq<Item>): seq<int>
    requires ItemsOk(s) && RawsOk(s)
  {
    if s == [] then []
    else
      match s[0]
      case Raw(_) =>
        WholeCharacter(s);
        [FirstPoint(FirstRaw(s))] + Scalars(s[|FirstRaw(s)|..])
      case Short(c) => [Unescape(c).value as int] + Scalars(s[1..])
      case Code(digits) =>
        if IsHighUnit(s[0]) && |s| > 1 && IsLowUnit(s[1]) then
          RawsBehindPair(s);
          [PairValue(s[0], s[1])] + Scalars(s[2..])
        else if IsHighUnit(s[0]) || IsLowUnit(s[0]) then [0xFFFD] + Scalars(s[1..])
        else [CodeUnit(digits)] + Scalars(s[1..])
  }

  lemma Prepend(u: nat, rest: Text)
    requires IsScalar(u) && WellFormed(rest)
    ensures WellFormed(Utf8(u) + rest)
    ensures Points(Utf8(u) + rest) == [u] + Points(rest)
  {
    EncodedFirst(u, rest);
    var x := Utf8(u) + rest;
    assert x[|Utf8(u)|..] == rest;
    hide Utf8, FirstLength, FirstPoint;
  }

  // The first character of a text is one whatever follows it.
  lemma WholeFirst(x: Text, rest: Text)
    requires FirstLength(x) > 0
    ensures var c := x[..FirstLength(x)];
            FirstLength(c) == FirstLength(c + rest) == |c| && FirstPoint(c) == FirstPoint(c + rest) == FirstPoint(x)
  {
    var c := x[..FirstLength(x)];
    assert forall i | 0 <= i < |c| :: (c + rest)[i] == c[i] == x[i];
  }

  lemma PrependFirst(x: Text, rest: Text)
    requires FirstLength(x) > 0 && WellFormed(rest)
    ensures var c := x[..FirstLength(x)];
            FirstLength(c) > 0 && WellFormed(c + rest) && Points(c + rest) == [FirstPoint(c)] + Points(rest)
  {
    var c := x[..FirstLength(x)];
    WholeFirst(x, rest);
    assert (c + rest)[|c|..] == rest;
    hide FirstLength, FirstPoint;
  }

  lemma WholeCharacter(s: seq<Item>)
    requires FirstRaw(s) != ""
    ensures FirstLength(RawsAhead(s)) > 0 && FirstLength(FirstRaw(s)) == |FirstRaw(s)|
  {
    WholeFirst(RawsAhead(s), "");
    assert FirstRaw(s) + "" == FirstRaw(s);
    hide FirstLength;
  }

  // Plain characters are read, and mean, themselves.
  lemma {:induction false} RawsTaken(s: seq<Item>, n: nat)
    requires ItemsOk(s) && n <= |RawsAhead(s)|
    ensures Taken(s) == RawsAhead(s)[..n] + Taken(s[n..])
    ensures Decode(s) == RawsAhead(s)[..n] + Decode(s[n..])
  {
    hide Taken, Decode;
    if n == 0 {
      assert s[0..] == s;
    } else {
      RawsTaken(s[1..], n - 1);
      assert s[1..][n - 1..] == s[n..];
      OneTaken(s);
      var x := RawsAhead(s[1..])[..n - 1];
      assert RawsAhead(s)[..n] == [s[0].c] + x;
      assert [s[0].c] + (x + Taken(s[n..])) == ([s[0].c] + x) + Taken(s[n..]);
      assert [s[0].c] + (x + Decode(s[n..])) == ([s[0].c] + x) + Decode(s[n..]);
    }
  }

  lemma OneTaken(s: seq<Item>)
    requires ItemsOk(s) && s != [] && s[0].Raw?
    ensures Taken(s) == [s[0].c] + Taken(s[1..]) && Decode(s) == [s[0].c] + Decode(s[1..])
  {
    hide TakenCode, Utf8;
  }

  lemma FirstTaken(s: seq<Item>)
    requires ItemsOk(s) && RawsOk(s) && s != [] && s[0].Raw?
    requires WellFormed(Taken(s[|FirstRaw(s)|..])) || WellFormed(Decode(s[|FirstRaw(s)|..]))
    ensures var rest := s[|FirstRaw(s)|..];
            && (WellFormed(Taken(rest)) ==> WellFormed(Taken(s)))
            && (WellFormed(Decode(rest)) && Points(Decode(rest)) == Scalars(rest) ==>
                  WellFormed(Decode(s)) && Points(Decode(s)) == Scalars(s))
  {
    var x, rest := RawsAhead(s), s[|FirstRaw(s)|..];
    WholeCharacter(s);
    RawsTaken(s, |FirstRaw(s)|);
    hide WellFormed, FirstLength, FirstPoint, Points, Taken, Decode, RawsAhead;
    if WellFormed(Taken(rest)) {
      PrependFirst(x, Taken(rest));
    }
    if WellFormed(Decode(rest)) {
      PrependFirst(x, Decode(rest));
    }
  }

  lemma AsciiIsEncoded(c: char)
    requires c as int < 0x80
    ensures Utf8(c as int) == [c] && IsScalar(c as int)
  {
  }

  lemma UnescapedIsAscii(c: char)
    requires Unescape(c).Some?
    ensures Unescape(c).value as int < 0x80
  {
  }

  // Every string of escapes and well-formed UTF-8 comes out of the reader as well-formed UTF-8, clean or not.
  lemma {:induction false} TakenIsWellFormed(s: seq<Item>)
    requires ItemsOk(s) && RawsOk(s)
    ensures WellFormed(Taken(s))
    decreases |s|, 0
  {
    if s != [] {
      hide Utf8, WellFormed, CodeUnit, Unescape, IsScalar;
      match s[0]
      case Raw(_) => TakenIsWellFormed(s[|FirstRaw(s)|..]); FirstTaken(s);
      case Short(c) =>
        UnescapedIsAscii(c);
        AsciiIsEncoded(Unescape(c).value);
        TakenIsWellFormed(s[1..]);
        Prepend(Unescape(c).value as int, Taken(s[1..]));
      case Code(digits) =>
        SurrogateUnits(s[0]);
        CodeIsWellFormed(s[1..], CodeUnit(digits));
    }
  }

  lemma UnmarkedIsScalar(u: nat)
    requires u < 0x110000 && !IsHighSurrogate(u) && !IsLowSurrogate(u)
    ensures IsScalar(u)
  {
    LowBits(u);
  }

  lemma SmallIsScalar(u: nat)
    requires u < 0x800
    ensures IsScalar(u)
  {
  }

  lemma {:induction false} CodeIsWellFormed(s: seq<Item>, u: nat)
    requires ItemsOk(s) && RawsOk(s) && u < 0x110000
    ensures WellFormed(TakenCode(s, u))
    decreases |s|, 1
  {
    hide Utf8, WellFormed, CodeUnit, Unescape, IsScalar, IsHighSurrogate, IsLowSurrogate, DecodePair, Taken;
    ReplacementIsEncoded();
    if u < 0x800 || (!IsHighSurrogate(u) && !IsLowSurrogate(u)) {
      if u < 0x800 { SmallIsScalar(u); } else { UnmarkedIsScalar(u); }
      TakenIsWellFormed(s);
      Prepend(u, Taken(s));
    } else if IsLowSurrogate(u) || s == [] || !s[0].Code? {
      TakenIsWellFormed(s);
      Prepend(0xFFFD, Taken(s));
    } else {
      var unit := CodeUnit(s[0].digits);
      SurrogateUnits(s[0]);
      if IsLowSurrogate(unit) {
        PairOfPair(u, s[0]);
        CodeIsWellFormed(s[1..], DecodePair(u, unit));
      } else {
        CodeIsWellFormed(s[1..], unit);
        Prepend(0xFFFD, TakenCode(s[1..], unit));
      }
    }
  }

  // A string without misread pairs comes out as exactly its characters.
  lemma {:induction false} DecodedPoints(s: seq<Item>)
    requires ItemsOk(s) && RawsOk(s)
    ensures WellFormed(Decode(s)) && Points(Decode(s)) == Scalars(s)
    decreases |s|, 1
  {
    if s != [] {
      hide Utf8, WellFormed, Points, CodeUnit, Unescape, IsScalar, PairValue, FourHexDigits;
      ReplacementIsEncoded();
      match s[0]
      case Raw(_) => DecodedPoints(s[|FirstRaw(s)|..]); FirstTaken(s);
      case Short(c) =>
        UnescapedIsAscii(c);
        AsciiIsEncoded(Unescape(c).value);
        DecodedPoints(s[1..]);
        Prepend(Unescape(c).value as int, Decode(s[1..]));
      case Code(digits) => DecodedCode(s);
    }
  }

  lemma UnitIsScalar(i: Item)
    requires i.Code? && ItemOk(i) && !IsHighUnit(i) && !IsLowUnit(i)
    ensures IsScalar(CodeUnit(i.digits))
  {
    SurrogateUnits(i);
  }

  lemma PairIsScalar(hi: Item, lo: Item)
    requires IsHighUnit(hi) && IsLowUnit(lo)
    ensures IsScalar(PairValue(hi, lo))
  {
    PairIsDecoded(hi, lo);
  }

  lemma {:induction false} DecodedCode(s: seq<Item>)
    requires s != [] && s[0].Code? && ItemsOk(s) && RawsOk(s)
    ensures WellFormed(Decode(s)) && Points(Decode(s)) == Scalars(s)
    decreases |s|, 0
  {
    hide Utf8, WellFormed, Points, CodeUnit, Unescape, IsScalar, PairValue, FourHexDigits;
    ReplacementIsEncoded();
    if IsHighUnit(s[0]) && |s| > 1 && IsLowUnit(s[1]) {
      PairIsScalar(s[0], s[1]);
      DecodedPoints(s[2..]);
      Prepend(PairValue(s[0], s[1]), Decode(s[2..]));
    } else {
      DecodedPoints(s[1..]);
      if IsHighUnit(s[0]) || IsLowUnit(s[0]) {
        Prepend(0xFFFD, Decode(s[1..]));
      } else {
        UnitIsScalar(s[0]);
        Prepend(CodeUnit(s[0].digits), Decode(s[1..]));
      }
    }
  }
}
