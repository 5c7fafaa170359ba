// The reader on string literals: what it makes of every sequence of characters and escapes, and
// exactly when that is what the sequence means.

module StringReads {
  import opened Options
  import opened Chars
  import opened Unicode
  import opened Tokener
  import opened Reader
  import opened Grammar

  // ---- what the reader makes of a string

  function Taken(s: seq<Item>): Text
    requires ItemsOk(s)
    decreases |s|, 0
  {
    if s == [] then ""
    else
      match s[0]
      case Raw(c) => [c] + Taken(s[1..])
      case Short(c) => [Unescape(c).value] + Taken(s[1..])
      case Code(digits) => TakenCode(s[1..], CodeUnit(digits))
  }

  // The same behind the code u
  function TakenCode(s: seq<Item>, u: nat): Text
    requires ItemsOk(s)
    decreases |s|, 1
  {
    if u < 0x800 || (!IsHighSurrogate(u) && !IsLowSurrogate(u)) then Utf8(u) + Taken(s)
    else if IsLowSurrogate(u) || s == [] || !s[0].Code? then REPLACEMENT + Taken(s)
    else if IsLowSurrogate(CodeUnit(s[0].digits)) then TakenCode(s[1..], DecodePair(u, CodeUnit(s[0].digits)))
    else REPLACEMENT + TakenCode(s[1..], CodeUnit(s[0].digits))
  }

  lemma HexDigitIsValue(c: char)
    requires IsHexDigit(c)
    ensures HexDigit(c) == HexValue(c) < 16 && c != '\0'
  {
  }

  lemma DigitsRead(d: Text, rest: Text, hi: nat)
    requires FourHexDigits(d)
    ensures Digits(d + rest, 4, 0, hi) == Got(CodeUnit(d), rest) && CodeUnit(d) < 0x10000
  {
    HexDigitIsValue(d[0]);
    HexDigitIsValue(d[1]);
    HexDigitIsValue(d[2]);
    HexDigitIsValue(d[3]);
    hide HexDigit, HexValue;
    var t := d + rest;
    var a := HexValue(d[0]);
    var b := a * 16 + HexValue(d[1]);
    var c := b * 16 + HexValue(d[2]);
    assert Digits(t, 4, 0, hi) == Digits(t[1..], 3, a, hi);
    assert Digits(t[1..], 3, a, hi) == Digits(t[2..], 2, b, hi) by {
      assert t[1..][1..] == t[2..] && t[1..][0] == d[1];
    }
    assert Digits(t[2..], 2, b, hi) == Digits(t[3..], 1, c, hi) by {
      assert t[2..][1..] == t[3..] && t[2..][0] == d[2];
    }
    assert Digits(t[3..], 1, c, hi) == Digits(rest, 0, CodeUnit(d), hi) by {
      assert t[3..][1..] == rest && t[3..][0] == d[3];
    }
  }

  // A string's text from some item on, with the closing quote and what follows
  ghost function Tail(s: seq<Item>, rest: Text): Text {
    ItemsText(s) + (['"'] + rest)
  }

  lemma TailSplits(s: seq<Item>, rest: Text)
    requires s != []
    ensures Tail(s, rest) == ItemText(s[0]) + Tail(s[1..], rest)
  {
  }

  lemma TextStep(i: Item, t: Text, acc: Text)
    requires ItemOk(i)
    ensures ReadText(ItemText(i) + t, '"', acc) ==
            if i.Raw? then ReadText(t, '"', acc + [i.c])
            else if i.Short? then ReadText(t, '"', acc + [Unescape(i.c).value])
            else ReadCode(t, '"', acc, CodeUnit(i.digits))
  {
    var u := ItemText(i) + t;
    if i.Raw? {
      assert u[1..] == t;
    } else if i.Short? {
      assert u[2..] == t;
    } else {
      assert u[2..] == i.digits + t;
      DigitsRead(i.digits, t, 0);
    }
    hide ReadCode, CodeUnit, Digits;
  }

  lemma CodeStep(t: Text, acc: Text, u: nat)
    ensures u < 0x800 || (!IsHighSurrogate(u) && !IsLowSurrogate(u)) ==>
              ReadCode(t, '"', acc, u) == ReadText(t, '"', acc + Utf8(u))
    ensures u >= 0x800 && IsLowSurrogate(u) ==> ReadCode(t, '"', acc, u) == ReadText(t, '"', acc + REPLACEMENT)
    ensures u >= 0x800 && IsHighSurrogate(u) && !(|t| >= 2 && t[0] == '\\' && t[1] == 'u') ==>
              ReadCode(t, '"', acc, u) == ReadText(t, '"', acc + REPLACEMENT)
  {
    hide Utf8, ReadText;
  }

  lemma PairStep(d: Text, t: Text, acc: Text, u: nat)
    requires FourHexDigits(d) && u >= 0x800 && IsHighSurrogate(u)
    ensures ReadCode(ItemText(Code(d)) + t, '"', acc, u) ==
            if IsLowSurrogate(CodeUnit(d)) then ReadCode(t, '"', acc, DecodePair(u, CodeUnit(d)))
            else ReadCode(t, '"', acc + REPLACEMENT, CodeUnit(d))
  {
    var w := ItemText(Code(d)) + t;
    assert w[2..] == d + t;
    DigitsRead(d, t, u);
    hide Utf8, ReadText, CodeUnit, Digits, IsLowSurrogate, DecodePair;
  }

  lemma Regroup(acc: Text, x: Text, y: Text)
    ensures acc + x + y == acc + (x + y)
  {
  }

  // Every sequence of well-formed items is read to its closing quote.
  lemma {:induction false} ItemsTaken(s: seq<Item>, rest: Text, acc: Text)
    requires ItemsOk(s)
    ensures ReadText(Tail(s, rest), '"', acc) == Got(acc + Taken(s), rest)
    decreases |s|, 0
  {
    if s == [] {
      assert Tail(s, rest) == ['"'] + rest;
      assert Tail(s, rest)[1..] == rest && acc + "" == acc;
    } else {
      hide ReadText, ReadCode, Tail, Utf8, CodeUnit, ItemOk, TakenCode;
      var t := Tail(s[1..], rest);
      TailSplits(s, rest);
      TextStep(s[0], t, acc);
      if s[0].Code? {
        CodeTaken(s[1..], rest, acc, CodeUnit(s[0].digits));
      } else {
        var c := if s[0].Raw? then s[0].c else Unescape(s[0].c).value;
        ItemsTaken(s[1..], rest, acc + [c]);
        Regroup(acc, [c], Taken(s[1..]));
      }
    }
  }

  lemma TailStarts(s: seq<Item>, rest: Text)
    requires ItemsOk(s) && (s == [] || !s[0].Code?)
    ensures var t := Tail(s, rest); !(|t| >= 2 && t[0] == '\\' && t[1] == 'u')
  {
    if s != [] {
      TailSplits(s, rest);
    }
  }

  lemma {:induction false} CodeTaken(s: seq<Item>, rest: Text, acc: Text, u: nat)
    requires ItemsOk(s)
    ensures ReadCode(Tail(s, rest), '"', acc, u) == Got(acc + TakenCode(s, u), rest)
    decreases |s|, 1
  {
    hide ReadText, ReadCode, Tail, Utf8, CodeUnit, Taken, IsHighSurrogate, IsLowSurrogate, DecodePair;
    CodeStep(Tail(s, rest), acc, u);
    if u < 0x800 || (!IsHighSurrogate(u) && !IsLowSurrogate(u)) {
      ItemsTaken(s, rest, acc + Utf8(u));
      Regroup(acc, Utf8(u), Taken(s));
    } else if IsLowSurrogate(u) || s == [] || !s[0].Code? {
      if s == [] || !s[0].Code? {
        TailStarts(s, rest);
      }
      ItemsTaken(s, rest, acc + REPLACEMENT);
      Regroup(acc, REPLACEMENT, Taken(s));
    } else {
      var d := s[0].digits;
      TailSplits(s, rest);
      PairStep(d, Tail(s[1..], rest), acc, u);
      if IsLowSurrogate(CodeUnit(d)) {
        CodeTaken(s[1..], rest, acc, DecodePair(u, CodeUnit(d)));
      } else {
        CodeTaken(s[1..], rest, acc + REPLACEMENT, CodeUnit(d));
        Regroup(acc, REPLACEMENT, TakenCode(s[1..], CodeUnit(d)));
      }
    }
  }

  // ---- when that is what the string means

  lemma SurrogateUnits(i: Item)
    requires i.Code? && ItemOk(i)
    ensures IsHighSurrogate(CodeUnit(i.digits)) == IsHighUnit(i)
    ensures IsLowSurrogate(CodeUnit(i.digits)) == IsLowUnit(i)
    ensures CodeUnit(i.digits) < 0x10000
  {
    DigitsRead(i.digits, "", 0);
    hide HexValue;
  }

  lemma PairIsDecoded(hi: Item, lo: Item)
    requires IsHighUnit(hi) && IsLowUnit(lo)
    ensures DecodePair(CodeUnit(hi.digits), CodeUnit(lo.digits)) == PairValue(hi, lo)
    ensures 0x10000 <= PairValue(hi, lo) < 0x110000
    ensures Misread(hi, lo) == (IsHighSurrogate(PairValue(hi, lo)) || IsLowSurrogate(PairValue(hi, lo)))
  {
    PairArithmetic(CodeUnit(hi.digits), CodeUnit(lo.digits));
    LowBits(PairValue(hi, lo));
    hide CodeUnit, IsHighSurrogate, IsLowSurrogate;
  }

  lemma PairArithmetic(hi: nat, lo: nat)
    requires 0xD800 <= hi < 0xDC00 <= lo < 0xE000
    ensures DecodePair(hi, lo) == 0x10000 + (hi - 0xD800) * 0x400 + (lo - 0xDC00)
  {
  }

  lemma LowBits(u: nat)
    ensures (0xD800 <= u % 0x10000 < 0xE000) == (IsHighSurrogate(u) || IsLowSurrogate(u))
  {
  }

  lemma DecodeStep(s: seq<Item>)
    requires s != [] && ItemsOk(s)
    requires !(IsHighUnit(s[0]) && |s| > 1 && IsLowUnit(s[1]))
    ensures Clean(s) == Clean(s[1..])
    ensures Decode(s) ==
            (match s[0]
             case Raw(c) => [c]
             case Short(c) => [Unescape(c).value]
             case Code(digits) =>
               if IsHighUnit(s[0]) || IsLowUnit(s[0]) then REPLACEMENT else Utf8(CodeUnit(digits))) + Decode(s[1..])
  {
    hide Utf8, CodeUnit, Misread, FourHexDigits;
  }

  lemma DecodePairStep(s: seq<Item>)
    requires |s| > 1 && ItemsOk(s) && IsHighUnit(s[0]) && IsLowUnit(s[1])
    ensures Clean(s) == (!Misread(s[0], s[1]) && Clean(s[2..]))
    ensures Decode(s) == Utf8(PairValue(s[0], s[1])) + Decode(s[2..])
  {
    hide Utf8, CodeUnit, Misread, FourHexDigits, PairValue;
  }

  // Text x for a sequence that means y: the same if the sequence is clean, otherwise shorter
  ghost predicate Matches(x: Text, y: Text, clean: bool) {
    if clean then x == y else |x| < |y|
  }

  lemma PairOfPair(u: nat, lo: Item)
    requires IsLowUnit(lo)
    ensures 0x10000 <= DecodePair(u, CodeUnit(lo.digits)) < 0x110000
  {
  }

  // A pair that is misread, with s behind it, never comes out as its four bytes and what s means.
  lemma {:induction false} MisreadFallsShort(s: seq<Item>, p: nat)
    requires ItemsOk(s) && 0x10000 <= p < 0x110000 && (IsHighSurrogate(p) || IsLowSurrogate(p))
    ensures |TakenCode(s, p)| < 4 + |Decode(s)|
    decreases |s|, 2
  {
    hide IsHighSurrogate, IsLowSurrogate, DecodePair, CodeUnit, Decode, Clean;
    TakenMatches(s);
    if IsHighSurrogate(p) && s != [] && s[0].Code? {
      SurrogateUnits(s[0]);
      if IsLowUnit(s[0]) {
        var q := DecodePair(p, CodeUnit(s[0].digits));
        PairOfPair(p, s[0]);
        DecodeStep(s);
        if IsHighSurrogate(q) || IsLowSurrogate(q) {
          MisreadFallsShort(s[1..], q);
        } else {
          TakenMatches(s[1..]);
        }
      }
    }
  }

  lemma TakenStep(s: seq<Item>)
    requires s != [] && ItemsOk(s)
    requires !(IsHighUnit(s[0]) && |s| > 1 && IsLowUnit(s[1]))
    ensures Taken(s) ==
            (match s[0]
             case Raw(c) => [c]
             case Short(c) => [Unescape(c).value]
             case Code(digits) =>
               if IsHighUnit(s[0]) || IsLowUnit(s[0]) then REPLACEMENT else Utf8(CodeUnit(digits))) + Taken(s[1..])
  {
    hide IsHighSurrogate, IsLowSurrogate, DecodePair, CodeUnit, Utf8;
    if s[0].Code? {
      SurrogateUnits(s[0]);
      if |s| > 1 && s[1].Code? {
        SurrogateUnits(s[1]);
        assert s[1..][0] == s[1];
      }
    }
  }

  // The reader decodes a string to what it means exactly when no pair in it is misread.
  lemma {:induction false} TakenMatches(s: seq<Item>)
    requires ItemsOk(s)
    ensures Matches(Taken(s), Decode(s), Clean(s))
    decreases |s|, 1
  {
    if s != [] {
      hide IsHighSurrogate, IsLowSurrogate, DecodePair, CodeUnit, PairValue, Decode, Clean, Taken;
      if s[0].Code? && |s| > 1 && IsHighUnit(s[0]) && IsLowUnit(s[1]) {
        PairMatches(s);
      } else {
        DecodeStep(s);
        TakenMatches(s[1..]);
        TakenStep(s);
      }
    }
  }

  lemma {:induction false} PairMatches(s: seq<Item>)
    requires ItemsOk(s) && |s| > 1 && IsHighUnit(s[0]) && IsLowUnit(s[1])
    ensures Matches(Taken(s), Decode(s), Clean(s))
    decreases |s|, 0
  {
    hide IsHighSurrogate, IsLowSurrogate, DecodePair, CodeUnit, PairValue, Decode, Clean, Misread;
    var p := PairValue(s[0], s[1]);
    DecodePairStep(s);
    SurrogateUnits(s[0]);
    SurrogateUnits(s[1]);
    PairIsDecoded(s[0], s[1]);
    assert s[1..][1..] == s[2..];
    assert Taken(s) == TakenCode(s[2..], p);
    assert |Utf8(p)| == 4;
    if Misread(s[0], s[1]) {
      MisreadFallsShort(s[2..], p);
    } else {
      TakenMatches(s[2..]);
    }
  }

  lemma StringIsReadExactly(s: seq<Item>, rest: Text)
    requires ItemsOk(s)
    ensures ReadText(ItemsText(s) + ['"'] + rest, '"', "").Got?
    ensures ReadText(ItemsText(s) + ['"'] + rest, '"', "") == Got(Decode(s), rest) <==> Clean(s)
  {
    hide ReadText, Taken, Decode, Clean;
    ItemsTaken(s, rest, "");
    TakenMatches(s);
    assert ItemsText(s) + ['"'] + rest == Tail(s, rest);
    assert "" + Taken(s) == Taken(s);
  }
}
