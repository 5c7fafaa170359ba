// What rotations and exclusive ors do to each bit, and the hash of some keys in numbers.

module HashValues {
  import opened Arith
  import opened Words
  import opened HashLittle

  // ---- bits

  function Bit(x: nat, i: nat): nat {
    x / Pow2(i) % 2
  }

  lemma Doubled(i: nat)
    requires i > 0
    ensures Pow2(i) == 2 * Pow2(i - 1)
  {
  }

  lemma BitOfHalf(x: nat, i: nat)
    requires i > 0
    ensures Bit(x, i) == Bit(x / 2, i - 1)
  {
    Doubled(i);
    hide Pow2;
    Nested(x, 2, Pow2(i - 1));
  }

  lemma LowestBit(x: nat)
    ensures Bit(x, 0) == x % 2
  {
    assert Pow2(0) == 1;
  }

  // A bit of an exclusive or is one if and only if it is one in just one of the two numbers.
  lemma {:induction false} XorAtBit(x: nat, y: nat, i: nat)
    ensures Bit(XorBits(x, y), i) == if Bit(x, i) == Bit(y, i) then 0 else 1
    decreases i
  {
    XorStep(x, y);
    HalfOf(XorBits(x / 2, y / 2), (x % 2 + y % 2) % 2);
    hide XorBits, Bit;
    if i == 0 {
      LowestBit(x);
      LowestBit(y);
      LowestBit(XorBits(x, y));
    } else {
      BitOfHalf(x, i);
      BitOfHalf(y, i);
      BitOfHalf(XorBits(x, y), i);
      XorAtBit(x / 2, y / 2, i - 1);
    }
  }

  lemma PowersAre()
    ensures Pow2(4) == 16 && Pow2(6) == 64 && Pow2(8) == 256 && Pow2(11) == 2048 && Pow2(14) == 16384
    ensures Pow2(16) == 65536 && Pow2(19) == 524288 && Pow2(24) == 16777216 && Pow2(25) == 33554432
  {
    assert Pow2(4) == 16;
    assert Pow2(8) == 256;
    assert Pow2(12) == 4096;
    assert Pow2(16) == 65536;
    assert Pow2(20) == 1048576;
    assert Pow2(24) == 16777216;
  }
  lemma BitBelow(hi: nat, lo: nat, n: nat, i: nat)
    requires i < n
    ensures Bit(hi * Pow2(n) + lo, i) == Bit(lo, i)
  {
    PowersAdd(i, n - i);
    Doubled(n - i);
    hide Pow2;
    assert Pow2(i) * (2 * Pow2(n - i - 1)) == Pow2(i) * 2 * Pow2(n - i - 1);
    AboveField(lo, Pow2(i), 2, Pow2(n - i - 1), hi, Pow2(n));
  }

  lemma Combined(a: nat, b: nat, c: nat)
    ensures (a + b) * c == a * c + b * c
  {
  }

  lemma BitAbove(hi: nat, lo: nat, n: nat, i: nat)
    requires i >= n && lo < Pow2(n)
    ensures Bit(hi * Pow2(n) + lo, i) == Bit(hi, i - n)
  {
    PowersAdd(n, i - n);
    hide Pow2;
    var p, q := Pow2(n), Pow2(i - n);
    var a := hi * p + lo;
    Divides(a, p, hi, lo);
    Nested(a, p, q);
  }
  // A word of which the upper part, above q, changes places with the lower one
  lemma UpperPart(x: nat, p: nat, q: nat, all: nat)
    requires p > 0 && q > 0 && all == p * q && x < all
    ensures all / p == q && x / q < p
  {
    Divides(all, p, q, 0);
    Quotient(x, q);
    if x / q >= p {
      Products(p, x / q, q);
    }
  }

  lemma Lifted(x: nat, hi: nat, lo: nat, p: nat, q: nat, all: nat)
    requires p > 0 && q > 0 && all == p * q && hi < p && lo < q && x == hi * q + lo
    ensures x * p % all == lo * p && lo * p + hi < all
  {
    Products(lo + 1, q, p);
    Combined(lo, 1, p);
    Combined(hi * q, lo, p);
    Reordered(hi, q, p);
    Divides(x * p, all, hi, lo * p) by {
      assert hi * q * p == hi * (q * p);
    }
  }

  lemma Split(x: nat, q: nat)
    requires q > 0
    ensures x == x / q * q + x % q && x % q < q
  {
    Quotient(x, q);
  }

  lemma RotIs(x: Word, p: nat, q: nat)
    requires p in {16, 64, 256, 2048, 16384, 65536, 524288, 16777216, 33554432} && q > 0 && p * q == LIMIT
    ensures Rot(x, p) == x % q * p + x / q && x == x / q * q + x % q && x / q < p && x % q < q
  {
    hide Rot;
    UpperPart(x, p, q, LIMIT);
    Split(x, q);
    Lifted(x, x / q, x % q, p, q, LIMIT);
    RotOf(x, p, q, x % q * p, x / q);
  }

  lemma RotOf(x: Word, p: nat, q: nat, a: nat, b: nat)
    requires p in {16, 64, 256, 2048, 16384, 65536, 524288, 16777216, 33554432} && q > 0
    requires LIMIT / p == q && x * p % LIMIT == a && x / q == b && a + b < LIMIT
    ensures Rot(x, p) == a + b
  {
    hide Add;
    assert Rot(x, p) == Add(a, b % LIMIT);
    NothingLost(a, b);
  }

  lemma NothingLost(a: nat, b: nat)
    requires a + b < LIMIT
    ensures b % LIMIT == b && Add(a, b % LIMIT) == a + b
  {
  }

  lemma BitsGoRound(hi: nat, lo: nat, k: nat, i: nat)
    requires 0 < k < 32 && i < 32 && hi < Pow2(k) && lo < Pow2(32 - k)
    ensures Bit(lo * Pow2(k) + hi, i) == Bit(hi * Pow2(32 - k) + lo, (i + 32 - k) % 32)
  {
    hide Pow2, Bit;
    if i >= k {
      BitAbove(lo, hi, k, i);
      BitBelow(hi, lo, 32 - k, i - k);
    } else {
      BitBelow(lo, hi, k, i);
      BitAbove(hi, lo, 32 - k, i + 32 - k);
    }
  }

  lemma RotRound(x: Word, p: nat, k: nat, i: nat)
    requires p in {16, 64, 256, 2048, 16384, 65536, 524288, 16777216, 33554432}
    requires 0 < k < 32 && i < 32 && p == Pow2(k) && Pow2(k) * Pow2(32 - k) == LIMIT
    ensures Bit(Rot(x, p), i) == Bit(x, (i + 32 - k) % 32)
  {
    hide Pow2, Rot, Bit;
    var q := Pow2(32 - k);
    RotIs(x, p, q);
    BitsGoRound(x / q, x % q, k, i);
  }

  // The bits go round by k places.
  lemma RotAtBit(x: Word, k: nat, i: nat)
    requires k in {4, 6, 8, 11, 14, 16, 19, 24, 25} && i < 32
    ensures Pow2(k) in {16, 64, 256, 2048, 16384, 65536, 524288, 16777216, 33554432}
    ensures Bit(Rot(x, Pow2(k)), i) == Bit(x, (i + 32 - k) % 32)
  {
    PowersAre();
    PowersAdd(k, 32 - k);
    Pow2Of32();
    hide Pow2, Rot, Bit;
    RotRound(x, Pow2(k), k, i);
  }

  // ---- exclusive or, one hexadecimal digit at a time

  // A word of eight digits
  datatype Hex = Hex(d7: nat, d6: nat, d5: nat, d4: nat, d3: nat, d2: nat, d1: nat, d0: nat)

  predicate IsHex(x: Hex) {
    && x.d7 < 16 && x.d6 < 16 && x.d5 < 16 && x.d4 < 16
    && x.d3 < 16 && x.d2 < 16 && x.d1 < 16 && x.d0 < 16
  }

  function Value(x: Hex): (v: Word)
    requires IsHex(x)
  {
    16 * (16 * (16 * (16 * (16 * (16 * (16 * x.d7 + x.d6) + x.d5) + x.d4) + x.d3) + x.d2) + x.d1) + x.d0
  }

  function Xor1(d: int, e: int): int {
    if d == e then 0 else 1
  }

  function Xor2(d: int, e: int): int {
    (if (d >= 2) != (e >= 2) then 2 else 0) + Xor1(if d >= 2 then d - 2 else d, if e >= 2 then e - 2 else e)
  }

  function Xor3(d: int, e: int): int {
    (if (d >= 4) != (e >= 4) then 4 else 0) + Xor2(if d >= 4 then d - 4 else d, if e >= 4 then e - 4 else e)
  }

  // d ^ e for two digits
  function Xor4(d: int, e: int): int {
    (if (d >= 8) != (e >= 8) then 8 else 0) + Xor3(if d >= 8 then d - 8 else d, if e >= 8 then e - 8 else e)
  }

  lemma XorBit(x: nat, y: nat, i: nat, j: nat)
    requires i < 2 && j < 2
    ensures XorBits(2 * x + i, 2 * y + j) == 2 * XorBits(x, y) + Xor1(i, j)
  {
    hide XorBits;
    XorStep(2 * x + i, 2 * y + j);
    HalfOf(x, i);
    HalfOf(y, j);
  }

  lemma XorTwoBits(x: nat, y: nat, d: nat, e: nat)
    requires d < 4 && e < 4
    ensures XorBits(4 * x + d, 4 * y + e) == 4 * XorBits(x, y) + Xor2(d, e)
  {
    hide XorBits;
    var i, j := if d >= 2 then 1 else 0, if e >= 2 then 1 else 0;
    XorBit(x, y, i, j);
    XorBit(2 * x + i, 2 * y + j, d - 2 * i, e - 2 * j);
  }

  lemma XorDigit(x: nat, y: nat, d: nat, e: nat)
    requires d < 16 && e < 16
    ensures XorBits(16 * x + d, 16 * y + e) == 16 * XorBits(x, y) + Xor4(d, e)
  {
    hide XorBits;
    var i, j := HighPair(d), HighPair(e);
    XorTwoBits(x, y, i, j);
    XorTwoBits(4 * x + i, 4 * y + j, d - 4 * i, e - 4 * j);
    DigitOfPairs(d, e);
  }

  function HighPair(d: nat): (i: nat)
    requires d < 16
    ensures i < 4 && 4 * i <= d < 4 * i + 4
  {
    if d >= 12 then 3 else if d >= 8 then 2 else if d >= 4 then 1 else 0
  }

  lemma DigitOfPairs(d: nat, e: nat)
    requires d < 16 && e < 16
    ensures Xor4(d, e) == 4 * Xor2(HighPair(d), HighPair(e)) + Xor2(d - 4 * HighPair(d), e - 4 * HighPair(e))
  {
  }

  // x ^ y
  function XorHex(x: Hex, y: Hex): nat {
    16 * (16 * (16 * (16 * (16 * (16 * (16 * Xor4(x.d7, y.d7) + Xor4(x.d6, y.d6)) + Xor4(x.d5, y.d5))
      + Xor4(x.d4, y.d4)) + Xor4(x.d3, y.d3)) + Xor4(x.d2, y.d2)) + Xor4(x.d1, y.d1)) + Xor4(x.d0, y.d0)
  }

  lemma XorHexIs(x: Hex, y: Hex)
    requires IsHex(x) && IsHex(y)
    ensures Xor(Value(x), Value(y)) == XorHex(x, y)
  {
    hide XorBits, Xor4;
    var x6, y6 := 16 * x.d7 + x.d6, 16 * y.d7 + y.d6;
    var x5, y5 := 16 * x6 + x.d5, 16 * y6 + y.d5;
    var x4, y4 := 16 * x5 + x.d4, 16 * y5 + y.d4;
    var x3, y3 := 16 * x4 + x.d3, 16 * y4 + y.d3;
    var x2, y2 := 16 * x3 + x.d2, 16 * y3 + y.d2;
    var x1, y1 := 16 * x2 + x.d1, 16 * y2 + y.d1;
    assert XorBits(0, 0) == 0 by {
      NothingXored();
    }
    XorDigit(0, 0, x.d7, y.d7);
    XorDigit(x.d7, y.d7, x.d6, y.d6);
    XorDigit(x6, y6, x.d5, y.d5);
    XorDigit(x5, y5, x.d4, y.d4);
    XorDigit(x4, y4, x.d3, y.d3);
    XorDigit(x3, y3, x.d2, y.d2);
    XorDigit(x2, y2, x.d1, y.d1);
    XorDigit(x1, y1, x.d0, y.d0);
  }

  lemma NothingXored()
    ensures XorBits(0, 0) == 0
  {
  }

  // ---- the steps of mix and final in numbers

  // hi is the part of the word that goes round, q the weight of its lowest bit.
  lemma Turned(s: State, pow: nat, q: nat, hi: nat, x: Hex, y: Hex, t: State)
    requires pow in {16, 64, 256, 65536, 524288} && q > 0 && pow * q == LIMIT && IsHex(x) && IsHex(y)
    requires 0 <= s.c - hi * q < q && Value(y) == (s.c - hi * q) * pow + hi
    requires Value(x) == s.a - s.c || Value(x) == s.a - s.c + LIMIT
    requires t.a == XorHex(x, y) && t.b == s.b && (t.c == s.c + s.b || t.c == s.c + s.b - LIMIT)
    ensures Turn(s, pow) == t
  {
    RotOfParts(s.c, pow, q, hi);
    XorHexIs(x, y);
    InRange(s.a - s.c, Value(x));
    InRange(s.c + s.b, t.c);
    hide Xor, Rot, XorHex, Value;
  }

  lemma Struck(s: State, pow: nat, q: nat, hi: nat, x: Hex, y: Hex, c: Word)
    requires pow in {16, 2048, 16384, 65536, 16777216, 33554432} && q > 0 && pow * q == LIMIT && IsHex(x) && IsHex(y)
    requires 0 <= s.b - hi * q < q && Value(x) == s.c && Value(y) == s.b
    requires var r := (s.b - hi * q) * pow + hi; c == XorHex(x, y) - r || c == XorHex(x, y) - r + LIMIT
    ensures Strike(s, pow) == State(s.a, s.b, c)
  {
    hide Xor, Rot, XorHex, Value, IsHex, Pow2;
    RotOfParts(s.b, pow, q, hi);
    XorHexIs(x, y);
    InRange(XorHex(x, y) - Rot(s.b, pow), c);
  }

  lemma RotOfParts(x: Word, p: nat, q: nat, hi: nat)
    requires p in {16, 64, 256, 2048, 16384, 65536, 524288, 16777216, 33554432} && q > 0 && p * q == LIMIT
    requires 0 <= x - hi * q < q
    ensures Rot(x, p) == (x - hi * q) * p + hi
  {
    hide Rot;
    RotIs(x, p, q);
    Divides(x, q, hi, x - hi * q);
  }

  lemma InRange(n: int, w: Word)
    requires w == n || w == n + LIMIT || w == n - LIMIT
    ensures n % LIMIT == w
  {
  }

  lemma FinalOfABegins()
    ensures Strike(State(0xdeadbf51, 0xdeadbef0, 0xdeadbef0), 16384) == State(0xdeadbf51, 0xdeadbef0, 0x9043c855)
    ensures Strike(State(0xdeadbef0, 0x9043c855, 0xdeadbf51), 2048) == State(0xdeadbef0, 0x9043c855, 0x30abca82)
    ensures Strike(State(0x9043c855, 0x30abca82, 0xdeadbef0), 33554432) == State(0x9043c855, 0x30abca82, 0xe9a51cdd)
  {
    hide Strike;
    assert Strike(State(0xdeadbf51, 0xdeadbef0, 0xdeadbef0), 16384) == State(0xdeadbf51, 0xdeadbef0, 0x9043c855) by {
      Struck(State(0xdeadbf51, 0xdeadbef0, 0xdeadbef0), 16384, 262144, 14251,
             Hex(13, 14, 10, 13, 11, 14, 15, 0), Hex(13, 14, 10, 13, 11, 14, 15, 0), 0x9043c855);
    }
    assert Strike(State(0xdeadbef0, 0x9043c855, 0xdeadbf51), 2048) == State(0xdeadbef0, 0x9043c855, 0x30abca82) by {
      Struck(State(0xdeadbef0, 0x9043c855, 0xdeadbf51), 2048, 2097152, 1154,
             Hex(13, 14, 10, 13, 11, 15, 5, 1), Hex(9, 0, 4, 3, 12, 8, 5, 5), 0x30abca82);
    }
    assert Strike(State(0x9043c855, 0x30abca82, 0xdeadbef0), 33554432) == State(0x9043c855, 0x30abca82, 0xe9a51cdd) by {
      Struck(State(0x9043c855, 0x30abca82, 0xdeadbef0), 33554432, 128, 6379413,
             Hex(13, 14, 10, 13, 11, 14, 15, 0), Hex(3, 0, 10, 11, 12, 10, 8, 2), 0xe9a51cdd);
    }
  }

  lemma FinalOfAEnds()
    ensures Strike(State(0x30abca82, 0xe9a51cdd, 0x9043c855), 65536) == State(0x30abca82, 0xe9a51cdd, 0x5d08eae3)
    ensures Strike(State(0xe9a51cdd, 0x5d08eae3, 0x30abca82), 16) == State(0xe9a51cdd, 0x5d08eae3, 0x9d14722c)
    ensures Strike(State(0x5d08eae3, 0x9d14722c, 0xe9a51cdd), 16384) == State(0x5d08eae3, 0x9d14722c, 0x582647ac)
    ensures Strike(State(0x9d14722c, 0x582647ac, 0x5d08eae3), 16777216) == State(0x9d14722c, 0x582647ac, 0x58d68708)
  {
    hide Strike;
    assert Strike(State(0x30abca82, 0xe9a51cdd, 0x9043c855), 65536) == State(0x30abca82, 0xe9a51cdd, 0x5d08eae3) by {
      Struck(State(0x30abca82, 0xe9a51cdd, 0x9043c855), 65536, 65536, 59813,
             Hex(9, 0, 4, 3, 12, 8, 5, 5), Hex(14, 9, 10, 5, 1, 12, 13, 13), 0x5d08eae3);
    }
    assert Strike(State(0xe9a51cdd, 0x5d08eae3, 0x30abca82), 16) == State(0xe9a51cdd, 0x5d08eae3, 0x9d14722c) by {
      Struck(State(0xe9a51cdd, 0x5d08eae3, 0x30abca82), 16, 268435456, 5,
             Hex(3, 0, 10, 11, 12, 10, 8, 2), Hex(5, 13, 0, 8, 14, 10, 14, 3), 0x9d14722c);
    }
    assert Strike(State(0x5d08eae3, 0x9d14722c, 0xe9a51cdd), 16384) == State(0x5d08eae3, 0x9d14722c, 0x582647ac) by {
      Struck(State(0x5d08eae3, 0x9d14722c, 0xe9a51cdd), 16384, 262144, 10053,
             Hex(14, 9, 10, 5, 1, 12, 13, 13), Hex(9, 13, 1, 4, 7, 2, 2, 12), 0x582647ac);
    }
    assert Strike(State(0x9d14722c, 0x582647ac, 0x5d08eae3), 16777216) == State(0x9d14722c, 0x582647ac, 0x58d68708) by {
      Struck(State(0x9d14722c, 0x582647ac, 0x5d08eae3), 16777216, 256, 5776967,
             Hex(5, 13, 0, 8, 14, 10, 14, 3), Hex(5, 8, 2, 6, 4, 7, 10, 12), 0x58d68708);
    }
  }

  lemma FinalOfA()
    ensures Final(State(0xdeadbf51, 0xdeadbef0, 0xdeadbef0)) == 0x58d68708
  {
    hide Strike;
    FinalOfABegins();
    FinalOfAEnds();
  }

  lemma MixFirst0Begins()
    ensures Turn(State(0x51232e53, 0x4e11322d, 0x3fce247f), 16) == State(0xedb74e27, 0x4e11322d, 0x8ddf56ac)
    ensures Turn(State(0x4e11322d, 0x8ddf56ac, 0xedb74e27), 64) == State(0xd8a6dfd, 0x8ddf56ac, 0x7b96a4d3)
    ensures Turn(State(0x8ddf56ac, 0x7b96a4d3, 0xd8a6dfd), 256) == State(0xa3915a2, 0x7b96a4d3, 0x892112d0)
  {
    hide Turn;
    assert Turn(State(0x51232e53, 0x4e11322d, 0x3fce247f), 16) == State(0xedb74e27, 0x4e11322d, 0x8ddf56ac) by {
      Turned(State(0x51232e53, 0x4e11322d, 0x3fce247f), 16, 268435456, 3,
             Hex(1, 1, 5, 5, 0, 9, 13, 4), Hex(15, 12, 14, 2, 4, 7, 15, 3),
             State(0xedb74e27, 0x4e11322d, 0x8ddf56ac));
    }
    assert Turn(State(0x4e11322d, 0x8ddf56ac, 0xedb74e27), 64) == State(0xd8a6dfd, 0x8ddf56ac, 0x7b96a4d3) by {
      Turned(State(0x4e11322d, 0x8ddf56ac, 0xedb74e27), 64, 67108864, 59,
             Hex(6, 0, 5, 9, 14, 4, 0, 6), Hex(6, 13, 13, 3, 8, 9, 15, 11),
             State(0xd8a6dfd, 0x8ddf56ac, 0x7b96a4d3));
    }
    assert Turn(State(0x8ddf56ac, 0x7b96a4d3, 0xd8a6dfd), 256) == State(0xa3915a2, 0x7b96a4d3, 0x892112d0) by {
      Turned(State(0x8ddf56ac, 0x7b96a4d3, 0xd8a6dfd), 256, 16777216, 13,
             Hex(8, 0, 5, 4, 14, 8, 10, 15), Hex(8, 10, 6, 13, 15, 13, 0, 13),
             State(0xa3915a2, 0x7b96a4d3, 0x892112d0));
    }
  }

  lemma MixFirst0Ends()
    ensures Turn(State(0x7b96a4d3, 0x892112d0, 0xa3915a2), 65536) == State(0x64ff8508, 0x892112d0, 0x935a2872)
    ensures Turn(State(0x892112d0, 0x935a2872, 0x64ff8508), 524288) == State(0xc62aa34, 0x935a2872, 0xf859ad7a)
    ensures Turn(State(0x935a2872, 0xf859ad7a, 0xc62aa34), 16) == State(0x40dddd7e, 0xf859ad7a, 0x4bc57ae)
  {
    hide Turn;
    assert Turn(State(0x7b96a4d3, 0x892112d0, 0xa3915a2), 65536) == State(0x64ff8508, 0x892112d0, 0x935a2872) by {
      Turned(State(0x7b96a4d3, 0x892112d0, 0xa3915a2), 65536, 65536, 2617,
             Hex(7, 1, 5, 13, 8, 15, 3, 1), Hex(1, 5, 10, 2, 0, 10, 3, 9),
             State(0x64ff8508, 0x892112d0, 0x935a2872));
    }
    assert Turn(State(0x892112d0, 0x935a2872, 0x64ff8508), 524288) == State(0xc62aa34, 0x935a2872, 0xf859ad7a) by {
      Turned(State(0x892112d0, 0x935a2872, 0x64ff8508), 524288, 8192, 206844,
             Hex(2, 4, 2, 1, 8, 13, 12, 8), Hex(2, 8, 4, 3, 2, 7, 15, 12),
             State(0xc62aa34, 0x935a2872, 0xf859ad7a));
    }
    assert Turn(State(0x935a2872, 0xf859ad7a, 0xc62aa34), 16) == State(0x40dddd7e, 0xf859ad7a, 0x4bc57ae) by {
      Turned(State(0x935a2872, 0xf859ad7a, 0xc62aa34), 16, 268435456, 0,
             Hex(8, 6, 15, 7, 7, 14, 3, 14), Hex(12, 6, 2, 10, 10, 3, 4, 0),
             State(0x40dddd7e, 0xf859ad7a, 0x4bc57ae));
    }
  }

  lemma MixFirst0()
    ensures Mix(State(0x51232e53, 0x4e11322d, 0x3fce247f)) == State(0xf859ad7a, 0x4bc57ae, 0x40dddd7e)
  {
    hide Turn;
    MixFirst0Begins();
    MixFirst0Ends();
  }

  lemma MixSecond0Begins()
    ensures Turn(State(0x6b7a11e8, 0x7321ce13, 0xa243569e), 16) == State(0xed03d2a0, 0x7321ce13, 0x156524b1)
    ensures Turn(State(0x7321ce13, 0x156524b1, 0xed03d2a0), 64) == State(0xc6e95348, 0x156524b1, 0x268f751)
    ensures Turn(State(0x156524b1, 0x268f751, 0xc6e95348), 256) == State(0xa72899af, 0x268f751, 0xc9524a99)
  {
    hide Turn;
    assert Turn(State(0x6b7a11e8, 0x7321ce13, 0xa243569e), 16) == State(0xed03d2a0, 0x7321ce13, 0x156524b1) by {
      Turned(State(0x6b7a11e8, 0x7321ce13, 0xa243569e), 16, 268435456, 10,
             Hex(12, 9, 3, 6, 11, 11, 4, 10), Hex(2, 4, 3, 5, 6, 9, 14, 10),
             State(0xed03d2a0, 0x7321ce13, 0x156524b1));
    }
    assert Turn(State(0x7321ce13, 0x156524b1, 0xed03d2a0), 64) == State(0xc6e95348, 0x156524b1, 0x268f751) by {
      Turned(State(0x7321ce13, 0x156524b1, 0xed03d2a0), 64, 67108864, 59,
             Hex(8, 6, 1, 13, 15, 11, 7, 3), Hex(4, 0, 15, 4, 10, 8, 3, 11),
             State(0xc6e95348, 0x156524b1, 0x268f751));
    }
    assert Turn(State(0x156524b1, 0x268f751, 0xc6e95348), 256) == State(0xa72899af, 0x268f751, 0xc9524a99) by {
      Turned(State(0x156524b1, 0x268f751, 0xc6e95348), 256, 16777216, 198,
             Hex(4, 14, 7, 11, 13, 1, 6, 9), Hex(14, 9, 5, 3, 4, 8, 12, 6),
             State(0xa72899af, 0x268f751, 0xc9524a99));
    }
  }

  lemma MixSecond0Ends()
    ensures Turn(State(0x268f751, 0xc9524a99, 0xa72899af), 65536) == State(0xc2effa8a, 0xc9524a99, 0x707ae448)
    ensures Turn(State(0xc9524a99, 0x707ae448, 0xc2effa8a), 524288) == State(0xd2344770, 0x707ae448, 0x336aded2)
    ensures Turn(State(0x707ae448, 0x336aded2, 0xd2344770), 16) == State(0xbd02ebd5, 0x336aded2, 0x59f2642)
  {
    hide Turn;
    assert Turn(State(0x268f751, 0xc9524a99, 0xa72899af), 65536) == State(0xc2effa8a, 0xc9524a99, 0x707ae448) by {
      Turned(State(0x268f751, 0xc9524a99, 0xa72899af), 65536, 65536, 42792,
             Hex(5, 11, 4, 0, 5, 13, 10, 2), Hex(9, 9, 10, 15, 10, 7, 2, 8),
             State(0xc2effa8a, 0xc9524a99, 0x707ae448));
    }
    assert Turn(State(0xc9524a99, 0x707ae448, 0xc2effa8a), 524288) == State(0xd2344770, 0x707ae448, 0x336aded2) by {
      Turned(State(0xc9524a99, 0x707ae448, 0xc2effa8a), 524288, 8192, 399231,
             Hex(0, 6, 6, 2, 5, 0, 0, 15), Hex(13, 4, 5, 6, 1, 7, 7, 15),
             State(0xd2344770, 0x707ae448, 0x336aded2));
    }
    assert Turn(State(0x707ae448, 0x336aded2, 0xd2344770), 16) == State(0xbd02ebd5, 0x336aded2, 0x59f2642) by {
      Turned(State(0x707ae448, 0x336aded2, 0xd2344770), 16, 268435456, 13,
             Hex(9, 14, 4, 6, 9, 12, 13, 8), Hex(2, 3, 4, 4, 7, 7, 0, 13),
             State(0xbd02ebd5, 0x336aded2, 0x59f2642));
    }
  }

  lemma MixSecond0()
    ensures Mix(State(0x6b7a11e8, 0x7321ce13, 0xa243569e)) == State(0x336aded2, 0x59f2642, 0xbd02ebd5)
  {
    hide Turn;
    MixSecond0Begins();
    MixSecond0Ends();
  }

  lemma FinalOfSeed0Begins()
    ensures Strike(State(0x948b5244, 0x59f95a9, 0xbd02ebd5), 16384) == State(0x948b5244, 0x59f95a9, 0xd3333d15)
    ensures Strike(State(0x59f95a9, 0xd3333d15, 0x948b5244), 2048) == State(0x59f95a9, 0xd3333d15, 0xadcfc0b8)
    ensures Strike(State(0xd3333d15, 0xadcfc0b8, 0x59f95a9), 33554432) == State(0xd3333d15, 0xadcfc0b8, 0x36f4b590)
  {
    hide Strike;
    assert Strike(State(0x948b5244, 0x59f95a9, 0xbd02ebd5), 16384) == State(0x948b5244, 0x59f95a9, 0xd3333d15) by {
      Struck(State(0x948b5244, 0x59f95a9, 0xbd02ebd5), 16384, 262144, 359,
             Hex(11, 13, 0, 2, 14, 11, 13, 5), Hex(0, 5, 9, 15, 9, 5, 10, 9), 0xd3333d15);
    }
    assert Strike(State(0x59f95a9, 0xd3333d15, 0x948b5244), 2048) == State(0x59f95a9, 0xd3333d15, 0xadcfc0b8) by {
      Struck(State(0x59f95a9, 0xd3333d15, 0x948b5244), 2048, 2097152, 1689,
             Hex(9, 4, 8, 11, 5, 2, 4, 4), Hex(13, 3, 3, 3, 3, 13, 1, 5), 0xadcfc0b8);
    }
    assert Strike(State(0xd3333d15, 0xadcfc0b8, 0x59f95a9), 33554432) == State(0xd3333d15, 0xadcfc0b8, 0x36f4b590) by {
      Struck(State(0xd3333d15, 0xadcfc0b8, 0x59f95a9), 33554432, 128, 22781825,
             Hex(0, 5, 9, 15, 9, 5, 10, 9), Hex(10, 13, 12, 15, 12, 0, 11, 8), 0x36f4b590);
    }
  }

  lemma FinalOfSeed0Ends()
    ensures Strike(State(0xadcfc0b8, 0x36f4b590, 0xd3333d15), 65536) == State(0xadcfc0b8, 0x36f4b590, 0x30375191)
    ensures Strike(State(0x36f4b590, 0x30375191, 0xadcfc0b8), 16) == State(0x36f4b590, 0x30375191, 0x9a837816)
    ensures Strike(State(0x30375191, 0x9a837816, 0x36f4b590), 16384) == State(0x30375191, 0x9a837816, 0xce7226e6)
    ensures Strike(State(0x9a837816, 0xce7226e6, 0x30375191), 16777216) == State(0x9a837816, 0xce7226e6, 0x17770551)
  {
    hide Strike;
    assert Strike(State(0xadcfc0b8, 0x36f4b590, 0xd3333d15), 65536) == State(0xadcfc0b8, 0x36f4b590, 0x30375191) by {
      Struck(State(0xadcfc0b8, 0x36f4b590, 0xd3333d15), 65536, 65536, 14068,
             Hex(13, 3, 3, 3, 3, 13, 1, 5), Hex(3, 6, 15, 4, 11, 5, 9, 0), 0x30375191);
    }
    assert Strike(State(0x36f4b590, 0x30375191, 0xadcfc0b8), 16) == State(0x36f4b590, 0x30375191, 0x9a837816) by {
      Struck(State(0x36f4b590, 0x30375191, 0xadcfc0b8), 16, 268435456, 3,
             Hex(10, 13, 12, 15, 12, 0, 11, 8), Hex(3, 0, 3, 7, 5, 1, 9, 1), 0x9a837816);
    }
    assert Strike(State(0x30375191, 0x9a837816, 0x36f4b590), 16384) == State(0x30375191, 0x9a837816, 0xce7226e6) by {
      Struck(State(0x30375191, 0x9a837816, 0x36f4b590), 16384, 262144, 9888,
             Hex(3, 6, 15, 4, 11, 5, 9, 0), Hex(9, 10, 8, 3, 7, 8, 1, 6), 0xce7226e6);
    }
    assert Strike(State(0x9a837816, 0xce7226e6, 0x30375191), 16777216) == State(0x9a837816, 0xce7226e6, 0x17770551) by {
      Struck(State(0x9a837816, 0xce7226e6, 0x30375191), 16777216, 256, 13529638,
             Hex(3, 0, 3, 7, 5, 1, 9, 1), Hex(12, 14, 7, 2, 2, 6, 14, 6), 0x17770551);
    }
  }

  lemma FinalOfSeed0()
    ensures Final(State(0x948b5244, 0x59f95a9, 0xbd02ebd5)) == 0x17770551
  {
    hide Strike;
    FinalOfSeed0Begins();
    FinalOfSeed0Ends();
  }

  lemma MixFirst1Begins()
    ensures Turn(State(0x51232e54, 0x4e11322e, 0x3fce2480), 16) == State(0xedb741d7, 0x4e11322e, 0x8ddf56ae)
    ensures Turn(State(0x4e11322e, 0x8ddf56ae, 0xedb741d7), 64) == State(0xd8985ac, 0x8ddf56ae, 0x7b969885)
    ensures Turn(State(0x8ddf56ae, 0x7b969885, 0xd8985ac), 256) == State(0x9d07d0f, 0x7b969885, 0x89201e31)
  {
    hide Turn;
    assert Turn(State(0x51232e54, 0x4e11322e, 0x3fce2480), 16) == State(0xedb741d7, 0x4e11322e, 0x8ddf56ae) by {
      Turned(State(0x51232e54, 0x4e11322e, 0x3fce2480), 16, 268435456, 3,
             Hex(1, 1, 5, 5, 0, 9, 13, 4), Hex(15, 12, 14, 2, 4, 8, 0, 3),
             State(0xedb741d7, 0x4e11322e, 0x8ddf56ae));
    }
    assert Turn(State(0x4e11322e, 0x8ddf56ae, 0xedb741d7), 64) == State(0xd8985ac, 0x8ddf56ae, 0x7b969885) by {
      Turned(State(0x4e11322e, 0x8ddf56ae, 0xedb741d7), 64, 67108864, 59,
             Hex(6, 0, 5, 9, 15, 0, 5, 7), Hex(6, 13, 13, 0, 7, 5, 15, 11),
             State(0xd8985ac, 0x8ddf56ae, 0x7b969885));
    }
    assert Turn(State(0x8ddf56ae, 0x7b969885, 0xd8985ac), 256) == State(0x9d07d0f, 0x7b969885, 0x89201e31) by {
      Turned(State(0x8ddf56ae, 0x7b969885, 0xd8985ac), 256, 16777216, 13,
             Hex(8, 0, 5, 5, 13, 1, 0, 2), Hex(8, 9, 8, 5, 10, 12, 0, 13),
             State(0x9d07d0f, 0x7b969885, 0x89201e31));
    }
  }

  lemma MixFirst1Ends()
    ensures Turn(State(0x7b969885, 0x89201e31, 0x9d07d0f), 65536) == State(0xcc912a6, 0x89201e31, 0x92f09b40)
    ensures Turn(State(0x89201e31, 0x92f09b40, 0xcc912a6), 524288) == State(0xe9676dc3, 0x92f09b40, 0x9fb9ade6)
    ensures Turn(State(0x92f09b40, 0x9fb9ade6, 0xe9676dc3), 16) == State(0x3ffff143, 0x9fb9ade6, 0x89211ba9)
  {
    hide Turn;
    assert Turn(State(0x7b969885, 0x89201e31, 0x9d07d0f), 65536) == State(0xcc912a6, 0x89201e31, 0x92f09b40) by {
      Turned(State(0x7b969885, 0x89201e31, 0x9d07d0f), 65536, 65536, 2512,
             Hex(7, 1, 12, 6, 1, 11, 7, 6), Hex(7, 13, 0, 15, 0, 9, 13, 0),
             State(0xcc912a6, 0x89201e31, 0x92f09b40));
    }
    assert Turn(State(0x89201e31, 0x92f09b40, 0xcc912a6), 524288) == State(0xe9676dc3, 0x92f09b40, 0x9fb9ade6) by {
      Turned(State(0x89201e31, 0x92f09b40, 0xcc912a6), 524288, 8192, 26184,
             Hex(7, 12, 5, 7, 0, 11, 8, 11), Hex(9, 5, 3, 0, 6, 6, 4, 8),
             State(0xe9676dc3, 0x92f09b40, 0x9fb9ade6));
    }
    assert Turn(State(0x92f09b40, 0x9fb9ade6, 0xe9676dc3), 16) == State(0x3ffff143, 0x9fb9ade6, 0x89211ba9) by {
      Turned(State(0x92f09b40, 0x9fb9ade6, 0xe9676dc3), 16, 268435456, 14,
             Hex(10, 9, 8, 9, 2, 13, 7, 13), Hex(9, 6, 7, 6, 13, 12, 3, 14),
             State(0x3ffff143, 0x9fb9ade6, 0x89211ba9));
    }
  }

  lemma MixFirst1()
    ensures Mix(State(0x51232e54, 0x4e11322e, 0x3fce2480)) == State(0x9fb9ade6, 0x89211ba9, 0x3ffff143)
  {
    hide Turn;
    MixFirst1Begins();
    MixFirst1Ends();
  }

  lemma MixSecond1Begins()
    ensures Turn(State(0x12da1254, 0xf786920e, 0xa1656a63), 16) == State(0x672201cb, 0xf786920e, 0x98ebfc71)
    ensures Turn(State(0xf786920e, 0x98ebfc71, 0x672201cb), 64) == State(0x58e4e29a, 0x98ebfc71, 0xdfe3c)
    ensures Turn(State(0x98ebfc71, 0xdfe3c, 0x58e4e29a), 256) == State(0xa4e5838f, 0xdfe3c, 0x58f2e0d6)
  {
    hide Turn;
    assert Turn(State(0x12da1254, 0xf786920e, 0xa1656a63), 16) == State(0x672201cb, 0xf786920e, 0x98ebfc71) by {
      Turned(State(0x12da1254, 0xf786920e, 0xa1656a63), 16, 268435456, 10,
             Hex(7, 1, 7, 4, 10, 7, 15, 1), Hex(1, 6, 5, 6, 10, 6, 3, 10),
             State(0x672201cb, 0xf786920e, 0x98ebfc71));
    }
    assert Turn(State(0xf786920e, 0x98ebfc71, 0x672201cb), 64) == State(0x58e4e29a, 0x98ebfc71, 0xdfe3c) by {
      Turned(State(0xf786920e, 0x98ebfc71, 0x672201cb), 64, 67108864, 25,
             Hex(9, 0, 6, 4, 9, 0, 4, 3), Hex(12, 8, 8, 0, 7, 2, 13, 9),
             State(0x58e4e29a, 0x98ebfc71, 0xdfe3c));
    }
    assert Turn(State(0x98ebfc71, 0xdfe3c, 0x58e4e29a), 256) == State(0xa4e5838f, 0xdfe3c, 0x58f2e0d6) by {
      Turned(State(0x98ebfc71, 0xdfe3c, 0x58e4e29a), 256, 16777216, 88,
             Hex(4, 0, 0, 7, 1, 9, 13, 7), Hex(14, 4, 14, 2, 9, 10, 5, 8),
             State(0xa4e5838f, 0xdfe3c, 0x58f2e0d6));
    }
  }

  lemma MixSecond1Ends()
    ensures Turn(State(0xdfe3c, 0x58f2e0d6, 0xa4e5838f), 65536) == State(0xd8a7de48, 0x58f2e0d6, 0xfdd86465)
    ensures Turn(State(0x58f2e0d6, 0xfdd86465, 0xd8a7de48), 524288) == State(0x720dc7b0, 0xfdd86465, 0xd68042ad)
    ensures Turn(State(0xfdd86465, 0xd68042ad, 0x720dc7b0), 16) == State(0xab16e7b2, 0xd68042ad, 0x488e0a5d)
  {
    hide Turn;
    assert Turn(State(0xdfe3c, 0x58f2e0d6, 0xa4e5838f), 65536) == State(0xd8a7de48, 0x58f2e0d6, 0xfdd86465) by {
      Turned(State(0xdfe3c, 0x58f2e0d6, 0xa4e5838f), 65536, 65536, 42213,
             Hex(5, 11, 2, 8, 7, 10, 10, 13), Hex(8, 3, 8, 15, 10, 4, 14, 5),
             State(0xd8a7de48, 0x58f2e0d6, 0xfdd86465));
    }
    assert Turn(State(0x58f2e0d6, 0xfdd86465, 0xd8a7de48), 524288) == State(0x720dc7b0, 0xfdd86465, 0xd68042ad) by {
      Turned(State(0x58f2e0d6, 0xfdd86465, 0xd8a7de48), 524288, 8192, 443710,
             Hex(8, 0, 4, 11, 0, 2, 8, 14), Hex(15, 2, 4, 6, 12, 5, 3, 14),
             State(0x720dc7b0, 0xfdd86465, 0xd68042ad));
    }
    assert Turn(State(0xfdd86465, 0xd68042ad, 0x720dc7b0), 16) == State(0xab16e7b2, 0xd68042ad, 0x488e0a5d) by {
      Turned(State(0xfdd86465, 0xd68042ad, 0x720dc7b0), 16, 268435456, 7,
             Hex(8, 11, 12, 10, 9, 12, 11, 5), Hex(2, 0, 13, 12, 7, 11, 0, 7),
             State(0xab16e7b2, 0xd68042ad, 0x488e0a5d));
    }
  }

  lemma MixSecond1()
    ensures Mix(State(0x12da1254, 0xf786920e, 0xa1656a63)) == State(0xd68042ad, 0x488e0a5d, 0xab16e7b2)
  {
    hide Turn;
    MixSecond1Begins();
    MixSecond1Ends();
  }

  lemma FinalOfSeed1Begins()
    ensures Strike(State(0x37a0b61f, 0x488e79c4, 0xab16e7b2), 16384) == State(0x37a0b61f, 0x488e79c4, 0x45278c53)
    ensures Strike(State(0x488e79c4, 0x45278c53, 0x37a0b61f), 2048) == State(0x488e79c4, 0x45278c53, 0x3624a023)
    ensures Strike(State(0x45278c53, 0x3624a023, 0x488e79c4), 33554432) == State(0x45278c53, 0x3624a023, 0x383e90a7)
  {
    hide Strike;
    assert Strike(State(0x37a0b61f, 0x488e79c4, 0xab16e7b2), 16384) == State(0x37a0b61f, 0x488e79c4, 0x45278c53) by {
      Struck(State(0x37a0b61f, 0x488e79c4, 0xab16e7b2), 16384, 262144, 4643,
             Hex(10, 11, 1, 6, 14, 7, 11, 2), Hex(4, 8, 8, 14, 7, 9, 12, 4), 0x45278c53);
    }
    assert Strike(State(0x488e79c4, 0x45278c53, 0x37a0b61f), 2048) == State(0x488e79c4, 0x45278c53, 0x3624a023) by {
      Struck(State(0x488e79c4, 0x45278c53, 0x37a0b61f), 2048, 2097152, 553,
             Hex(3, 7, 10, 0, 11, 6, 1, 15), Hex(4, 5, 2, 7, 8, 12, 5, 3), 0x3624a023);
    }
    assert Strike(State(0x45278c53, 0x3624a023, 0x488e79c4), 33554432) == State(0x45278c53, 0x3624a023, 0x383e90a7) by {
      Struck(State(0x45278c53, 0x3624a023, 0x488e79c4), 33554432, 128, 7096640,
             Hex(4, 8, 8, 14, 7, 9, 12, 4), Hex(3, 6, 2, 4, 10, 0, 2, 3), 0x383e90a7);
    }
  }

  lemma FinalOfSeed1Ends()
    ensures Strike(State(0x3624a023, 0x383e90a7, 0x45278c53), 65536) == State(0x3624a023, 0x383e90a7, 0xec71e4b6)
    ensures Strike(State(0x383e90a7, 0xec71e4b6, 0x3624a023), 16) == State(0x383e90a7, 0xec71e4b6, 0x1336f927)
    ensures Strike(State(0xec71e4b6, 0x1336f927, 0x383e90a7), 16384) == State(0xec71e4b6, 0x1336f927, 0x6cbea4b3)
    ensures Strike(State(0x1336f927, 0x6cbea4b3, 0xec71e4b6), 16777216) == State(0x1336f927, 0x6cbea4b3, 0xcd628161)
  {
    hide Strike;
    assert Strike(State(0x3624a023, 0x383e90a7, 0x45278c53), 65536) == State(0x3624a023, 0x383e90a7, 0xec71e4b6) by {
      Struck(State(0x3624a023, 0x383e90a7, 0x45278c53), 65536, 65536, 14398,
             Hex(4, 5, 2, 7, 8, 12, 5, 3), Hex(3, 8, 3, 14, 9, 0, 10, 7), 0xec71e4b6);
    }
    assert Strike(State(0x383e90a7, 0xec71e4b6, 0x3624a023), 16) == State(0x383e90a7, 0xec71e4b6, 0x1336f927) by {
      Struck(State(0x383e90a7, 0xec71e4b6, 0x3624a023), 16, 268435456, 14,
             Hex(3, 6, 2, 4, 10, 0, 2, 3), Hex(14, 12, 7, 1, 14, 4, 11, 6), 0x1336f927);
    }
    assert Strike(State(0xec71e4b6, 0x1336f927, 0x383e90a7), 16384) == State(0xec71e4b6, 0x1336f927, 0x6cbea4b3) by {
      Struck(State(0xec71e4b6, 0x1336f927, 0x383e90a7), 16384, 262144, 1229,
             Hex(3, 8, 3, 14, 9, 0, 10, 7), Hex(1, 3, 3, 6, 15, 9, 2, 7), 0x6cbea4b3);
    }
    assert Strike(State(0x1336f927, 0x6cbea4b3, 0xec71e4b6), 16777216) == State(0x1336f927, 0x6cbea4b3, 0xcd628161) by {
      Struck(State(0x1336f927, 0x6cbea4b3, 0xec71e4b6), 16777216, 256, 7126692,
             Hex(14, 12, 7, 1, 14, 4, 11, 6), Hex(6, 12, 11, 14, 10, 4, 11, 3), 0xcd628161);
    }
  }

  lemma FinalOfSeed1()
    ensures Final(State(0x37a0b61f, 0x488e79c4, 0xab16e7b2)) == 0xcd628161
  {
    hide Strike;
    FinalOfSeed1Begins();
    FinalOfSeed1Ends();
  }

  // ---- keys

  // "Four score and seven years ago"
  const FOUR_SCORE: Bytes := [
    70, 111, 117, 114, 32, 115, 99, 111, 114, 101,
    32, 97, 110, 100, 32, 115, 101, 118, 101, 110,
    32, 121, 101, 97, 114, 115, 32, 97, 103, 111]

  lemma EmptyKey()
    ensures Hash([], 0) == 0xdeadbeef
  {
  }

  // "a"
  lemma KeyOfOne()
    ensures Hash([97], 0) == 0x58d68708
  {
    hide Final;
    FinalOfA();
    assert Plus(State(0xdeadbef0, 0xdeadbef0, 0xdeadbef0), [97]) == State(0xdeadbf51, 0xdeadbef0, 0xdeadbef0);
  }

  lemma WordAt(k: Bytes, pos: nat, p: Octet, q: Octet, r: Octet, s: Octet)
    requires pos + 4 <= |k| && k[pos] == p && k[pos + 1] == q && k[pos + 2] == r && k[pos + 3] == s
    ensures Part(k, pos, 4) == p + 256 * q + 65536 * r + 16777216 * s
  {
    MaskIsPart(k, pos);
    hide Part;
  }

  lemma FirstWord()
    ensures Part(FOUR_SCORE, 0, 4) == 0x72756f46
  {
    hide Part;
    var k := FOUR_SCORE;
    WordAt(k, 0, 70, 111, 117, 114);
  }

  lemma FirstWords()
    ensures Part(FOUR_SCORE, 0, 4) == 0x72756f46
    ensures Part(FOUR_SCORE, 4, 4) == 0x6f637320
    ensures Part(FOUR_SCORE, 8, 4) == 0x61206572
  {
    hide Part;
    var k := FOUR_SCORE;
    FirstWord();
    WordAt(k, 4, 32, 115, 99, 111);
    WordAt(k, 8, 114, 101, 32, 97);
  }

  lemma SecondWords()
    ensures Part(FOUR_SCORE, 12, 4) == 0x7320646e
    ensures Part(FOUR_SCORE, 16, 4) == 0x6e657665
    ensures Part(FOUR_SCORE, 20, 4) == 0x61657920
  {
    hide Part;
    var k := FOUR_SCORE;
    WordAt(k, 12, 110, 100, 32, 115);
    WordAt(k, 16, 101, 118, 101, 110);
    WordAt(k, 20, 32, 121, 101, 97);
  }

  lemma TailOfKey(x: State)
    ensures HashFrom(x, FOUR_SCORE[24..30]) == Final(State(Add(x.a, 0x61207372), Add(x.b, 0x6f67), x.c))
  {
    hide Final, Add, Part, Plus;
    var k := FOUR_SCORE;
    assert |k| == 30 && k[28] == 103 && k[29] == 111;
    PlusIsParts(k, 24, 6, x);
    AddNothing(x);
    WordAt(k, 24, 114, 115, 32, 97);
    HalvesArePart(k, 28);
  }

  // What the three blocks of the key add to the state
  function FirstBlock(x: State): State {
    State(Add(x.a, 0x72756f46), Add(x.b, 0x6f637320), Add(x.c, 0x61206572))
  }

  function SecondBlock(x: State): State {
    State(Add(x.a, 0x7320646e), Add(x.b, 0x6e657665), Add(x.c, 0x61657920))
  }

  function LastBlock(x: State): State {
    State(Add(x.a, 0x61207372), Add(x.b, 0x6f67), x.c)
  }

  lemma KeyTaken(x: State)
    ensures HashFrom(x, FOUR_SCORE) == Final(LastBlock(Mix(SecondBlock(Mix(FirstBlock(x))))))
  {
    hide Mix, Final, HashFrom, Add, Part;
    assert FOUR_SCORE[0..30] == FOUR_SCORE;
    FirstWords();
    SecondWords();
    BlockTaken(FOUR_SCORE, 0, 30, x);
    BlockTaken(FOUR_SCORE, 12, 30, Mix(FirstBlock(x)));
    TailOfKey(Mix(SecondBlock(Mix(FirstBlock(x)))));
  }

  lemma FourScore0()
    ensures Hash(FOUR_SCORE, 0) == 0x17770551
  {
    hide Mix, Final, HashFrom;
    KeyTaken(State(0xdeadbf0d, 0xdeadbf0d, 0xdeadbf0d));
    MixFirst0();
    MixSecond0();
    FinalOfSeed0();
  }

  lemma FourScore1()
    ensures Hash(FOUR_SCORE, 1) == 0xcd628161
  {
    hide Mix, Final, HashFrom;
    KeyTaken(State(0xdeadbf0e, 0xdeadbf0e, 0xdeadbf0e));
    MixFirst1();
    MixSecond1();
    FinalOfSeed1();
  }
}
