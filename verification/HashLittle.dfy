// hashlittle on a little-endian machine: three ways to read the key, depending on its alignment.
// Words are numbers below 2^32; shifts and masks are written as products and remainders.

module Words {
  import opened Arith

  const LIMIT: int := 0x1_0000_0000

  type Word = x: int | 0 <= x < 0x1_0000_0000

  type Octet = x: int | 0 <= x < 256

  function Add(x: Word, y: Word): Word {
    (x + y) % LIMIT
  }

  function Sub(x: Word, y: Word): Word {
    (x - y) % LIMIT
  }

  // x ^ y, bit by bit
  function XorBits(x: nat, y: nat): nat {
    if x == 0 && y == 0 then 0 else 2 * XorBits(x / 2, y / 2) + (x % 2 + y % 2) % 2
  }

  lemma {:induction false} XorIsBounded(x: nat, y: nat, k: nat)
    requires x < Pow2(k) && y < Pow2(k)
    ensures XorBits(x, y) < Pow2(k)
  {
    if x != 0 || y != 0 {
      XorIsBounded(x / 2, y / 2, k - 1);
    }
  }

  lemma Pow2Of32()
    ensures Pow2(32) == LIMIT
  {
    assert Pow2(8) == 256;
    assert Pow2(16) == 65536;
    assert Pow2(24) == 0x100_0000;
  }

  function Xor(x: Word, y: Word): Word {
    Pow2Of32();
    XorIsBounded(x, y, 32);
    XorBits(x, y)
  }

  // (x << k) | (x >> (32 - k)), with 2^k for k
  function Rot(x: Word, pow: nat): Word
    requires pow in {16, 64, 256, 2048, 16384, 65536, 524288, 16777216, 33554432}
  {
    Add(x * pow % LIMIT, x / (LIMIT / pow) % LIMIT)
  }

  lemma HalfOf(h: nat, b: nat)
    requires b < 2
    ensures (2 * h + b) / 2 == h && (2 * h + b) % 2 == b
  {
  }

  lemma XorStep(u: nat, r: nat)
    ensures XorBits(u, r) == 2 * XorBits(u / 2, r / 2) + (u % 2 + r % 2) % 2
  {
  }

  lemma LastBit(x: nat, r: nat)
    ensures ((x % 2 + r % 2) % 2 + r % 2) % 2 == x % 2 && x == 2 * (x / 2) + x % 2
  {
  }

  lemma {:induction false} XorBitsUndone(x: nat, r: nat)
    ensures XorBits(XorBits(x, r), r) == x
  {
    if x != 0 || r != 0 {
      XorBitsUndone(x / 2, r / 2);
      var h, b := XorBits(x / 2, r / 2), (x % 2 + r % 2) % 2;
      HalfOf(h, b);
      XorStep(2 * h + b, r);
      LastBit(x, r);
      hide XorBits;
    }
  }

  lemma XorUndone(x: Word, r: Word)
    ensures Xor(Xor(x, r), r) == x
  {
    XorBitsUndone(x, r);
  }

  lemma SumUndone(x: Word, c: Word)
    ensures Sub(Add(x, c), c) == x && Add(Sub(x, c), c) == x
  {
  }
}

module HashLittle {
  import opened Arith
  import opened Words

  type Bytes = seq<Octet>

  datatype State = State(a: Word, b: Word, c: Word)

  // a -= c; a ^= rot(c, k); c += b;
  function Turn(s: State, pow: nat): State
    requires pow in {16, 64, 256, 65536, 524288}
  {
    State(Xor(Sub(s.a, s.c), Rot(s.c, pow)), s.b, Add(s.c, s.b))
  }

  // The same code with a, b, c in the places of b, c, a
  function Left(s: State): State {
    State(s.b, s.c, s.a)
  }

  function Right(s: State): State {
    State(s.c, s.a, s.b)
  }

  // The macro mix, line by line, with rotations by 4, 6, 8, 16, 19 and 4; each line turns the words
  // round by one place.
  function Mix(s: State): State {
    var s := Left(Turn(s, 16));
    var s := Left(Turn(s, 64));
    var s := Left(Turn(s, 256));
    var s := Left(Turn(s, 65536));
    var s := Left(Turn(s, 524288));
    Left(Turn(s, 16))
  }

  function Unturn(s: State, pow: nat): State
    requires pow in {16, 64, 256, 65536, 524288}
  {
    var c := Sub(s.c, s.b);
    State(Add(Xor(s.a, Rot(c, pow)), c), s.b, c)
  }

  function Unmix(s: State): State {
    var s := Unturn(Right(s), 16);
    var s := Unturn(Right(s), 524288);
    var s := Unturn(Right(s), 65536);
    var s := Unturn(Right(s), 256);
    var s := Unturn(Right(s), 64);
    Unturn(Right(s), 16)
  }

  lemma TurnIsReversible(s: State, pow: nat)
    requires pow in {16, 64, 256, 65536, 524288}
    ensures Unturn(Turn(s, pow), pow) == s && Turn(Unturn(s, pow), pow) == s
  {
    hide Add, Sub, Xor, Rot;
    var c, d := s.c, Sub(s.c, s.b);
    SumUndone(s.c, s.b);
    XorUndone(Sub(s.a, c), Rot(c, pow));
    SumUndone(s.a, c);
    SumUndone(Xor(s.a, Rot(d, pow)), d);
    XorUndone(s.a, Rot(d, pow));
  }

  // mix is reversible: it loses nothing, and every result comes from one state.
  lemma MixIsReversible(s: State)
    ensures Unmix(Mix(s)) == s && Mix(Unmix(s)) == s
  {
    hide Turn, Unturn;
    var s1 := Left(Turn(s, 16));
    var s2 := Left(Turn(s1, 64));
    var s3 := Left(Turn(s2, 256));
    var s4 := Left(Turn(s3, 65536));
    var s5 := Left(Turn(s4, 524288));
    TurnIsReversible(s, 16);
    TurnIsReversible(s1, 64);
    TurnIsReversible(s2, 256);
    TurnIsReversible(s3, 65536);
    TurnIsReversible(s4, 524288);
    TurnIsReversible(s5, 16);
    var r1 := Unturn(Right(s), 16);
    var r2 := Unturn(Right(r1), 524288);
    var r3 := Unturn(Right(r2), 65536);
    var r4 := Unturn(Right(r3), 256);
    var r5 := Unturn(Right(r4), 64);
    TurnIsReversible(Right(s), 16);
    TurnIsReversible(Right(r1), 524288);
    TurnIsReversible(Right(r2), 65536);
    TurnIsReversible(Right(r3), 256);
    TurnIsReversible(Right(r4), 64);
    TurnIsReversible(Right(r5), 16);
  }

  // c ^= b; c -= rot(b, k);
  function Strike(s: State, pow: nat): State
    requires pow in {16, 2048, 16384, 65536, 16777216, 33554432}
  {
    State(s.a, s.b, Sub(Xor(s.c, s.b), Rot(s.b, pow)))
  }

  // The macro final, with rotations by 14, 11, 25, 16, 4, 14 and 24, turning the words round in between
  function Finish(s: State): State {
    var s := Left(Strike(s, 16384));
    var s := Left(Strike(s, 2048));
    var s := Left(Strike(s, 33554432));
    var s := Left(Strike(s, 65536));
    var s := Left(Strike(s, 16));
    var s := Left(Strike(s, 16384));
    Strike(s, 16777216)
  }

  // What final leaves in c
  function Final(s: State): Word {
    Finish(s).c
  }

  function Unstrike(s: State, pow: nat): State
    requires pow in {16, 2048, 16384, 65536, 16777216, 33554432}
  {
    State(s.a, s.b, Xor(Add(s.c, Rot(s.b, pow)), s.b))
  }

  function Unfinish(s: State): State {
    var s := Unstrike(s, 16777216);
    var s := Unstrike(Right(s), 16384);
    var s := Unstrike(Right(s), 16);
    var s := Unstrike(Right(s), 65536);
    var s := Unstrike(Right(s), 33554432);
    var s := Unstrike(Right(s), 2048);
    Unstrike(Right(s), 16384)
  }

  lemma StrikeIsReversible(s: State, pow: nat)
    requires pow in {16, 2048, 16384, 65536, 16777216, 33554432}
    ensures Unstrike(Strike(s, pow), pow) == s && Strike(Unstrike(s, pow), pow) == s
  {
    hide Add, Sub, Xor, Rot;
    SumUndone(Xor(s.c, s.b), Rot(s.b, pow));
    XorUndone(s.c, s.b);
    XorUndone(Add(s.c, Rot(s.b, pow)), s.b);
    SumUndone(s.c, Rot(s.b, pow));
  }

  // final is reversible too, before two of the words are thrown away.
  lemma FinishIsReversible(s: State)
    ensures Unfinish(Finish(s)) == s && Finish(Unfinish(s)) == s
  {
    hide Strike, Unstrike;
    var s1 := Left(Strike(s, 16384));
    var s2 := Left(Strike(s1, 2048));
    var s3 := Left(Strike(s2, 33554432));
    var s4 := Left(Strike(s3, 65536));
    var s5 := Left(Strike(s4, 16));
    var s6 := Left(Strike(s5, 16384));
    StrikeIsReversible(s, 16384);
    StrikeIsReversible(s1, 2048);
    StrikeIsReversible(s2, 33554432);
    StrikeIsReversible(s3, 65536);
    StrikeIsReversible(s4, 16);
    StrikeIsReversible(s5, 16384);
    StrikeIsReversible(s6, 16777216);
    var r1 := Unstrike(s, 16777216);
    var r2 := Unstrike(Right(r1), 16384);
    var r3 := Unstrike(Right(r2), 16);
    var r4 := Unstrike(Right(r3), 65536);
    var r5 := Unstrike(Right(r4), 33554432);
    var r6 := Unstrike(Right(r5), 2048);
    StrikeIsReversible(s, 16777216);
    StrikeIsReversible(Right(r1), 16384);
    StrikeIsReversible(Right(r2), 16);
    StrikeIsReversible(Right(r3), 65536);
    StrikeIsReversible(Right(r4), 33554432);
    StrikeIsReversible(Right(r5), 2048);
    StrikeIsReversible(Right(r6), 16384);
  }

  // ---- the hash of a string of bytes

  function Byte(s: Bytes, i: nat): int {
    if i < |s| then s[i] else 0
  }

  // The little-endian number in at most four bytes
  function Number(s: Bytes): Word {
    assert forall i: nat :: 0 <= Byte(s, i) < 256;
    Byte(s, 0) + Byte(s, 1) * 256 + Byte(s, 2) * 65536 + Byte(s, 3) * 0x100_0000
  }

  // What the last four, eight or twelve bytes, as far as there are any, add to the state
  function Plus(x: State, s: Bytes): State
    requires |s| <= 12
  {
    State(Add(x.a, Number(s[..Min(|s|, 4)])),
          Add(x.b, Number(s[Min(|s|, 4)..Min(|s|, 8)])),
          Add(x.c, Number(s[Min(|s|, 8)..])))
  }

  function HashFrom(x: State, s: Bytes): Word
    decreases |s|
  {
    if |s| > 12 then HashFrom(Mix(Plus(x, s[..12])), s[12..])
    else if s == [] then x.c
    else Final(Plus(x, s))
  }

  // 0xdeadbeef + length + initval
  function Start(length: nat, init: Word): State {
    var x := Add(Add(0xdeadbeef, length % LIMIT), init);
    State(x, x, x)
  }

  function Hash(key: Bytes, init: Word): Word {
    HashFrom(Start(|key|, init), key)
  }

  // ---- memory

  // k[i] of a uint16_t pointer to pos
  function Half(mem: Bytes, pos: nat): Word
    requires pos + 2 <= |mem|
  {
    Byte(mem, pos) + Byte(mem, pos + 1) * 256
  }

  // k[i] of a uint32_t pointer to pos
  function Full(mem: Bytes, pos: nat): Word
    requires pos + 4 <= |mem|
  {
    Byte(mem, pos) + Byte(mem, pos + 1) * 256 + Byte(mem, pos + 2) * 65536 + Byte(mem, pos + 3) * 0x100_0000
  }

  // The n bytes at pos
  function Part(mem: Bytes, pos: nat, n: nat): Word
    requires pos + n <= |mem| && n <= 4
  {
    Number(mem[pos..pos + n])
  }

  lemma MaskIsPart(mem: Bytes, pos: nat)
    requires pos + 4 <= |mem|
    ensures Full(mem, pos) == Part(mem, pos, 4)
    ensures Full(mem, pos) % 0x100_0000 == Part(mem, pos, 3)
    ensures Full(mem, pos) % 65536 == Part(mem, pos, 2)
    ensures Full(mem, pos) % 256 == Part(mem, pos, 1)
  {
    HalvesArePart(mem, pos);
    hide Part;
  }

  lemma HalvesArePart(mem: Bytes, pos: nat)
    ensures pos + 1 <= |mem| ==> Part(mem, pos, 1) == mem[pos]
    ensures pos + 2 <= |mem| ==> Part(mem, pos, 2) == Half(mem, pos)
    ensures pos + 3 <= |mem| ==> Part(mem, pos, 3) == Half(mem, pos) + Byte(mem, pos + 2) * 65536
    ensures pos + 4 <= |mem| ==> Part(mem, pos, 4) == Half(mem, pos) + Half(mem, pos + 2) * 65536
  {
  }

  lemma PlusIsParts(mem: Bytes, pos: nat, n: nat, x: State)
    requires pos + n <= |mem| && n <= 12
    ensures Plus(x, mem[pos..pos + n]) ==
            State(Add(x.a, Part(mem, pos, Min(n, 4))),
                  Add(x.b, if n > 4 then Part(mem, pos + 4, Min(n - 4, 4)) else 0),
                  Add(x.c, if n > 8 then Part(mem, pos + 8, n - 8) else 0))
  {
    hide Add, Number;
    Within(mem, pos, n, 0, Min(n, 4));
    Within(mem, pos, n, Min(n, 4), Min(n, 8));
    Within(mem, pos, n, Min(n, 8), n);
    NoBytes();
  }

  lemma Within(mem: Bytes, pos: nat, n: nat, lo: nat, hi: nat)
    requires pos + n <= |mem| && lo <= hi <= n
    ensures mem[pos..pos + n][lo..hi] == mem[pos + lo..pos + hi]
  {
    assert mem[pos..pos + n] == mem[pos..][..n];
    assert mem[pos..][..n][lo..hi] == mem[pos..][lo..hi];
  }

  lemma NoBytes()
    ensures Number([]) == 0
  {
  }

  // ---- 32-bit reads

  // k[i], k[i] & 0xffffff, k[i] & 0xffff or k[i] & 0xff
  function Read32(mem: Bytes, pos: nat, n: nat): Word
    requires 1 <= n <= 4 && pos + 4 <= |mem|
  {
    if n == 4 then Full(mem, pos)
    else if n == 3 then Full(mem, pos) % 0x100_0000
    else if n == 2 then Full(mem, pos) % 65536
    else Full(mem, pos) % 256
  }

  lemma Read32IsPart(mem: Bytes, pos: nat, n: nat)
    requires 1 <= n <= 4 && pos + 4 <= |mem|
    ensures Read32(mem, pos, n) == Part(mem, pos, n)
  {
    MaskIsPart(mem, pos);
    hide Full, Part;
  }

  // The last block.  A word may stick out of the key; what sticks out is masked.
  method Tail32(mem: Bytes, pos: nat, n: nat, x: State) returns (r: Word)
    requires n <= 12 && pos + (n + 3) / 4 * 4 <= |mem|
    ensures r == HashFrom(x, mem[pos..pos + n])
  {
    hide Part, Plus, Final, Read32, Add;
    if n == 0 {
      return x.c;
    }
    PlusIsParts(mem, pos, n, x);
    var a, b, c := x.a, x.b, x.c;
    if n > 8 {
      Read32IsPart(mem, pos + 8, n - 8);
      c := Add(c, Read32(mem, pos + 8, n - 8));
    }
    if n > 4 {
      Read32IsPart(mem, pos + 4, Min(n - 4, 4));
      b := Add(b, Read32(mem, pos + 4, Min(n - 4, 4)));
    }
    Read32IsPart(mem, pos, Min(n, 4));
    a := Add(a, Read32(mem, pos, Min(n, 4)));
    AddNothing(x);
    return Final(State(a, b, c));
  }

  lemma AddNothing(x: State)
    ensures Add(x.a, 0) == x.a && Add(x.b, 0) == x.b && Add(x.c, 0) == x.c
  {
  }

  // Twelve bytes more
  lemma BlockTaken(mem: Bytes, pos: nat, end: nat, x: State)
    requires pos + 12 < end <= |mem|
    ensures HashFrom(x, mem[pos..end]) ==
            HashFrom(Mix(State(Add(x.a, Part(mem, pos, 4)), Add(x.b, Part(mem, pos + 4, 4)),
                               Add(x.c, Part(mem, pos + 8, 4)))),
                     mem[pos + 12..end])
  {
    hide Part, Plus, Final, Add, Mix;
    PlusIsParts(mem, pos, 12, x);
    assert mem[pos..end][..12] == mem[pos..pos + 12] && mem[pos..end][12..] == mem[pos + 12..end];
  }

  method Hash32(mem: Bytes, length: nat, init: Word) returns (r: Word)
    requires (length + 3) / 4 * 4 <= |mem|
    ensures r == Hash(mem[..length], init)
  {
    hide Part, Final, Mix, HashFrom, Full, Start;
    var x, pos, left := Start(length, init), 0, length;
    assert mem[0..length] == mem[..length];
    while left > 12
      invariant 0 <= left && pos + left == length && pos % 4 == 0
      invariant HashFrom(x, mem[pos..length]) == Hash(mem[..length], init)
    {
      BlockTaken(mem, pos, length, x);
      MaskIsPart(mem, pos);
      MaskIsPart(mem, pos + 4);
      MaskIsPart(mem, pos + 8);
      x := Mix(State(Add(x.a, Full(mem, pos)), Add(x.b, Full(mem, pos + 4)), Add(x.c, Full(mem, pos + 8))));
      left := left - 12;
      pos := pos + 12;
    }
    r := Tail32(mem, pos, left, x);
  }

  // ---- 16-bit reads

  lemma AddInParts(x: Word, y: Word, z: Word)
    requires y + z < LIMIT
    ensures Add(Add(x, y), z) == Add(x, y + z)
  {
  }

  // x += the n bytes at pos: two halves, or a byte for the odd one and then the half in front of it
  function Add16(x: Word, mem: Bytes, pos: nat, n: nat): Word
    requires 1 <= n <= 4 && pos + n <= |mem|
  {
    if n == 4 then
      MaskIsPart(mem, pos);
      HalvesArePart(mem, pos);
      Add(x, Half(mem, pos) + Half(mem, pos + 2) * 65536)
    else if n == 3 then Add(Add(x, Byte(mem, pos + 2) * 65536), Half(mem, pos))
    else if n == 2 then Add(x, Half(mem, pos))
    else Add(x, mem[pos])
  }

  lemma Add16IsPart(x: Word, mem: Bytes, pos: nat, n: nat)
    requires 1 <= n <= 4 && pos + n <= |mem|
    ensures Add16(x, mem, pos, n) == Add(x, Part(mem, pos, n))
  {
    HalvesArePart(mem, pos);
    if n == 3 {
      AddInParts(x, Byte(mem, pos + 2) * 65536, Half(mem, pos));
    }
    hide Add, Half, Part;
  }

  method Tail16(mem: Bytes, pos: nat, n: nat, x: State) returns (r: Word)
    requires n <= 12 && pos + n <= |mem|
    ensures r == HashFrom(x, mem[pos..pos + n])
  {
    hide Part, Plus, Final, Add16, Add;
    if n == 0 {
      return x.c;
    }
    PlusIsParts(mem, pos, n, x);
    var a, b, c := x.a, x.b, x.c;
    if n > 8 {
      Add16IsPart(c, mem, pos + 8, n - 8);
      c := Add16(c, mem, pos + 8, n - 8);
    }
    if n > 4 {
      Add16IsPart(b, mem, pos + 4, Min(n - 4, 4));
      b := Add16(b, mem, pos + 4, Min(n - 4, 4));
    }
    Add16IsPart(a, mem, pos, Min(n, 4));
    a := Add16(a, mem, pos, Min(n, 4));
    AddNothing(x);
    return Final(State(a, b, c));
  }

  method Hash16(mem: Bytes, length: nat, init: Word) returns (r: Word)
    requires length <= |mem|
    ensures r == Hash(mem[..length], init)
  {
    hide Part, Final, Mix, HashFrom, Add16, Start;
    var x, pos, left := Start(length, init), 0, length;
    assert mem[0..length] == mem[..length];
    while left > 12
      invariant 0 <= left && pos + left == length
      invariant HashFrom(x, mem[pos..length]) == Hash(mem[..length], init)
    {
      BlockTaken(mem, pos, length, x);
      Add16IsPart(x.a, mem, pos, 4);
      Add16IsPart(x.b, mem, pos + 4, 4);
      Add16IsPart(x.c, mem, pos + 8, 4);
      x := Mix(State(Add16(x.a, mem, pos, 4), Add16(x.b, mem, pos + 4, 4), Add16(x.c, mem, pos + 8, 4)));
      left := left - 12;
      pos := pos + 12;
    }
    r := Tail16(mem, pos, left, x);
  }

  // ---- one byte at a time

  // A full block adds its bytes from the first to the last
  function AddUp(x: Word, mem: Bytes, pos: nat): Word
    requires pos + 4 <= |mem|
  {
    Add(Add(Add(Add(x, mem[pos]), Byte(mem, pos + 1) * 256), Byte(mem, pos + 2) * 65536),
        Byte(mem, pos + 3) * 0x100_0000)
  }

  // the last one from the last to the first
  function AddDown(x: Word, mem: Bytes, pos: nat, n: nat): Word
    requires 1 <= n <= 4 && pos + n <= |mem|
  {
    var x := if n > 3 then Add(x, Byte(mem, pos + 3) * 0x100_0000) else x;
    var x := if n > 2 then Add(x, Byte(mem, pos + 2) * 65536) else x;
    var x := if n > 1 then Add(x, Byte(mem, pos + 1) * 256) else x;
    Add(x, mem[pos])
  }

  lemma AddUpIsPart(x: Word, mem: Bytes, pos: nat)
    requires pos + 4 <= |mem|
    ensures AddUp(x, mem, pos) == Add(x, Part(mem, pos, 4))
  {
    var p, q, r, s := Byte(mem, pos), Byte(mem, pos + 1) * 256, Byte(mem, pos + 2) * 65536,
      Byte(mem, pos + 3) * 0x100_0000;
    MaskIsPart(mem, pos);
    AddInParts(x, p, q);
    AddInParts(x, p + q, r);
    AddInParts(x, p + q + r, s);
    hide Add, Part;
  }

  lemma AddDownIsPart(x: Word, mem: Bytes, pos: nat, n: nat)
    requires 1 <= n <= 4 && pos + n <= |mem|
    ensures AddDown(x, mem, pos, n) == Add(x, Part(mem, pos, n))
  {
    var p, q := Byte(mem, pos), if n > 1 then Byte(mem, pos + 1) * 256 else 0;
    var r, s := if n > 2 then Byte(mem, pos + 2) * 65536 else 0, if n > 3 then Byte(mem, pos + 3) * 0x100_0000 else 0;
    HalvesArePart(mem, pos);
    AddInParts(x, s, r);
    AddInParts(x, s + r, q);
    AddInParts(x, s + r + q, p);
    AddNothing(State(x, Add(x, s), Add(x, s + r)));
    hide Add, Part;
  }

  method Tail8(mem: Bytes, pos: nat, n: nat, x: State) returns (r: Word)
    requires n <= 12 && pos + n <= |mem|
    ensures r == HashFrom(x, mem[pos..pos + n])
  {
    hide Part, Plus, Final, AddDown, Add;
    if n == 0 {
      return x.c;
    }
    PlusIsParts(mem, pos, n, x);
    var a, b, c := x.a, x.b, x.c;
    if n > 8 {
      AddDownIsPart(c, mem, pos + 8, n - 8);
      c := AddDown(c, mem, pos + 8, n - 8);
    }
    if n > 4 {
      AddDownIsPart(b, mem, pos + 4, Min(n - 4, 4));
      b := AddDown(b, mem, pos + 4, Min(n - 4, 4));
    }
    AddDownIsPart(a, mem, pos, Min(n, 4));
    a := AddDown(a, mem, pos, Min(n, 4));
    AddNothing(x);
    return Final(State(a, b, c));
  }

  method Hash8(mem: Bytes, length: nat, init: Word) returns (r: Word)
    requires length <= |mem|
    ensures r == Hash(mem[..length], init)
  {
    hide Part, Final, Mix, HashFrom, AddUp, Start;
    var x, pos, left := Start(length, init), 0, length;
    assert mem[0..length] == mem[..length];
    while left > 12
      invariant 0 <= left && pos + left == length
      invariant HashFrom(x, mem[pos..length]) == Hash(mem[..length], init)
    {
      BlockTaken(mem, pos, length, x);
      AddUpIsPart(x.a, mem, pos);
      AddUpIsPart(x.b, mem, pos + 4);
      AddUpIsPart(x.c, mem, pos + 8);
      x := Mix(State(AddUp(x.a, mem, pos), AddUp(x.b, mem, pos + 4), AddUp(x.c, mem, pos + 8)));
      left := left - 12;
      pos := pos + 12;
    }
    r := Tail8(mem, pos, left, x);
  }

  // hashlittle: the same hash of a key wherever it lies.  An aligned key may be read up to the end of
  // its last word.
  method HashAt(address: nat, mem: Bytes, length: nat, init: Word) returns (r: Word)
    requires length <= |mem| && (address % 4 == 0 ==> (length + 3) / 4 * 4 <= |mem|)
    ensures r == Hash(mem[..length], init)
  {
    if address % 4 == 0 {
      r := Hash32(mem, length, init);
    } else if address % 2 == 0 {
      r := Hash16(mem, length, init);
    } else {
      r := Hash8(mem, length, init);
    }
  }
}
