// Transfers to and from an I2C EEPROM whose address counter wraps (eeprom_read, eeprom_write).

module Eeprom {
  import opened Arith

  const WORD: nat := 0x1_0000_0000
  // I2C_RXTX_LEN
  const LIMIT: nat := 128

  // Two address octets or three, the page size in bits, and the bus address of the device
  datatype Config = Config(wide: bool, pageBits: nat, dev: nat)

  // Offsets that share the first address octet
  function Span(c: Config): (n: nat)
    ensures n > 0
  {
    if c.wide then 0x1_0000 else 0x100
  }

  function Block(c: Config, offset: nat): nat {
    offset / Span(c) % 256
  }

  // addr[0]
  function Chip(c: Config, offset: nat): nat {
    Or(Block(c, offset), c.dev)
  }

  datatype Cell = Cell(chip: nat, low: nat)

  type Memory = Cell -> bv8

  // Where the byte at an offset belongs
  function CellOf(c: Config, offset: nat): Cell {
    Cell(Chip(c, offset), offset % Span(c))
  }

  predicate Apart(c: Config, offset: nat) {
    offset < 256 * Span(c) && Disjoint(Block(c, offset), c.dev)
  }

  // The block numbers of these offsets do not run into the bits of the device address.
  predicate AllApart(c: Config, offset: nat, end: nat) {
    forall o: nat | offset <= o < end :: Apart(c, o)
  }

  lemma CellsDiffer(c: Config, o: nat, p: nat)
    requires Apart(c, o) && Apart(c, p) && CellOf(c, o) == CellOf(c, p)
    ensures o == p
  {
    hide Or, Disjoint;
    DisjointAdds(Block(c, o), c.dev);
    DisjointAdds(Block(c, p), c.dev);
    SameSpan(o, p, Span(c));
  }

  lemma SameSpan(o: nat, p: nat, span: nat)
    requires 0 < span && o < 256 * span && p < 256 * span
    requires o / span % 256 == p / span % 256 && o % span == p % span
    ensures o == p
  {
    FewBlocks(o, span);
    FewBlocks(p, span);
    assert o / span == p / span;
    Quotient(o, span);
    Quotient(p, span);
  }

  lemma FewBlocks(o: nat, span: nat)
    requires 0 < span && o < 256 * span
    ensures (o / span) % 256 == o / span
  {
    Quotient(o, span);
    var q := o / span;
    if q >= 256 {
      Products(256, q, span);
    }
    assert q < 256;
  }

  // ---- the device ----

  // The address counter k bytes on: only its low bits count.
  function Wrap(low: nat, k: nat, unit: nat): nat
    requires unit > 0
  {
    low / unit * unit + (low % unit + k) % unit
  }

  function Put(m: Memory, at: Cell, b: bv8): Memory {
    c => if c == at then b else m(c)
  }

  function Written(m: Memory, at: Cell, data: seq<bv8>, unit: nat): Memory
    requires unit > 0
  {
    if data == [] then m
    else
      var k := |data| - 1;
      Put(Written(m, at, data[..k], unit), Cell(at.chip, Wrap(at.low, k, unit)), data[k])
  }

  // Within a page the bytes go where they should.
  lemma {:induction false} WrittenInPage(m: Memory, at: Cell, data: seq<bv8>, unit: nat, c: Cell)
    requires unit > 0 && at.low % unit + |data| <= unit
    ensures Written(m, at, data, unit)(c) ==
            if c.chip == at.chip && at.low <= c.low < at.low + |data| then data[c.low - at.low] else m(c)
  {
    if data != [] {
      WrittenInPage(m, at, data[..|data| - 1], unit, c);
      WrapsNot(at.low, |data| - 1, unit);
    }
  }

  lemma WrapsNot(low: nat, k: nat, unit: nat)
    requires unit > 0 && low % unit + k < unit
    ensures Wrap(low, k, unit) == low + k
  {
    Quotient(low, unit);
    Divides(low % unit + k, unit, 0, low % unit + k);
  }

  // It never leaves its page, where it goes round.
  lemma WrapStays(low: nat, k: nat, unit: nat)
    requires unit > 0
    ensures Wrap(low, k, unit) / unit == low / unit && Wrap(low, k, unit) % unit == (low + k) % unit
  {
    var q, r := low / unit, low % unit;
    var d, e := (r + k) / unit, (r + k) % unit;
    Quotient(low, unit);
    Quotient(r + k, unit);
    WrapsTo(low, k, unit, q, r, d, e);
  }

  lemma WrapsTo(low: nat, k: nat, unit: nat, q: nat, r: nat, d: nat, e: nat)
    requires unit > 0 && low == unit * q + r && r + k == unit * d + e && e < unit
    ensures (q * unit + e) / unit == q && (q * unit + e) % unit == e == (low + k) % unit
  {
    Divides(q * unit + e, unit, q, e);
    assert low + k == (q + d) * unit + e;
    Divides(low + k, unit, q + d, e);
  }

  datatype Chunk = Chunk(chip: nat, offset: nat, len: nat)

  // The bus: the cells of the devices on it, and what was transferred so far
  class Bus {
    var mem: Memory
    var log: seq<Chunk>
    var failures: nat

    constructor (mem: Memory)
      ensures this.mem == mem && log == [] && failures == 0
    {
      this.mem, log, failures := mem, [], 0;
    }

    // i2c_write; a transfer that fails leaves anything behind
    method Write(c: Config, chip: nat, offset: nat, data: seq<bv8>) returns (status: int)
      modifies this
      ensures log == old(log) + [Chunk(chip, offset, |data|)]
      ensures failures == old(failures) + if status == 0 then 0 else 1
      ensures status == 0 ==>
                forall x :: mem(x) == Written(old(mem), Cell(chip, offset % Span(c)), data, Pow2(c.pageBits))(x)
    {
      log := log + [Chunk(chip, offset, |data|)];
      if * {
        status := 0;
        mem := Written(mem, Cell(chip, offset % Span(c)), data, Pow2(c.pageBits));
      } else {
        status := -1;
        mem := *;
        failures := failures + 1;
      }
    }

    // i2c_read; the counter of the device wraps in a block of 256
    method Read(c: Config, chip: nat, offset: nat, len: nat) returns (status: int, data: seq<bv8>)
      modifies `log, `failures
      ensures log == old(log) + [Chunk(chip, offset, len)] && |data| == len
      ensures failures == old(failures) + if status == 0 then 0 else 1
      ensures status == 0 ==> forall k | 0 <= k < len :: data[k] == mem(Cell(chip, Wrap(offset % Span(c), k, 256)))
    {
      log := log + [Chunk(chip, offset, len)];
      if * {
        status := 0;
        var m := mem;
        data := seq(len, k requires k >= 0 => m(Cell(chip, Wrap(offset % Span(c), k, 256))));
      } else {
        status := -1;
        data := *;
        data := if |data| == len then data else seq(len, k => 0);
        failures := failures + 1;
      }
    }
  }

  // ---- the transfers ----

  // len: the page offset is taken from the low octet of the offset only
  function Length(offset: nat, end: nat, bits: nat): (len: nat)
    requires offset <= end
    ensures offset < end ==> 1 <= len <= end - offset
  {
    var left: int := Pow2(bits) - offset % 256 % Pow2(bits);
    var most := if left > LIMIT then LIMIT else left;
    if end - offset > most then most else end - offset
  }

  function Chunks(c: Config, offset: nat, end: nat, bits: nat): seq<Chunk>
    requires offset <= end
    decreases end - offset
  {
    if offset == end then []
    else
      var len := Length(offset, end, bits);
      [Chunk(Chip(c, offset), offset, len)] + Chunks(c, offset + len, end, bits)
  }

  // Pages divide blocks.
  lemma PagesDivide(bits: nat, offset: nat, len: nat)
    requires bits <= 8
    ensures Pow2(bits) <= 256
    ensures offset % 256 % Pow2(bits) == offset % 0x1_0000 % Pow2(bits) == offset % Pow2(bits)
    ensures offset % Pow2(bits) + len <= Pow2(bits) ==> offset % 256 + len <= 256
  {
    PowersAdd(bits, 8 - bits);
    PowersAdd(bits, 16 - bits);
    PowersRise(bits, 8);
    assert Pow2(8) == 256 && Pow2(16) == 0x1_0000 by {
      assert Pow2(4) == 16;
      PowersAdd(4, 4);
      PowersAdd(8, 8);
    }
    Multiples(offset, Pow2(bits), Pow2(8 - bits));
    Multiples(offset, Pow2(bits), Pow2(16 - bits));
    if offset % Pow2(bits) + len <= Pow2(bits) {
      NotCrossed(offset, Pow2(bits), Pow2(8 - bits), len);
    }
  }

  // The transfer stays in a page, and so in a block.
  lemma LengthInPage(offset: nat, end: nat, bits: nat)
    requires offset < end && bits <= 8
    ensures var len := Length(offset, end, bits);
            && 1 <= len <= LIMIT && offset + len <= end
            && offset % Pow2(bits) + len <= Pow2(bits) && offset % 256 + len <= 256
  {
    hide Pow2;
    PagesDivide(bits, offset, Length(offset, end, bits));
  }

  // Pages of more than 256 bytes would be crossed, the low octet being no page offset then.
  lemma PagesAreRespected(bits: nat)
    ensures bits <= 8 <==>
            forall offset: nat, end: nat | offset < end :: InPage(offset, Length(offset, end, bits), bits)
  {
    if bits <= 8 {
      forall offset: nat, end: nat | offset < end
        ensures InPage(offset, Length(offset, end, bits), bits)
      {
        LengthInPage(offset, end, bits);
      }
    } else {
      LargePage(bits);
      CrossesPage(bits, Pow2(bits) - 1);
    }
  }

  lemma CrossesPage(bits: nat, offset: nat)
    requires Pow2(bits) >= 512 && Pow2(bits) % 256 == 0 && offset == Pow2(bits) - 1
    ensures !InPage(offset, Length(offset, offset + 2, bits), bits)
  {
    hide Pow2;
    var p := Pow2(bits);
    Divides(offset, p, 0, p - 1);
    Divides(255, p, 0, 255);
  }

  predicate InPage(offset: nat, len: nat, bits: nat) {
    offset % Pow2(bits) + len <= Pow2(bits)
  }

  lemma {:induction false} LargePage(bits: nat)
    requires bits >= 9
    ensures Pow2(bits) >= 512 && Pow2(bits) % 256 == 0
  {
    if bits == 9 {
      assert Pow2(6) == 64;
    } else {
      LargePage(bits - 1);
    }
  }

  predicate Has(k: Chunk, o: nat) {
    k.offset <= o < k.offset + k.len
  }

  // It goes on to the end, to the end of a page, or to the limit of a transfer.
  predicate IsFull(k: Chunk, end: nat, bits: nat) {
    k.offset + k.len == end || (k.offset + k.len) % Pow2(bits) == 0 || k.len == 128
  }

  lemma LengthIsFull(c: Chunk, end: nat, bits: nat)
    requires c.offset < end && bits <= 8 && c.len == Length(c.offset, end, bits)
    ensures IsFull(c, end, bits) && c.len <= 128
  {
    hide Pow2;
    var p := Pow2(bits);
    PagesDivide(bits, c.offset, 0);
    if c.offset % p + c.len == p {
      PageEnds(c.offset, p, c.len);
    }
  }

  lemma PageEnds(offset: nat, p: nat, len: nat)
    requires p > 0 && offset % p + len == p
    ensures (offset + len) % p == 0
  {
    Quotient(offset, p);
    OneMore(offset / p, p);
    Divides(offset + len, p, offset / p + 1, 0);
  }

  predicate Follows(k: Chunk, next: Chunk) {
    next.offset == k.offset + k.len
  }

  // The transfers follow each other, keep within pages and the transfer limit, and each addresses the device its
  // bytes belong to.
  lemma {:induction false} ChunksFollow(c: Config, offset: nat, end: nat, bits: nat)
    requires offset <= end && bits <= 8
    ensures var ks := Chunks(c, offset, end, bits);
            && (ks == [] <==> offset == end)
            && (ks != [] ==> ks[0].offset == offset && ks[|ks| - 1].offset + ks[|ks| - 1].len == end)
            && (forall i | 0 <= i < |ks| - 1 :: Follows(ks[i], ks[i + 1]))
            && (forall i | 0 <= i < |ks| :: 1 <= ks[i].len <= 128 && InPage(ks[i].offset, ks[i].len, bits))
            && (forall i | 0 <= i < |ks| :: IsFull(ks[i], end, bits))
    decreases end - offset
  {
    if offset < end {
      var len := Length(offset, end, bits);
      LengthInPage(offset, end, bits);
      LengthIsFull(Chunk(Chip(c, offset), offset, len), end, bits);
      hide IsFull, InPage;
      ChunksFollow(c, offset + len, end, bits);
    }
  }

  predicate Reached(ks: seq<Chunk>, o: nat) {
    exists i :: 0 <= i < |ks| && Has(ks[i], o)
  }

  predicate Once(ks: seq<Chunk>, o: nat) {
    forall i, j | 0 <= i < |ks| && 0 <= j < |ks| && Has(ks[i], o) && Has(ks[j], o) :: i == j
  }

  // The byte that a transfer moves at an offset is the one that belongs there.
  predicate Aimed(c: Config, k: Chunk, o: nat) {
    Has(k, o) ==> CellOf(c, o) == Cell(k.chip, k.offset % Span(c) + (o - k.offset))
  }

  // They cover what was asked for, nothing twice and nothing elsewhere.
  lemma {:induction false} ChunksCover(c: Config, offset: nat, end: nat, bits: nat, o: nat)
    requires offset <= end && bits <= 8
    ensures var ks := Chunks(c, offset, end, bits);
            && (Reached(ks, o) <==> offset <= o < end) && Once(ks, o)
            && forall i | 0 <= i < |ks| :: Aimed(c, ks[i], o)
    decreases end - offset
  {
    hide Chip, Length, Pow2;
    if offset < end {
      var len := Length(offset, end, bits);
      LengthInPage(offset, end, bits);
      ChunksCover(c, offset + len, end, bits, o);
      var k, rest := Chunk(Chip(c, offset), offset, len), Chunks(c, offset + len, end, bits);
      assert Chunks(c, offset, end, bits) == [k] + rest;
      ReachedMore(k, rest, o);
      if Has(k, o) {
        CellInBlock(c, offset, o - offset);
      }
    }
  }

  // The address octets of each transfer, digit by digit: the lower ones hold the offset, and the first one its next
  // eight bits, or-ed with the address of the device.
  predicate AddressedBy(c: Config, k: Chunk, digit: nat) {
    k.chip / Pow2(digit) % 2 == 1 <==>
      (if c.wide then k.offset / 0x1_0000 else k.offset / 0x100) % 256 / Pow2(digit) % 2 == 1
      || c.dev / Pow2(digit) % 2 == 1
  }

  lemma {:induction false} ChunksAddressed(c: Config, offset: nat, end: nat, bits: nat, digit: nat)
    requires offset <= end
    ensures forall k <- Chunks(c, offset, end, bits) :: AddressedBy(c, k, digit)
    decreases end - offset
  {
    hide Pow2, Or, Length;
    if offset < end {
      OrDigit(Block(c, offset), c.dev, digit);
      ChunksAddressed(c, offset + Length(offset, end, bits), end, bits, digit);
    }
  }

  // Where a byte belongs, in numbers
  lemma CellHasOctets(c: Config, o: nat, digit: nat)
    ensures CellOf(c, o).low == if c.wide then o / 0x100 % 256 * 256 + o % 256 else o % 256
    ensures AddressedBy(c, Chunk(CellOf(c, o).chip, o, 1), digit)
  {
    hide Pow2, Or;
    OrDigit(Block(c, o), c.dev, digit);
    if c.wide {
      TwoOctets(o, o / 0x1_0000, o / 0x100 % 256);
    }
  }

  lemma TwoOctets(o: nat, high: nat, mid: nat)
    requires high == o / 0x1_0000 && mid == o / 0x100 % 256
    ensures o % 0x1_0000 == mid * 256 + o % 256
  {
    Nested(o, 256, 256);
    Quotient(o, 256);
    Quotient(o / 256, 256);
    Quotient(o, 0x1_0000);
  }

  lemma ReachedMore(k: Chunk, rest: seq<Chunk>, o: nat)
    ensures Reached([k] + rest, o) == (Has(k, o) || Reached(rest, o))
    ensures !(Has(k, o) && Reached(rest, o)) && Once(rest, o) ==> Once([k] + rest, o)
  {
    var ks := [k] + rest;
    if Has(k, o) {
      assert Has(ks[0], o);
    } else if Reached(rest, o) {
      var i :| 0 <= i < |rest| && Has(rest[i], o);
      assert Has(ks[i + 1], o);
    }
    forall i | 0 < i < |ks| && Has(ks[i], o)
      ensures Has(rest[i - 1], o)
    {
    }
  }

  // Offsets of one block are neighbours on one device.
  lemma CellInBlock(c: Config, offset: nat, k: nat)
    requires offset % 256 + k < 256
    ensures CellOf(c, offset + k) == Cell(Chip(c, offset), offset % Span(c) + k)
    ensures Wrap(offset % Span(c), k, 256) == offset % Span(c) + k
  {
    assert (offset + k) / 256 == offset / 256;
    assert (offset + k) / 0x1_0000 == offset / 0x1_0000 by {
      assert offset / 0x1_0000 == offset / 256 / 256 && (offset + k) / 0x1_0000 == (offset + k) / 256 / 256;
    }
    assert offset % 0x1_0000 % 256 == offset % 256;
  }

  predicate HoldsAt(m: Memory, c: Config, o: nat, b: bv8) {
    m(CellOf(c, o)) == b
  }

  // The bytes stand at their offsets.
  predicate Stands(m: Memory, c: Config, offset: nat, data: seq<bv8>) {
    forall k | 0 <= k < |data| :: HoldsAt(m, c, offset + k, data[k])
  }

  predicate Within(c: Config, offset: nat, end: nat, x: Cell) {
    exists o: nat | offset <= o < end :: x == CellOf(c, o)
  }

  // Nothing else has changed.
  ghost predicate Elsewhere(m: Memory, n: Memory, c: Config, offset: nat, end: nat) {
    forall x | !Within(c, offset, end, x) :: n(x) == m(x)
  }

  // One more transfer
  ghost predicate Transferred(n: Memory, l: Memory, c: Config, at: nat, data: seq<bv8>) {
    && at % Pow2(c.pageBits) + |data| <= Pow2(c.pageBits)
    && forall x :: l(x) == Written(n, Cell(Chip(c, at), at % Span(c)), data, Pow2(c.pageBits))(x)
  }

  lemma TransferredIs(n: Memory, l: Memory, c: Config, at: nat, data: seq<bv8>, x: Cell)
    requires c.pageBits <= 8 && Transferred(n, l, c, at, data)
    ensures at % 256 + |data| <= 256
    ensures var low := at % Span(c);
            l(x) == if x.chip == Chip(c, at) && low <= x.low < low + |data| then data[x.low - low] else n(x)
  {
    hide Chip, Written, Pow2;
    PagesDivide(c.pageBits, at, |data|);
    WrittenInPage(n, Cell(Chip(c, at), at % Span(c)), data, Pow2(c.pageBits), x);
  }

  lemma StandsMore(n: Memory, l: Memory, c: Config, offset: nat, done: seq<bv8>, data: seq<bv8>)
    requires c.pageBits <= 8 && Transferred(n, l, c, offset + |done|, data)
    requires AllApart(c, offset, offset + |done| + |data|) && Stands(n, c, offset, done)
    ensures Stands(l, c, offset, done + data)
  {
    hide HoldsAt, Transferred, AllApart, CellOf, Span;
    forall k | 0 <= k < |done + data|
      ensures HoldsAt(l, c, offset + k, (done + data)[k])
    {
      if k < |done| {
        StillHolds(n, l, c, offset, |done|, data, k, done[k]);
      } else {
        NowHolds(n, l, c, offset + |done|, data, k - |done|);
      }
    }
  }

  lemma StillHolds(n: Memory, l: Memory, c: Config, offset: nat, done: nat, data: seq<bv8>, k: nat, b: bv8)
    requires c.pageBits <= 8 && Transferred(n, l, c, offset + done, data) && k < done
    requires AllApart(c, offset, offset + done + |data|) && HoldsAt(n, c, offset + k, b)
    ensures HoldsAt(l, c, offset + k, b)
  {
    hide Chip, Transferred, AllApart, CellOf, Span;
    TransferredIs(n, l, c, offset + done, data, CellOf(c, offset + k));
    NotInChunk(c, offset + done, |data|, offset, offset + k);
  }

  lemma NowHolds(n: Memory, l: Memory, c: Config, at: nat, data: seq<bv8>, k: nat)
    requires c.pageBits <= 8 && Transferred(n, l, c, at, data) && k < |data|
    ensures HoldsAt(l, c, at + k, data[k])
  {
    hide Chip, Transferred, CellOf, Span, Pow2;
    var x := CellOf(c, at + k);
    TransferredIs(n, l, c, at, data, x);
    CellInBlock(c, at, k);
    assert x.low - at % Span(c) == k;
  }

  lemma MovedIsWithin(c: Config, offset: nat, at: nat, len: nat, x: Cell)
    requires offset <= at && at % 256 + len <= 256
    requires x.chip == Chip(c, at) && at % Span(c) <= x.low < at % Span(c) + len
    ensures Within(c, offset, at + len, x)
  {
    hide Chip, Span, CellOf;
    var k := x.low - at % Span(c);
    CellInBlock(c, at, k);
    assert x == CellOf(c, at + k);
  }

  lemma WithinMore(c: Config, offset: nat, at: nat, end: nat, x: Cell)
    requires at <= end && Within(c, offset, at, x)
    ensures Within(c, offset, end, x)
  {
    hide CellOf;
    var o: nat :| offset <= o < at && x == CellOf(c, o);
  }

  lemma ElsewhereStill(m: Memory, n: Memory, l: Memory, c: Config, offset: nat, at: nat, data: seq<bv8>)
    requires c.pageBits <= 8 && offset <= at && Transferred(n, l, c, at, data) && Elsewhere(m, n, c, offset, at)
    ensures Elsewhere(m, l, c, offset, at + |data|)
  {
    hide Chip, Transferred, Within, Span;
    forall x | l(x) != m(x)
      ensures Within(c, offset, at + |data|, x)
    {
      TransferredIs(n, l, c, at, data, x);
      if x.chip == Chip(c, at) && at % Span(c) <= x.low < at % Span(c) + |data| {
        MovedIsWithin(c, offset, at, |data|, x);
      } else {
        WithinMore(c, offset, at, at + |data|, x);
      }
    }
  }

  lemma NotInChunk(c: Config, at: nat, len: nat, offset: nat, o: nat)
    requires offset <= o < at && at % 256 + len <= 256 && AllApart(c, offset, at + len)
    ensures var x := CellOf(c, o);
            !(x.chip == Chip(c, at) && at % Span(c) <= x.low < at % Span(c) + len)
  {
    hide Chip;
    var x := CellOf(c, o);
    if x.chip == Chip(c, at) && at % Span(c) <= x.low < at % Span(c) + len {
      var k := x.low - at % Span(c);
      CellInBlock(c, at, k);
      assert Apart(c, o) && Apart(c, at + k);
      CellsDiffer(c, o, at + k);
    }
  }

  // Where the transfers end: nothing is transferred when offset + cnt does not fit a word.
  function Stop(start: nat, cnt: nat): nat {
    if start + cnt < WORD then start + cnt else start
  }

  // An end beyond 32 bits wraps to one in front of the start, so that nothing is transferred.
  lemma WrapsToNothing(c: Config, start: nat, cnt: nat, bits: nat)
    ensures Stop(start, cnt) == if start + cnt < 4294967296 then start + cnt else start
    ensures start + cnt >= 4294967296 ==> Chunks(c, start, Stop(start, cnt), bits) == []
    ensures start < 4294967296 && cnt < 4294967296 && start + cnt >= 4294967296 ==> End(start, cnt) < start
  {
  }

  // offset + cnt in unsigned arithmetic
  function End(start: nat, cnt: nat): nat {
    (start + cnt) % WORD
  }

  lemma EndIsStop(start: nat, cnt: nat)
    requires start < WORD && cnt < WORD
    ensures start <= Stop(start, cnt) <= start + cnt
    ensures start + cnt < 0x1_0000_0000 ==> Stop(start, cnt) == start + cnt
    ensures End(start, cnt) > start ==> End(start, cnt) == Stop(start, cnt)
    ensures start < Stop(start, cnt) ==> End(start, cnt) == Stop(start, cnt)
  {
  }

  // What is logged, and what is still to be: together the transfers from start on
  ghost predicate Underway(was: seq<Chunk>, log: seq<Chunk>, c: Config, start: nat, offset: nat, stop: nat, bits: nat) {
    start <= offset <= stop && log + Chunks(c, offset, stop, bits) == was + Chunks(c, start, stop, bits)
  }

  lemma NothingLogged(log: seq<Chunk>, c: Config, start: nat, stop: nat, bits: nat)
    requires start <= stop
    ensures Underway(log, log, c, start, start, stop, bits)
  {
  }

  lemma LogGrows(was: seq<Chunk>, log: seq<Chunk>, c: Config, start: nat, offset: nat, stop: nat, bits: nat)
    requires Underway(was, log, c, start, offset, stop, bits) && offset < stop
    ensures var len := Length(offset, stop, bits);
            Underway(was, log + [Chunk(Chip(c, offset), offset, len)], c, start, offset + len, stop, bits)
  {
    hide Chip, Length, Chunks;
    var len := Length(offset, stop, bits);
    var k, rest := Chunk(Chip(c, offset), offset, len), Chunks(c, offset + len, stop, bits);
    NextChunk(c, offset, stop, bits);
    assert log + ([k] + rest) == (log + [k]) + rest;
  }

  lemma NextChunk(c: Config, offset: nat, end: nat, bits: nat)
    requires offset < end
    ensures var len := Length(offset, end, bits);
            Chunks(c, offset, end, bits) == [Chunk(Chip(c, offset), offset, len)] + Chunks(c, offset + len, end, bits)
  {
    hide Length, Chip;
  }

  lemma LogIsDone(was: seq<Chunk>, log: seq<Chunk>, c: Config, start: nat, stop: nat, bits: nat)
    requires Underway(was, log, c, start, stop, stop, bits)
    ensures log == was + Chunks(c, start, stop, bits)
  {
    assert log + [] == log;
  }

  // eeprom_write
  method WriteAll(bus: Bus, c: Config, start: nat, buffer: array<bv8>, cnt: nat) returns (rcode: int)
    requires start < 0x1_0000_0000 && cnt < 0x1_0000_0000 && cnt <= buffer.Length
    modifies bus
    ensures bus.log == old(bus.log) + Chunks(c, start, Stop(start, cnt), c.pageBits)
    ensures rcode == if bus.failures > old(bus.failures) then 1 else 0
    ensures rcode == 0 && start + cnt < 0x1_0000_0000 && c.pageBits <= 8 && AllApart(c, start, start + cnt) ==>
              Stands(bus.mem, c, start, buffer[..cnt]) && Elsewhere(old(bus.mem), bus.mem, c, start, start + cnt)
  {
    hide End, Stands, Elsewhere, Underway, Chip, Length, AllApart, Written, Transferred, Pow2, Chunks, Span;
    var end := End(start, cnt);
    EndIsStop(start, cnt);
    var offset, at := start, 0;
    ghost var stop := Stop(start, cnt);
    ghost var apart := c.pageBits <= 8 && AllApart(c, start, stop);
    rcode := 0;
    NothingStands(bus.mem, c, start);
    NothingLogged(bus.log, c, start, stop, c.pageBits);
    assert buffer[..0] == [];
    while offset < end
      invariant start <= offset <= stop && at == offset - start
      invariant Underway(old(bus.log), bus.log, c, start, offset, stop, c.pageBits)
      invariant bus.failures >= old(bus.failures) && rcode == if bus.failures > old(bus.failures) then 1 else 0
      invariant rcode == 0 && apart ==> Stands(bus.mem, c, start, buffer[..at])
      invariant rcode == 0 && apart ==> Elsewhere(old(bus.mem), bus.mem, c, start, offset)
    {
      assert end == stop;
      LogGrows(old(bus.log), bus.log, c, start, offset, stop, c.pageBits);
      var len := Length(offset, end, c.pageBits);
      ghost var was := bus.mem;
      ghost var data := buffer[at..at + len];
      var status := bus.Write(c, Chip(c, offset), offset, buffer[at..at + len]);
      if status != 0 {
        rcode := 1;
      }
      if rcode == 0 && apart {
        LengthInPage(offset, end, c.pageBits);
        FewerApart(c, start, offset + len, end);
        IsTransferred(was, bus.mem, c, offset, data);
        StandsMore(was, bus.mem, c, start, buffer[..at], data);
        ElsewhereStill(old(bus.mem), was, bus.mem, c, start, offset, data);
        assert buffer[..at] + data == buffer[..at + len];
      }
      at := at + len;
      offset := offset + len;
    }
    LogIsDone(old(bus.log), bus.log, c, start, stop, c.pageBits);
  }

  lemma IsTransferred(n: Memory, l: Memory, c: Config, at: nat, data: seq<bv8>)
    requires at % Pow2(c.pageBits) + |data| <= Pow2(c.pageBits)
    requires forall x :: l(x) == Written(n, Cell(Chip(c, at), at % Span(c)), data, Pow2(c.pageBits))(x)
    ensures Transferred(n, l, c, at, data)
  {
  }

  lemma NothingStands(m: Memory, c: Config, offset: nat)
    ensures Stands(m, c, offset, []) && Elsewhere(m, m, c, offset, offset)
  {
  }

  lemma FewerApart(c: Config, offset: nat, mid: nat, end: nat)
    requires mid <= end && AllApart(c, offset, end)
    ensures AllApart(c, offset, mid)
  {
  }

  // eeprom_read
  method ReadAll(bus: Bus, c: Config, start: nat, buffer: array<bv8>, cnt: nat) returns (rcode: int)
    requires start < 0x1_0000_0000 && cnt < 0x1_0000_0000 && cnt <= buffer.Length
    modifies bus`log, bus`failures, buffer
    ensures bus.log == old(bus.log) + Chunks(c, start, Stop(start, cnt), 8)
    ensures rcode == if bus.failures > old(bus.failures) then 1 else 0
    ensures rcode == 0 && start + cnt < 0x1_0000_0000 ==> Stands(bus.mem, c, start, buffer[..cnt])
    ensures buffer[Stop(start, cnt) - start..] == old(buffer[Stop(start, cnt) - start..])
  {
    hide End, Stop, Stands, Underway, Chip, Length, Chunks, Pow2, Wrap, Span;
    var end := End(start, cnt);
    EndIsStop(start, cnt);
    var offset, at := start, 0;
    ghost var stop := Stop(start, cnt);
    rcode := 0;
    NothingStands(bus.mem, c, start);
    NothingLogged(bus.log, c, start, stop, 8);
    assert buffer[..0] == [];
    while offset < end
      invariant start <= offset <= stop && at == offset - start
      invariant Underway(old(bus.log), bus.log, c, start, offset, stop, 8)
      invariant bus.failures >= old(bus.failures) && rcode == if bus.failures > old(bus.failures) then 1 else 0
      invariant rcode == 0 ==> Stands(bus.mem, c, start, buffer[..at])
      invariant buffer[stop - start..] == old(buffer[stop - start..])
    {
      assert end == stop;
      LengthInPage(offset, end, 8);
      LogGrows(old(bus.log), bus.log, c, start, offset, stop, 8);
      var len := Length(offset, end, 8);
      ghost var done := buffer[..at];
      var status, data := bus.Read(c, Chip(c, offset), offset, len);
      if status != 0 {
        rcode := 1;
      }
      Store(buffer, at, data, stop - start);
      if rcode == 0 {
        ReadMore(bus.mem, c, start, done, data);
      }
      at := at + len;
      offset := offset + len;
    }
    LogIsDone(old(bus.log), bus.log, c, start, stop, 8);
  }

  // The bytes received at buffer + at
  method Store(buffer: array<bv8>, at: nat, data: seq<bv8>, ghost rest: nat)
    requires at + |data| <= rest <= buffer.Length
    modifies buffer
    ensures buffer[..at + |data|] == old(buffer[..at]) + data
    ensures buffer[rest..] == old(buffer[rest..])
  {
    forall k | 0 <= k < |data| {
      buffer[at + k] := data[k];
    }
  }

  lemma ReadMore(m: Memory, c: Config, offset: nat, done: seq<bv8>, data: seq<bv8>)
    requires var at := offset + |done|;
             && at % 256 + |data| <= 256
             && forall k | 0 <= k < |data| :: data[k] == m(Cell(Chip(c, at), Wrap(at % Span(c), k, 256)))
    requires Stands(m, c, offset, done)
    ensures Stands(m, c, offset, done + data)
  {
    hide Chip, Wrap;
    forall k | 0 <= k < |done + data|
      ensures HoldsAt(m, c, offset + k, (done + data)[k])
    {
      if k < |done| {
        assert HoldsAt(m, c, offset + k, done[k]);
      } else {
        CellInBlock(c, offset + |done|, k - |done|);
      }
    }
  }

  // What is read at the offset of a write is what was written.
  method WriteThenRead(bus: Bus, c: Config, start: nat, data: array<bv8>, copy: array<bv8>)
      returns (written: int, got: int)
    requires start < 0x1_0000_0000 && data.Length < 0x1_0000_0000 && copy.Length == data.Length && copy != data
    modifies bus, copy
    ensures
      && written == 0 && got == 0 && start + data.Length < 0x1_0000_0000 && c.pageBits <= 8
      && AllApart(c, start, start + data.Length)
      ==> copy[..] == data[..]
  {
    hide AllApart, Chip, Elsewhere;
    written := WriteAll(bus, c, start, data, data.Length);
    got := ReadAll(bus, c, start, copy, data.Length);
    if written == 0 && got == 0 && start + data.Length < 0x1_0000_0000 && c.pageBits <= 8 &&
       AllApart(c, start, start + data.Length) {
      assert copy[..data.Length] == copy[..] && data[..data.Length] == data[..];
      SameStands(bus.mem, c, start, data[..], copy[..]);
    }
  }

  lemma SameStands(m: Memory, c: Config, offset: nat, a: seq<bv8>, b: seq<bv8>)
    requires |a| == |b| && Stands(m, c, offset, a) && Stands(m, c, offset, b)
    ensures a == b
  {
    forall k | 0 <= k < |a|
      ensures a[k] == b[k]
    {
      assert HoldsAt(m, c, offset + k, a[k]) && HoldsAt(m, c, offset + k, b[k]);
    }
  }
}
