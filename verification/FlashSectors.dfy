// Which flash sectors an address range covers (flash_fill_sect_ranges), and erasing them.

module FlashSectors {
  // flash_info_t: the start addresses of the sectors, and the size of the bank
  datatype Bank = Bank(known: bool, start: seq<int>, size: int)

  predicate BankOk(b: Bank) {
    && |b.start| > 0 && b.start[|b.start| - 1] - b.start[0] < b.size
    && forall i, j | 0 <= i < j < |b.start| :: b.start[i] < b.start[j]
  }

  // A bank that was not recognized may have anything in its table.
  predicate AllOk(banks: seq<Bank>) {
    forall i | 0 <= i < |banks| && banks[i].known :: BankOk(banks[i])
  }

  function BankEnd(b: Bank): int
    requires |b.start| > 0
  {
    b.start[0] + b.size - 1
  }

  // The last address of a sector
  function SectEnd(b: Bank, i: int): int
    requires 0 <= i < |b.start|
  {
    if i == |b.start| - 1 then BankEnd(b) else b.start[i + 1] - 1
  }

  lemma SectorsRise(b: Bank, i: int, j: int)
    requires BankOk(b) && 0 <= i <= j < |b.start|
    ensures b.start[i] <= SectEnd(b, i) <= SectEnd(b, j) <= BankEnd(b)
    ensures i < j ==> SectEnd(b, i) < b.start[j]
  {
  }

  // The sectors from..to of a bank are selected; -1 for none
  datatype Range = Range(from: int, to: int)

  predicate RangeOk(b: Bank, r: Range) {
    0 <= r.from <= r.to < |b.start|
  }

  // What is left to find a place for after the first n banks
  function NextAddr(banks: seq<Bank>, ranges: seq<Range>, n: nat, first: int): int
    requires n <= |banks| && n <= |ranges|
  {
    if n == 0 then first
    else if RangeOk(banks[n - 1], ranges[n - 1]) then SectEnd(banks[n - 1], ranges[n - 1].to) + 1
    else NextAddr(banks, ranges, n - 1, first)
  }

  function Count(ranges: seq<Range>, n: nat): int
    requires n <= |ranges|
  {
    if n == 0 then 0
    else Count(ranges, n - 1) + if ranges[n - 1].from >= 0 then ranges[n - 1].to - ranges[n - 1].from + 1 else 0
  }

  // Each selected range takes up where the ones before it end, and none goes beyond the last address.
  predicate Chained(banks: seq<Bank>, ranges: seq<Range>, n: nat, first: int, last: int)
    requires n <= |banks| && n <= |ranges|
  {
    && (forall i | 0 <= i < n && ranges[i].from >= 0 ::
          && RangeOk(banks[i], ranges[i]) && banks[i].known && SectEnd(banks[i], ranges[i].to) <= last)
    && (forall i | 0 <= i < n && ranges[i].from >= 0 ::
          banks[i].start[ranges[i].from] == NextAddr(banks, ranges, i, first))
  }

  // A known bank in which the rest of the range starts with a sector is selected from there, up to the end of the range
  // or of the bank.
  predicate Exhausted(banks: seq<Bank>, ranges: seq<Range>, n: nat, first: int, last: int)
    requires n <= |banks| && n <= |ranges|
  {
    forall i | 0 <= i < n && banks[i].known && NextAddr(banks, ranges, i, first) <= last ::
      NextAddr(banks, ranges, i, first) in banks[i].start ==> Filled(banks[i], ranges[i], last)
  }

  predicate Filled(b: Bank, r: Range, last: int) {
    RangeOk(b, r) && (SectEnd(b, r.to) == last || r.to == |b.start| - 1)
  }

  predicate Covers(b: Bank, r: Range, a: int) {
    r.from >= 0 && RangeOk(b, r) && b.start[r.from] <= a <= SectEnd(b, r.to)
  }

  predicate Between(first: int, a: int, next: int) {
    first <= a < next
  }

  // The selected sectors are one contiguous run from the first address on, inside the range asked for.
  lemma {:induction false} SelectedIsRun(banks: seq<Bank>, ranges: seq<Range>, n: nat, first: int, last: int)
    requires n <= |banks| && n <= |ranges| && AllOk(banks) && Chained(banks, ranges, n, first, last)
    ensures first <= NextAddr(banks, ranges, n, first)
    ensures Count(ranges, n) > 0 ==> NextAddr(banks, ranges, n, first) <= last + 1
    ensures Count(ranges, n) >= 0
    ensures forall a :: Between(first, a, NextAddr(banks, ranges, n, first)) <==>
                        exists i :: 0 <= i < n && Covers(banks[i], ranges[i], a)
  {
    if n > 0 {
      SelectedIsRun(banks, ranges, n - 1, first, last);
      var b, r := banks[n - 1], ranges[n - 1];
      var before := NextAddr(banks, ranges, n - 1, first);
      if r.from >= 0 {
        SectorsRise(b, r.from, r.to);
        forall a | Between(first, a, NextAddr(banks, ranges, n, first))
          ensures exists i :: 0 <= i < n && Covers(banks[i], ranges[i], a)
        {
          if a < before {
            assert Between(first, a, before);
            var i :| 0 <= i < n - 1 && Covers(banks[i], ranges[i], a);
          } else {
            assert Covers(b, r, a);
          }
        }
      }
      forall a, i | 0 <= i < n && Covers(banks[i], ranges[i], a)
        ensures Between(first, a, NextAddr(banks, ranges, n, first))
      {
        if i < n - 1 {
          assert Between(first, a, before) by {
            assert Covers(banks[i], ranges[i], a);
          }
          assert exists k :: 0 <= k < n - 1 && Covers(banks[k], ranges[k], a);
        }
      }
    }
  }

  // ---- when a range is accepted

  predicate EndsHere(b: Bank, last: int) {
    exists i :: 0 <= i < |b.start| && SectEnd(b, i) == last
  }

  // A bank in which a sector starts at `first` takes a range that ends with a sector or goes on behind the bank; any
  // other bank must hold neither the first address, save as its very last one, nor the end of the range.
  predicate Accepts(b: Bank, first: int, last: int)
    requires |b.start| > 0
  {
    if first in b.start then last > BankEnd(b) || EndsHere(b, last)
    else !(b.start[0] <= first < BankEnd(b)) && !EndsHere(b, last)
  }

  // Where the banks behind this one have to go on
  function Rest(b: Bank, first: int, last: int): int
    requires |b.start| > 0
  {
    if first !in b.start then first else if EndsHere(b, last) then last + 1 else BankEnd(b) + 1
  }

  predicate Accepted(banks: seq<Bank>, first: int, last: int)
    requires AllOk(banks)
  {
    if banks == [] || first > last then true
    else if !banks[0].known then Accepted(banks[1..], first, last)
    else Accepts(banks[0], first, last) && Accepted(banks[1..], Rest(banks[0], first, last), last)
  }

  // The sector that starts at `first` and the one that ends at `last`, or -1
  method ScanBank(b: Bank, first: int, last: int) returns (r: Range)
    requires BankOk(b) && first <= last
    ensures -1 <= r.from < |b.start| && -1 <= r.to < |b.start|
    ensures r.from >= 0 ==> b.start[r.from] == first
    ensures r.from < 0 ==> first !in b.start
    ensures r.to >= 0 ==> SectEnd(b, r.to) == last
    ensures r.to < 0 ==> forall i | 0 <= i < |b.start| :: SectEnd(b, i) != last
  {
    r := Range(-1, -1);
    var sect := 0;
    while sect < |b.start|
      invariant 0 <= sect <= |b.start|
      invariant -1 <= r.from < sect && -1 <= r.to < sect
      invariant r.from >= 0 ==> b.start[r.from] == first
      invariant r.from < 0 ==> forall i | 0 <= i < sect :: b.start[i] != first
      invariant r.to >= 0 ==> SectEnd(b, r.to) == last
      invariant r.to < 0 ==> forall i | 0 <= i < sect :: SectEnd(b, i) != last
    {
      SectorsRise(b, sect, sect);
      var end := SectEnd(b, sect);
      if !(first > end) && !(last < b.start[sect]) {
        if first == b.start[sect] {
          r := r.(from := sect);
        }
        if last == end {
          r := r.(to := sect);
        }
      }
      sect := sect + 1;
    }
  }

  // flash_fill_sect_ranges
  method FillSectRanges(banks: seq<Bank>, first: int, last: int, ranges: array<Range>)
      returns (rcode: int, count: int)
    requires AllOk(banks) && ranges.Length == |banks|
    modifies ranges
    ensures rcode == 0 || rcode == 1
    ensures rcode == 0 <==> Accepted(banks, first, last)
    ensures rcode == 0 ==> Chained(banks, ranges[..], |banks|, first, last) && count == Count(ranges[..], |banks|)
    ensures rcode == 0 ==> Exhausted(banks, ranges[..], |banks|, first, last)
  {
    hide Chained, NextAddr, Count, Accepts, Rest, Exhausted;
    count, rcode := 0, 0;
    NothingChained(banks, ranges.Length, first, last);
    forall i | 0 <= i < ranges.Length {
      ranges[i] := Range(-1, -1);
    }
    assert ranges[..] == Unset(ranges.Length);
    var addrFirst, bank := first, 0;
    while bank < |banks| && addrFirst <= last
      invariant 0 <= bank <= |banks|
      invariant forall i | bank <= i < |banks| :: ranges[i] == Range(-1, -1)
      invariant Chained(banks, ranges[..], bank, first, last) && Exhausted(banks, ranges[..], bank, first, last)
      invariant addrFirst == NextAddr(banks, ranges[..], bank, first) && count == Count(ranges[..], bank)
      invariant Accepted(banks, first, last) == Accepted(banks[bank..], addrFirst, last)
    {
      assert banks[bank..][0] == banks[bank] && banks[bank..][1..] == banks[bank + 1..];
      ghost var was, wasNext := ranges[..], addrFirst;
      if banks[bank].known {
        var r: Range;
        rcode, r, addrFirst := OneBank(banks[bank], addrFirst, last);
        if rcode != 0 {
          return;
        }
        ranges[bank] := r;
        if r.from >= 0 {
          count := count + (r.to - r.from + 1);
        }
      }
      assert ranges[..] == was[bank := ranges[bank]];
      ChainGrows(banks, was, ranges[bank], bank, first, last, addrFirst);
      bank := bank + 1;
    }
    Unselected(banks, ranges[..], bank, first, last);
  }

  // The body of the loop over the banks
  method OneBank(b: Bank, first: int, last: int) returns (rcode: int, r: Range, next: int)
    requires BankOk(b) && first <= last
    ensures rcode == 0 || rcode == 1
    ensures rcode == 0 <==> Accepts(b, first, last)
    ensures rcode == 0 && r.from >= 0 ==>
              && RangeOk(b, r) && b.start[r.from] == first && SectEnd(b, r.to) <= last
              && (SectEnd(b, r.to) == last || r.to == |b.start| - 1) && next == SectEnd(b, r.to) + 1
    ensures rcode == 0 && r.from < 0 ==> r == Range(-1, -1) && next == first && first !in b.start
    ensures rcode == 0 ==> next == Rest(b, first, last)
  {
    r := ScanBank(b, first, last);
    rcode, next := 0, first;
    var bEnd, sEnd := BankEnd(b), |b.start| - 1;
    if r.from >= 0 {
      SectorsRise(b, r.from, sEnd);
      if r.to < 0 {
        if last > bEnd {
          r := r.(to := sEnd);
        } else {
          return 1, r, next;
        }
      } else if r.to < r.from {
        SectorsRise(b, r.to, r.from);
        SectorsRise(b, r.from, r.from);
      }
      if r.to < r.from {
        return 1, r, next;
      }
      next := if r.to == sEnd then bEnd + 1 else b.start[r.to + 1];
    } else if first >= b.start[0] && first < bEnd {
      return 1, r, next;
    } else if r.to >= 0 {
      return 1, r, next;
    }
  }

  lemma {:induction false} SameBefore(banks: seq<Bank>, p: seq<Range>, q: seq<Range>, n: nat, first: int, last: int)
    requires n <= |banks| && n <= |p| && n <= |q| && p[..n] == q[..n] && Chained(banks, p, n, first, last)
    ensures Chained(banks, q, n, first, last)
    ensures NextAddr(banks, q, n, first) == NextAddr(banks, p, n, first) && Count(q, n) == Count(p, n)
    ensures Exhausted(banks, p, n, first, last) ==> Exhausted(banks, q, n, first, last)
    decreases n
  {
    if n > 0 {
      assert p[..n][..n - 1] == p[..n - 1] && q[..n][..n - 1] == q[..n - 1] && p[n - 1] == q[n - 1];
      SameBefore(banks, p, q, n - 1, first, last);
    }
  }

  function Unset(n: nat): seq<Range> {
    seq(n, i => Range(-1, -1))
  }

  lemma NothingChained(banks: seq<Bank>, n: nat, first: int, last: int)
    ensures Chained(banks, Unset(n), 0, first, last) && Exhausted(banks, Unset(n), 0, first, last)
    ensures NextAddr(banks, Unset(n), 0, first) == first && Count(Unset(n), 0) == 0
  {
  }

  // One more bank, with the range r
  lemma ChainGrows(banks: seq<Bank>, was: seq<Range>, r: Range, n: nat, first: int, last: int, next: int)
    requires n < |banks| == |was| && Chained(banks, was, n, first, last)
    requires r.from >= 0 ==>
               && banks[n].known && RangeOk(banks[n], r) && banks[n].start[r.from] == NextAddr(banks, was, n, first)
               && SectEnd(banks[n], r.to) <= last && next == SectEnd(banks[n], r.to) + 1
    requires r.from < 0 ==> next == NextAddr(banks, was, n, first)
    requires Exhausted(banks, was, n, first, last)
    requires banks[n].known ==>
               if r.from < 0 then next !in banks[n].start
               else SectEnd(banks[n], r.to) == last || r.to == |banks[n].start| - 1
    ensures var now := was[n := r];
            && Chained(banks, now, n + 1, first, last) && NextAddr(banks, now, n + 1, first) == next
            && Exhausted(banks, now, n + 1, first, last)
            && Count(now, n + 1) == Count(was, n) + if r.from >= 0 then r.to - r.from + 1 else 0
  {
    var now := was[n := r];
    assert now[..n] == was[..n];
    SameBefore(banks, was, now, n, first, last);
    forall i | 0 <= i < n + 1 && now[i].from >= 0
      ensures banks[i].start[now[i].from] == NextAddr(banks, now, i, first)
    {
      if i == n {
      } else {
        assert banks[i].start[now[i].from] == NextAddr(banks, now, i, first);
      }
    }
  }

  // Banks that were not looked at select nothing.
  lemma {:induction false} Unselected(banks: seq<Bank>, ranges: seq<Range>, n: nat, first: int, last: int)
    requires n <= |banks| == |ranges| && Chained(banks, ranges, n, first, last)
    requires forall i | n <= i < |banks| :: ranges[i] == Range(-1, -1)
    requires Exhausted(banks, ranges, n, first, last) && (n < |banks| ==> NextAddr(banks, ranges, n, first) > last)
    ensures Chained(banks, ranges, |banks|, first, last) && Count(ranges, |banks|) == Count(ranges, n)
    ensures Exhausted(banks, ranges, |banks|, first, last)
    decreases |banks| - n
  {
    if n < |banks| {
      Unselected(banks, ranges, n + 1, first, last);
    }
  }

  // ---- a range over two banks

  // The second bank begins where the first ends; a range from the start of a sector of the one to the end of a sector
  // of the other, told from the start addresses and the sizes alone
  predicate TwoBanks(banks: seq<Bank>, s: nat, e: nat, last: int) {
    && |banks| == 2 && banks[0].known && banks[1].known && AllOk(banks)
    && s < |banks[0].start| && e < |banks[1].start| && banks[1].start[0] == banks[0].start[0] + banks[0].size
    && last == if e + 1 == |banks[1].start| then banks[1].start[0] + banks[1].size - 1 else banks[1].start[e + 1] - 1
  }

  lemma BothAccept(banks: seq<Bank>, s: nat, e: nat, last: int)
    requires TwoBanks(banks, s, e, last)
    ensures Accepted(banks, banks[0].start[s], last)
  {
    var b, c := banks[0], banks[1];
    assert banks[1..][0] == c && banks[1..][1..] == [];
    SectorsRise(c, e, e);
    SectorsRise(c, 0, e);
    forall i | 0 <= i < |b.start|
      ensures SectEnd(b, i) != last
    {
      SectorsRise(b, i, |b.start| - 1);
    }
    SectorsRise(b, s, |b.start| - 1);
    assert b.start[s] in b.start && c.start[0] in c.start && SectEnd(c, e) == last;
    assert Accepts(b, b.start[s], last) && Rest(b, b.start[s], last) == c.start[0];
    assert Accepted(banks[1..], c.start[0], last);
  }

  lemma FirstSelected(b: Bank, r: Range, s: nat, last: int)
    requires BankOk(b) && s < |b.start| && Filled(b, r, last) && b.start[r.from] == b.start[s] && BankEnd(b) < last
    ensures r == Range(s, |b.start| - 1)
  {
    SectorsRise(b, r.to, |b.start| - 1);
    SameStart(b, r.from, s);
  }

  lemma SecondSelected(c: Bank, r: Range, e: nat, last: int)
    requires BankOk(c) && e < |c.start| && last == SectEnd(c, e)
    requires Filled(c, r, last) && SectEnd(c, r.to) <= last && c.start[r.from] == c.start[0]
    ensures r == Range(0, e)
  {
    SameStart(c, r.from, 0);
    SectorsRise(c, e, |c.start| - 1);
    SameEnd(c, r.to, e);
  }

  lemma BothSelected(banks: seq<Bank>, s: nat, e: nat, last: int, ranges: seq<Range>)
    requires TwoBanks(banks, s, e, last) && |ranges| == 2
    requires Chained(banks, ranges, 2, banks[0].start[s], last) && Exhausted(banks, ranges, 2, banks[0].start[s], last)
    ensures ranges == [Range(s, |banks[0].start| - 1), Range(0, e)]
  {
    var b, c, first := banks[0], banks[1], banks[0].start[s];
    SectorsRise(b, s, |b.start| - 1);
    SectorsRise(c, 0, e);
    assert NextAddr(banks, ranges, 0, first) == first && first in b.start;
    FirstSelected(b, ranges[0], s, last);
    assert NextAddr(banks, ranges, 1, first) == c.start[0] && c.start[0] in c.start;
    SecondSelected(c, ranges[1], e, last);
  }

  // Such a range is accepted, and is the sectors in between.
  method OverTwoBanks(banks: seq<Bank>, s: nat, e: nat, last: int, ranges: array<Range>)
      returns (rcode: int, count: int)
    requires TwoBanks(banks, s, e, last) && ranges.Length == 2
    modifies ranges
    ensures rcode == 0 && count == |banks[0].start| - s + (e + 1)
    ensures ranges[..] == [Range(s, |banks[0].start| - 1), Range(0, e)]
  {
    hide Chained, Exhausted, Accepted;
    BothAccept(banks, s, e, last);
    rcode, count := FillSectRanges(banks, banks[0].start[s], last, ranges);
    BothSelected(banks, s, e, last, ranges[..]);
    assert Count(ranges[..], 1) == |banks[0].start| - s;
  }

  // ---- the "+length" form of a range

  predicate InSector(b: Bank, i: int, addr: int)
    requires 0 <= i < |b.start|
  {
    b.start[i] <= addr <= SectEnd(b, i)
  }

  predicate InBank(b: Bank, addr: int) {
    exists i :: 0 <= i < |b.start| && InSector(b, i, addr)
  }

  // Where the sector that holds addr ends, in the first bank that has one
  ghost predicate RoundsTo(banks: seq<Bank>, addr: int, n: int, end: int)
    requires 0 <= n < |banks|
  {
    && (forall m | 0 <= m < n :: !InBank(banks[m], addr))
    && exists i :: 0 <= i < |banks[n].start| && InSector(banks[n], i, addr) && end == SectEnd(banks[n], i)
  }

  // flash_sect_roundb
  method SectRoundB(banks: seq<Bank>, addr: int) returns (rcode: int, rounded: int, ghost n: int)
    ensures rcode == 0 || rcode == 1
    ensures rcode == 1 ==> rounded == addr && forall m | 0 <= m < |banks| :: !InBank(banks[m], addr)
    ensures rcode == 0 ==> 0 <= n < |banks| && RoundsTo(banks, addr, n, rounded) && addr <= rounded
  {
    rounded, n := addr, 0;
    var found, bank := false, 0;
    while bank < |banks| && !found
      invariant 0 <= bank <= |banks|
      invariant !found ==> rounded == addr && forall m | 0 <= m < bank :: !InBank(banks[m], addr)
      invariant found ==> 0 <= n < |banks| && RoundsTo(banks, addr, n, rounded) && addr <= rounded
    {
      var b := banks[bank];
      var i := 0;
      while i < |b.start| && !found
        invariant 0 <= i <= |b.start|
        invariant !found ==> rounded == addr && forall j | 0 <= j < i :: !InSector(b, j, addr)
        invariant found ==> n == bank && RoundsTo(banks, addr, n, rounded) && addr <= rounded
      {
        var end := SectEnd(b, i);
        if addr <= end && addr >= b.start[i] {
          assert InSector(b, i, addr);
          found, n := true, bank;
          if addr < end {
            rounded := end;
          }
        }
        i := i + 1;
      }
      bank := bank + 1;
    }
    rcode := if found then 0 else 1;
  }

  // addr_spec for "start +length", once the numbers are read; -1 for an end that is not in flash
  method PlusLength(banks: seq<Bank>, first: int, length: int) returns (rcode: int, last: int, ghost n: int)
    ensures rcode == 1 || rcode == -1
    ensures rcode == -1 <==> forall m | 0 <= m < |banks| :: !InBank(banks[m], first + length - 1)
    ensures rcode == 1 ==> 0 <= n < |banks| && RoundsTo(banks, first + length - 1, n, last)
  {
    var failed;
    failed, last, n := SectRoundB(banks, first + length - 1);
    rcode := if failed > 0 then -1 else 1;
  }

  // A range from the start of a sector whose end was rounded up in the same bank is always accepted, and covers just
  // the sectors from that one to the one that holds the end.
  method RoundedRange(banks: seq<Bank>, n: nat, s: nat, length: int, last: int) returns (r: Range)
    requires n < |banks| && BankOk(banks[n]) && s < |banks[n].start| && length >= 1
    requires RoundsTo(banks, banks[n].start[s] + length - 1, n, last)
    ensures RangeOk(banks[n], r) && r.from == s
    ensures InSector(banks[n], r.to, banks[n].start[s] + length - 1)
  {
    var b, first := banks[n], banks[n].start[s];
    ghost var i :| 0 <= i < |b.start| && InSector(b, i, first + length - 1) && last == SectEnd(b, i);
    if i < s {
      SectorsRise(b, i, s);
      assert false;
    }
    SectorsRise(b, s, i);
    var rcode, next;
    rcode, r, next := OneBank(b, first, last);
    assert first in b.start;
    SameEnd(b, i, r.to);
    SameStart(b, s, r.from);
  }

  lemma SameEnd(b: Bank, i: int, j: int)
    requires BankOk(b) && 0 <= i < |b.start| && 0 <= j < |b.start| && SectEnd(b, i) == SectEnd(b, j)
    ensures i == j
  {
    if i < j {
      SectorsRise(b, i, j);
      SectorsRise(b, j, j);
    } else if j < i {
      SectorsRise(b, j, i);
      SectorsRise(b, i, i);
    }
  }

  lemma SameStart(b: Bank, i: int, j: int)
    requires BankOk(b) && 0 <= i < |b.start| && 0 <= j < |b.start| && b.start[i] == b.start[j]
    ensures i == j
  {
  }

  // What flash_erase was called with, in turn
  function Erasures(ranges: seq<Range>, n: nat): seq<(nat, Range)>
    requires n <= |ranges|
  {
    if n == 0 then []
    else Erasures(ranges, n - 1) + if ranges[n - 1].from >= 0 then [(n - 1, ranges[n - 1])] else []
  }

  // Every flash_erase returned zero; `result` is what it returns for a bank.
  predicate NoneFails(erased: seq<(nat, Range)>, result: nat -> int) {
    forall i | 0 <= i < |erased| :: result(erased[i].0) == 0
  }

  // flash_sect_erase; `chosen` is what the ranges were computed to be.
  method SectErase(banks: seq<Bank>, first: int, last: int, result: nat -> int)
      returns (rcode: int, erased: seq<(nat, Range)>, ghost chosen: seq<Range>)
    requires AllOk(banks)
    ensures |chosen| == |banks|
    ensures !Accepted(banks, first, last) ==> rcode == 1 && erased == []
    ensures Accepted(banks, first, last) ==>
              && Chained(banks, chosen, |banks|, first, last) && Exhausted(banks, chosen, |banks|, first, last)
              && erased <= Erasures(chosen, |banks|)
              && (rcode == 0 <==> Count(chosen, |banks|) != 0 && NoneFails(Erasures(chosen, |banks|), result))
              && (rcode == 0 ==> erased == Erasures(chosen, |banks|))
    ensures erased != [] ==>
              NoneFails(erased[..|erased| - 1], result) && rcode == result(erased[|erased| - 1].0)
    ensures erased == [] && rcode != 0 ==> rcode == 1
  {
    hide Chained, Accepted, Count, Exhausted;
    var ranges := new Range[|banks|];
    var planned: int;
    rcode, planned := FillSectRanges(banks, first, last, ranges);
    erased, chosen := [], ranges[..];
    NoErasures(chosen, |banks|);
    if planned != 0 && rcode == 0 {
      var bank := 0;
      while bank < |banks| && rcode == 0
        invariant 0 <= bank <= |banks| && ranges[..] == chosen
        invariant erased == Erasures(chosen, bank)
        invariant erased == [] ==> rcode == 0
        invariant erased != [] ==>
                    NoneFails(erased[..|erased| - 1], result) && rcode == result(erased[|erased| - 1].0)
      {
        ghost var done := erased;
        if ranges[bank].from >= 0 {
          erased := erased + [(bank, ranges[bank])];
          assert erased[..|erased| - 1] == done;
          rcode := result(bank);
        }
        bank := bank + 1;
      }
      ErasuresGrow(chosen, bank, |banks|);
      if rcode != 0 {
        assert Erasures(chosen, |banks|)[|erased| - 1] == erased[|erased| - 1];
      }
    } else if rcode == 0 {
      rcode := 1;
    }
  }

  lemma NoErasures(ranges: seq<Range>, n: nat)
    requires n <= |ranges|
    ensures [] <= Erasures(ranges, n)
  {
  }

  lemma {:induction false} ErasuresGrow(ranges: seq<Range>, m: nat, n: nat)
    requires m <= n <= |ranges|
    ensures Erasures(ranges, m) <= Erasures(ranges, n)
    decreases n
  {
    if m < n {
      ErasuresGrow(ranges, m, n - 1);
    }
  }
}
