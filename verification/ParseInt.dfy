// json_parse_int64: reading an integer with an sscanf that may not report overflow.

module ParseInt {
  import opened Options
  import opened Chars
  import opened JsonValue
  import opened Numbers
  import opened Printer
  import opened NumberForms
  import opened RoundTrip

  // What sscanf("%lld") leaves behind: whether it read a number, which, and whether errno is ERANGE
  datatype Scan = Scan(ok: bool, num: int, erange: bool)

  // sscanf as it should be
  predicate Conforms(scan: Scan, s: Text) {
    var n := ScanInt64(s);
    scan.ok == n.Some? && (n.Some? ==> scan.num == n.value && scan.erange == !InRange(s))
  }

  // The number at the front of s, without saturation
  function Written(s: Text): int {
    var signed := s != [] && (s[0] == '-' || s[0] == '+');
    var n := NatOf(DigitRun(if signed then s[1..] else s));
    if signed && s[0] == '-' then 0 - n else n
  }

  predicate InRange(s: Text) {
    INT64_MIN <= Written(s) <= INT64_MAX
  }

  function SkipSpaces(s: Text): Text {
    if s != [] && IsSpace(s[0]) then SkipSpaces(s[1..]) else s
  }

  // -?[0-9]+
  predicate IsInteger(s: Text) {
    var d := if s != [] && s[0] == '-' then s[1..] else s;
    d != [] && AllDigits(d)
  }

  // Without leading zeros, but with one digit at least
  function Significant(d: Text): Text {
    if |d| > 1 && d[0] == '0' then Significant(d[1..]) else d
  }

  // The printed number `cmp` is the whole run of digits that sig starts with.
  predicate SameDigits(sig: Text, cmp: Text) {
    cmp <= sig && !(|sig| != |cmp| && IsDigit(sig[|cmp|]))
  }

  lemma {:induction false} SignificantIsNat(d: Text)
    requires d != [] && AllDigits(d)
    ensures var z := Significant(d);
            z != [] && AllDigits(z) && NatOf(z) == NatOf(d) && (z[0] == '0' ==> |z| == 1)
  {
    if |d| > 1 && d[0] == '0' {
      SignificantIsNat(d[1..]);
      LeadingZeroIsNothing(d[1..]);
      assert ['0'] + d[1..] == d;
    }
  }

  lemma {:induction false} LeadingZeroIsNothing(d: Text)
    requires AllDigits(d)
    ensures AllDigits(['0'] + d) && NatOf(['0'] + d) == NatOf(d)
  {
    var z := ['0'] + d;
    if d == [] {
      assert z[..0] == [] && NatOf([]) == 0;
    } else {
      LeadingZeroIsNothing(d[..|d| - 1]);
      assert z[..|z| - 1] == ['0'] + d[..|d| - 1];
    }
  }

  // A number is printed with just the digits it was written with, leading zeros aside.
  lemma {:induction false} NatIsDecimal(z: Text)
    requires z != [] && AllDigits(z) && (z[0] == '0' ==> |z| == 1)
    ensures Decimal(NatOf(z)) == z
  {
    var n := |z| - 1;
    var last := DigitValue(z[n]);
    if n == 0 {
      assert z[..0] == [] && NatOf([]) == 0;
    } else {
      NatIsDecimal(z[..n]);
      NatIsPositive(z[..n]);
      assert NatOf(z) / 10 == NatOf(z[..n]) && NatOf(z) % 10 == last;
    }
  }

  lemma {:induction false} NatIsPositive(z: Text)
    requires z != [] && AllDigits(z) && z[0] != '0'
    ensures NatOf(z) > 0
  {
    if |z| > 1 {
      NatIsPositive(z[..|z| - 1]);
    } else {
      assert z[..0] == [];
    }
  }

  lemma DigitsAgree(z: Text, n: nat)
    requires z != [] && AllDigits(z) && (z[0] == '0' ==> |z| == 1)
    ensures SameDigits(z, Decimal(n)) <==> NatOf(z) == n
  {
    NatIsDecimal(z);
    DecimalIsNat(n);
    hide Decimal, NatOf;
    if SameDigits(z, Decimal(n)) {
      assert z == Decimal(n);
    }
  }

  function Bound(negative: bool): int {
    if negative then INT64_MIN else INT64_MAX
  }

  // json_parse_int64.  `broken` is the verdict of sscanf_is_broken_test.
  method ParseInt64(buf: Text, scan: Text -> Scan, broken: bool) returns (r: Option<int>)
    requires forall s :: INT64_MIN <= scan(s).num <= INT64_MAX
    ensures r.Some? <==> scan(SkipSpaces(buf)).ok
    ensures var s := SkipSpaces(buf);
            scan(s).ok && !(broken && !scan(s).erange) ==>
              r == Some(if scan(s).erange then Bound(s != [] && s[0] == '-') else scan(s).num)
    ensures var s := SkipSpaces(buf);
            scan(s).ok && broken && !scan(s).erange && IsInteger(s) ==>
              r == Some(if scan(s).num == Written(s) then scan(s).num else Bound(s[0] == '-' && scan(s).num != 0))
  {
    hide SkipSpaces, Significant, Decimal, IsInteger, Written, SameDigits, PrintInt;
    var s := buf;
    while s != [] && IsSpace(s[0])
      invariant SkipSpaces(s) == SkipSpaces(buf)
      decreases |s|
    {
      SkipOne(s);
      s := s[1..];
    }
    SkipNone(s);
    var found := scan(s);
    if !found.ok {
      return None;
    }
    var num, erange := found.num, found.erange;
    var negative := s != [] && s[0] == '-';
    if broken && !erange {
      var sig := if negative then s[1..] else s;
      ghost var d := sig;
      while |sig| > 1 && sig[0] == '0'
        invariant Significant(sig) == Significant(d)
        decreases |sig|
      {
        StripOne(sig);
        sig := sig[1..];
      }
      StripNone(sig);
      if num == 0 {
        negative := false;
      }
      var cmp := PrintInt(num);
      var negativeAgain := cmp != [] && cmp[0] == '-';
      if negativeAgain {
        cmp := cmp[1..];
      }
      Rechecked(s, d, num);
      if negative != negativeAgain || !SameDigits(sig, cmp) {
        erange := true;
      }
    }
    if erange {
      num := if negative then INT64_MIN else INT64_MAX;
    }
    return Some(num);
  }

  lemma SkipOne(s: Text)
    requires s != [] && IsSpace(s[0])
    ensures SkipSpaces(s) == SkipSpaces(s[1..])
  {
  }

  lemma SkipNone(s: Text)
    requires s == [] || !IsSpace(s[0])
    ensures SkipSpaces(s) == s
  {
  }

  lemma StripOne(s: Text)
    requires |s| > 1 && s[0] == '0'
    ensures Significant(s) == Significant(s[1..])
  {
  }

  lemma StripNone(s: Text)
    requires !(|s| > 1 && s[0] == '0')
    ensures Significant(s) == s
  {
  }

  lemma PrintIs(num: int)
    ensures PrintInt(num) == (if num < 0 then ['-'] else []) + Decimal(if num < 0 then 0 - num else num)
    ensures var d := Decimal(if num < 0 then 0 - num else num); d != [] && d[0] != '-'
  {
    DecimalIsNat(if num < 0 then 0 - num else num);
    hide Decimal;
  }

  // What the recheck finds out: whether num is the number that was written
  lemma Rechecked(s: Text, d: Text, num: int)
    requires d == if s != [] && s[0] == '-' then s[1..] else s
    ensures var cmp := PrintInt(num);
            var again := cmp != [] && cmp[0] == '-';
            && again == (num < 0)
            && (IsInteger(s) ==>
                  s != [] &&
                  (num == Written(s) <==>
                     && (s[0] == '-' && num != 0) == again
                     && SameDigits(Significant(d), if again then cmp[1..] else cmp)))
  {
    PrintIs(num);
    var m := if num < 0 then 0 - num else num;
    assert num < 0 ==> PrintInt(num)[1..] == Decimal(m);
    assert num >= 0 ==> PrintInt(num) == Decimal(m);
    if IsInteger(s) {
      SignificantIsNat(d);
      DigitsAgree(Significant(d), m);
      WrittenIs(s, d);
      hide Significant, Decimal, NatOf, Written, SameDigits, PrintInt, IsInteger;
    }
  }

  lemma WrittenIs(s: Text, d: Text)
    requires IsInteger(s) && d == if s[0] == '-' then s[1..] else s
    ensures AllDigits(d) && Written(s) == if s[0] == '-' then 0 - NatOf(d) else NatOf(d)
  {
    DigitRunOfDigits(d);
    hide NatOf, DigitRun;
    assert s[0] != '-' ==> IsDigit(s[0]);
  }

  // With a conforming sscanf the result is the number written, saturated: what the tokener uses.
  lemma ConformingIsSaturated(s: Text, scan: Scan)
    requires Conforms(scan, s)
    ensures (if !scan.ok then None
             else Some(if scan.erange then Bound(s != [] && s[0] == '-') else scan.num)) == ScanInt64(s)
  {
    hide NatOf, DigitRun;
    assert ScanInt64(s).Some? ==> ScanInt64(s).value == Saturate(Written(s));
  }

  lemma PlusIsNothing(d: Text)
    requires d != [] && AllDigits(d)
    ensures ScanInt64(['+'] + d) == ScanInt64(d) == Some(Saturate(NatOf(d)))
  {
    DigitRunOfDigits(d);
    assert (['+'] + d)[1..] == d && IsDigit(d[0]);
    hide NatOf, DigitRun, Saturate;
  }

  // An optional minus and digits, leading zeros among them, with a conforming sscanf, trusted or not: the number if it
  // is within 64 bits, and the nearest bound if it is not.
  method ParseWritten(minus: bool, d: Text, scan: Text -> Scan, broken: bool) returns (r: Option<int>)
    requires forall s :: -9223372036854775808 <= scan(s).num <= 9223372036854775807
    requires d != [] && AllDigits(d)
    requires var n: int := if minus then 0 - NatOf(d) else NatOf(d);
             scan((if minus then ['-'] else []) + d) ==
             if n > 9223372036854775807 then Scan(true, 9223372036854775807, true)
             else if n < -9223372036854775808 then Scan(true, -9223372036854775808, true)
             else Scan(true, n, false)
    ensures var n: int := if minus then 0 - NatOf(d) else NatOf(d);
            r == Some(if n > 9223372036854775807 then 9223372036854775807
                      else if n < -9223372036854775808 then -9223372036854775808
                      else n)
  {
    var s := (if minus then ['-'] else []) + d;
    assert IsDigit(d[0]);
    assert (if s[0] == '-' then s[1..] else s) == d;
    WrittenIs(s, d);
    SkipNone(s);
    hide NatOf, SkipSpaces, Written;
    r := ParseInt64(s, scan, broken);
  }
}
