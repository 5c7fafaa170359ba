// Decimal integers: how they are written and how sscanf("%lld") reads them back.

module Numbers {
  import opened Options
  import opened Chars
  import opened JsonValue

  predicate AllDigits(s: Text) {
    forall i | 0 <= i < |s| :: IsDigit(s[i])
  }

  function DigitValue(c: char): nat
    requires IsDigit(c)
  {
    c as int - '0' as int
  }

  function NatOf(s: Text): nat
    requires AllDigits(s)
  {
    if s == [] then 0 else NatOf(s[..|s| - 1]) * 10 + DigitValue(s[|s| - 1])
  }

  // The longest run of digits at the front of s
  function DigitRun(s: Text): (r: Text)
    ensures AllDigits(r) && r <= s
    ensures |r| < |s| ==> !IsDigit(s[|r|])
  {
    if s == [] || !IsDigit(s[0]) then [] else [s[0]] + DigitRun(s[1..])
  }

  // A conforming sscanf(buf, "%lld"): an optional sign and at least one digit; what follows is
  // ignored, and a value out of range comes back as the nearest bound.
  function ScanInt64(s: Text): Option<int> {
    var signed := s != [] && (s[0] == '-' || s[0] == '+');
    var run := DigitRun(if signed then s[1..] else s);
    if run == [] then None
    else
      var n: int := NatOf(run);
      Some(Saturate(if signed && s[0] == '-' then -n else n))
  }
}
