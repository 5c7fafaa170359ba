// The code-point arithmetic of \u escapes.  Masks and shifts of unsigned values are written as
// % and / by powers of two.

module Unicode {
  import opened Chars

  const REPLACEMENT: Text := [0xEF as char, 0xBF as char, 0xBD as char]

  // (uc & 0xFC00) == 0xD800: looks at the low 16 bits only
  predicate IsHighSurrogate(uc: nat) {
    uc % 0x10000 / 0x400 == 0x36
  }

  // (uc & 0xFC00) == 0xDC00
  predicate IsLowSurrogate(uc: nat) {
    uc % 0x10000 / 0x400 == 0x37
  }

  function DecodePair(hi: nat, lo: nat): nat {
    hi % 0x400 * 0x400 + lo % 0x400 + 0x10000
  }

  // The hexdigit macro; the terminator also passes the strchr test in front of it
  function HexDigit(c: char): int {
    if c <= '9' then c as int - '0' as int else c as int % 8 + 9
  }

  // 1 << ((3 - st_pos) * 4)
  function Weight(stPos: nat): nat {
    if stPos == 0 then 4096 else if stPos == 1 then 256 else if stPos == 2 then 16 else 1
  }

  // ucs_char += hexdigit(c) << ((3 - st_pos) * 4), in 32-bit unsigned arithmetic
  function AddHexDigit(ucs: nat, c: char, stPos: nat): nat
    requires stPos < 4
  {
    (ucs + HexDigit(c) * Weight(stPos)) % 0x1_0000_0000
  }

  // The bytes the tokener emits for a code that is not taken for a surrogate
  function Utf8(uc: nat): Text {
    if uc < 0x80 then [uc as char]
    else if uc < 0x800 then [(0xC0 + uc / 64) as char, (0x80 + uc % 64) as char]
    else if uc < 0x10000 then
      [(0xE0 + uc / 4096) as char, (0x80 + uc / 64 % 64) as char, (0x80 + uc % 64) as char]
    else if uc < 0x110000 then
      [(0xF0 + uc / 262144 % 8) as char, (0x80 + uc / 4096 % 64) as char,
       (0x80 + uc / 64 % 64) as char, (0x80 + uc % 64) as char]
    else REPLACEMENT
  }
}
