// Characters and C strings.
//
// A C `char` is a Dafny `char` and a buffer is a `string`; '\0' is the terminator.
// Nothing below needs the codes to stay under 256, so the results hold for every byte string.

module Options {
  datatype Option<+T> = None | Some(value: T)
}

module Chars {
  import opened Arith

  type Text = string

  // isspace() in the "C" locale
  predicate IsSpace(c: char) {
    c == ' ' || '\t' <= c <= '\r'
  }

  predicate IsDigit(c: char) {
    '0' <= c <= '9'
  }

  // strchr(json_number_chars, c), for c other than the terminator
  predicate IsNumberChar(c: char) {
    IsDigit(c) || c == '.' || c == '+' || c == '-' || c == 'e' || c == 'E'
  }

  predicate IsHexDigit(c: char) {
    IsDigit(c) || 'a' <= c <= 'f' || 'A' <= c <= 'F'
  }

  function Fold(c: char): char {
    if 'A' <= c <= 'Z' then (c as int + 32) as char else c
  }

  // One position of strncmp (exact) or of strncasecmp
  predicate SameChar(exact: bool, a: char, b: char) {
    if exact then a == b else Fold(a) == Fold(b)
  }

  // How many characters of s agree with the front of word
  function Common(exact: bool, word: Text, s: Text): (n: nat)
    ensures n <= |word| && n <= |s|
  {
    if word == [] || s == [] || !SameChar(exact, word[0], s[0]) then 0
    else 1 + Common(exact, word[1..], s[1..])
  }

  // strn(case)cmp(word, buf, n) == 0 for n <= strlen(word)
  predicate Agrees(exact: bool, word: Text, buf: Text, n: nat) {
    Common(exact, word, buf) >= n
  }

  lemma {:induction false} CommonIsSame(exact: bool, word: Text, s: Text, i: nat)
    requires i < Common(exact, word, s)
    ensures SameChar(exact, word[i], s[i])
  {
    if i > 0 {
      CommonIsSame(exact, word[1..], s[1..], i - 1);
    }
  }

  lemma {:induction false} CommonOfPrefix(exact: bool, word: Text, s: Text, k: nat)
    requires k <= |s|
    ensures Common(exact, word, s[..k]) == Min(Common(exact, word, s), k)
  {
    if word != [] && k > 0 {
      CommonOfPrefix(exact, word[1..], s[1..], k - 1);
      assert s[..k][1..] == s[1..][..k - 1];
    }
  }

  // What a C function sees of a buffer: everything before the first terminator
  function CString(s: Text): Text {
    if s == [] || s[0] == '\0' then [] else [s[0]] + CString(s[1..])
  }

  lemma {:induction false} CStringIsIdentity(s: Text)
    requires '\0' !in s
    ensures CString(s) == s
  {
    if s != [] {
      CStringIsIdentity(s[1..]);
    }
  }

}
