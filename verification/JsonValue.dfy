// The values a tree of json_object nodes stands for.

module JsonValue {
  import opened Chars
  import opened OrderedMap

  datatype Value =
    | JNull                                  // the NULL pointer
    | JBool(b: bool)
    | JInt(n: int)
    | JDouble(source: Text)                  // json_object_new_double_s keeps the source text
    | JInfinity(negative: bool)
    | JNaN
    | JString(s: Text)
    | JArray(elements: seq<Value>)
    | JObject(members: Entries<Text, Value>)

  const INT64_MAX: int := 0x7FFF_FFFF_FFFF_FFFF
  const INT64_MIN: int := -0x8000_0000_0000_0000

  // The nearest number that 64 bits hold
  function Saturate(n: int): (r: int)
    ensures -9223372036854775808 <= n <= 9223372036854775807 ==> r == n
    ensures n > 9223372036854775807 ==> r == 9223372036854775807
    ensures n < -9223372036854775808 ==> r == -9223372036854775808
  {
    if n < INT64_MIN then INT64_MIN else if n > INT64_MAX then INT64_MAX else n
  }
}
