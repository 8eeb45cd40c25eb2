/** Bytes as numbers, and the characters the text formats here name. */
module Bytes {
  type Byte = n: nat | n < 256

  const NEWLINE: Byte := 10
  const RETURN: Byte := 13
  const QUOTE: Byte := 34
  const APOSTROPHE: Byte := 39
  const PLUS: Byte := 43
  const COMMA: Byte := 44
  const EQUALS: Byte := 61
  const OPEN_BRACKET: Byte := 91
  const BACKSLASH: Byte := 92
  const CLOSE_BRACKET: Byte := 93

  predicate Ascii(text: seq<Byte>) {
    forall i :: 0 <= i < |text| ==> text[i] < 128
  }
}
