/** JSON values of value.c, and the characters of the grammar. */
module JsonValue {
  import opened Utf8

  /** Undefined is the null pointer that stands for "no value". A number is kept as its lexeme. */
  datatype Value =
    | Undefined
    | Null
    | Bool(b: bool)
    | Number(lexeme: Bytes)
    | String(s: Bytes)
    | Array(elements: seq<Value>)
    | Object(members: map<Bytes, Value>)

  const LBRACKET: byte := 0x5B
  const RBRACKET: byte := 0x5D
  const LBRACE: byte := 0x7B
  const RBRACE: byte := 0x7D
  const COMMA: byte := 0x2C
  const MINUS: byte := 0x2D
  const PLUS: byte := 0x2B
  const DOT: byte := 0x2E
  const ZERO: byte := 0x30
  const NEWLINE: byte := 0x0A

  const NULL_TEXT: Bytes := [0x6E, 0x75, 0x6C, 0x6C]
  const TRUE_TEXT: Bytes := [0x74, 0x72, 0x75, 0x65]
  const FALSE_TEXT: Bytes := [0x66, 0x61, 0x6C, 0x73, 0x65]

  predicate IsDigit(c: byte) {
    0x30 <= c <= 0x39
  }

  predicate IsSpace(c: byte) {
    c == SPACE || c == NEWLINE || c == 0x0D || c == 0x09
  }
}
