/** Characters as the C code sees them once widened to `unsigned char`, and unsigned 32-bit words. */
module Bytes {
  type byte = x: int | 0 <= x < 256

  type u32 = x: int | 0 <= x < 0x1_0000_0000

  const NUL: byte := 0
  const NEWLINE: byte := 10
  const DOLLAR: byte := 36
  const LPAREN: byte := 40
  const RPAREN: byte := 41
  const ASTERISK: byte := 42
  const COMMA: byte := 44
  const MINUS: byte := 45
  const PERIOD: byte := 46
  const DIGIT0: byte := 48
  const DIGIT1: byte := 49
  const DIGIT9: byte := 57
  const LBRACKET: byte := 91
  const BACKSLASH: byte := 92
  const RBRACKET: byte := 93
  const CARET: byte := 94
  const LOWERN: byte := 110
  const LBRACE: byte := 123
  const RBRACE: byte := 125
}
