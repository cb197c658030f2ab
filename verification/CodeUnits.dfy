/** Texts as JavaScript has them: sequences of UTF-16 code units. Half of a surrogate pair alone is a
    text too. */
module CodeUnits {

  type Unit = x: int | 0 <= x < 0x10000
  type Text = seq<Unit>

  const TAB: Unit := 0x09
  const LF: Unit := 0x0A
  const FORM_FEED: Unit := 0x0C
  const CR: Unit := 0x0D
  const SPACE: Unit := 0x20
  const BANG: Unit := 0x21
  const QUOTE: Unit := 0x22
  const HASH: Unit := 0x23
  const DOLLAR: Unit := 0x24
  const PERCENT: Unit := 0x25
  const AMPERSAND: Unit := 0x26
  const APOSTROPHE: Unit := 0x27
  const LEFT_PAREN: Unit := 0x28
  const RIGHT_PAREN: Unit := 0x29
  const HYPHEN: Unit := 0x2D
  const SLASH: Unit := 0x2F
  const COLON: Unit := 0x3A
  const SEMICOLON: Unit := 0x3B
  const LESS_THAN: Unit := 0x3C
  const EQUALS: Unit := 0x3D
  const GREATER_THAN: Unit := 0x3E
  const LEFT_BRACKET: Unit := 0x5B
  const RIGHT_BRACKET: Unit := 0x5D
  const UNDERSCORE: Unit := 0x5F
  const LEFT_BRACE: Unit := 0x7B
  const RIGHT_BRACE: Unit := 0x7D
  const BYTE_ORDER_MARK: Unit := 0xFEFF

  predicate IsDigit(c: int) { 0x30 <= c <= 0x39 }
  predicate IsUpper(c: int) { 0x41 <= c <= 0x5A }
  predicate IsLower(c: int) { 0x61 <= c <= 0x7A }

  /** The units of a literal, whose characters are all ASCII. */
  function Units(s: string): (t: Text)
    ensures |t| == |s|
  {
    seq(|s|, k requires 0 <= k < |s| => s[k] as int % 0x80)
  }

  /** The digits of a number in decimal. */
  function Decimal(n: nat): (t: Text)
    ensures t != []
  {
    (if n < 10 then [] else Decimal(n / 10)) + [0x30 + n % 10]
  }
}
