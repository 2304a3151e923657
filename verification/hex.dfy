/** Hexadecimal digits. */
module Hex {
  import opened Utf8

  predicate IsHex(c: byte) {
    0x30 <= c <= 0x39 || 0x41 <= c <= 0x46 || 0x61 <= c <= 0x66
  }

  /** The value of a digit, in upper or lower case, and 16 for anything else. */
  function Nibble(c: byte): nat {
    if 0x30 <= c <= 0x39 then c - 0x30
    else if 0x41 <= c <= 0x46 then 10 + (c - 0x41)
    else if 0x61 <= c <= 0x66 then 10 + (c - 0x61)
    else 16
  }

  function HexValue(c: byte): (v: nat)
    requires IsHex(c)
    ensures v < 16
  {
    if c <= 0x39 then c - 0x30 else if c <= 0x46 then c - 0x37 else c - 0x57
  }

  function HexDigit(v: nat): (c: byte)
    requires v < 16
    ensures IsHex(c) && HexValue(c) == v
  {
    if v < 10 then 0x30 + v else 0x57 + v
  }

  lemma NibbleIs(c: byte)
    ensures IsHex(c) <==> Nibble(c) < 16
    ensures IsHex(c) ==> HexValue(c) == Nibble(c)
  {
  }

  /** Digits are written in lower case. */
  lemma HexDigitIs(v: nat)
    requires v < 16
    ensures Nibble(HexDigit(v)) == v && !(0x41 <= HexDigit(v) <= 0x46)
  {
  }
}
