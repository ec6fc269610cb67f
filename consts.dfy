/** DirectInput key values and the few scan codes the client scenarios use. */
module DIK {

  /** Go's `uint8`: a DirectInput scan code, or the value of one key slot. */
  newtype uint8 = x: int | 0 <= x < 256

  /** The value of a key slot while the key is up. */
  const KeyReleased: uint8 := 0x00

  /** The value of a key slot while the key is down. */
  const KeyPressed: uint8 := 0x80

  // Scan codes of the letter keys of the bottom row.
  const Z: uint8 := 0x2C
  const X: uint8 := 0x2D
  const C: uint8 := 0x2E
  const V: uint8 := 0x2F
}
