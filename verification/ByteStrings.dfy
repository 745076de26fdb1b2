/** Bytes and byte strings. */
module ByteStrings {
  type Byte = x: nat | x < 256
  type Bytes = seq<Byte>

  /** The bytes with data written over them from a position on. */
  function Patched(s: Bytes, at: nat, data: Bytes): (r: Bytes)
    requires at + |data| <= |s|
    ensures |r| == |s|
  {
    s[..at] + data + s[at + |data|..]
  }

  /** The k-th byte of a number, from the lowest. */
  function Digit(v: nat, k: nat): Byte {
    if k == 0 then v % 256 else Digit(v / 256, k - 1)
  }

  lemma TwoDigits(v: nat)
    requires v < 0x1_0000
    ensures v == Digit(v, 0) + 0x100 * (Digit(v, 1) as nat)
  {
    assert Digit(v, 1) == Digit(v / 256, 0) == v / 256;
  }

  lemma FourDigits(v: nat)
    requires v < 0x1_0000_0000
    ensures v == Digit(v, 0) + 0x100 * (Digit(v, 1) as nat) + 0x1_0000 * (Digit(v, 2) as nat) + 0x100_0000 * (Digit(v, 3) as nat)
  {
    var high := v / 256 / 256;
    TwoDigits(high);
    assert Digit(v, 2) == Digit(v / 256, 1) == Digit(high, 0);
    assert Digit(v, 3) == Digit(v / 256, 2) == Digit(high, 1);
    assert Digit(v, 1) == Digit(v / 256, 0) == v / 256 % 256;
  }
}
