/** Fixed-width unsigned integers and their most-significant-byte-first layout.
    The program's shifts and masks `(v >> 8k) & 0xFF` are written as `v / 256^k % 256`, and its
    shift-and-or reads as sums of products. */
module Bytes {
  type byte = x: int | 0 <= x < 0x100
  type u16 = x: int | 0 <= x < 0x1_0000
  type u32 = x: int | 0 <= x < 0x1_0000_0000
  type u64 = x: int | 0 <= x < 0x1_0000_0000_0000_0000

  const TWO_32 := 0x1_0000_0000
  const TWO_64 := 0x1_0000_0000_0000_0000

  function Be16(v: u16): seq<byte> {
    [v / 0x100, v % 0x100]
  }

  function Be32(v: u32): seq<byte> {
    Be16(v / 0x1_0000) + Be16(v % 0x1_0000)
  }

  function FromBe16(b: seq<byte>): u16
    requires |b| == 2
  {
    var high: int, low: int := b[0], b[1];
    high * 0x100 + low
  }

  function FromBe32(b: seq<byte>): u32
    requires |b| == 4
  {
    var high: int, low: int := FromBe16(b[..2]), FromBe16(b[2..]);
    high * 0x1_0000 + low
  }

  lemma Be16Inverse(v: u16)
    ensures FromBe16(Be16(v)) == v
  {
  }

  lemma Be32Inverse(v: u32)
    ensures |Be32(v)| == 4 && FromBe32(Be32(v)) == v
  {
    assert Be32(v)[..2] == Be16(v / 0x1_0000) && Be32(v)[2..] == Be16(v % 0x1_0000);
  }

  lemma FromBe32Inverse(b: seq<byte>)
    requires |b| == 4
    ensures Be32(FromBe32(b)) == b
  {
    FromBe16Inverse(b[..2]);
    FromBe16Inverse(b[2..]);
  }

  lemma FromBe16Inverse(b: seq<byte>)
    requires |b| == 2
    ensures Be16(FromBe16(b)) == b
  {
  }
}
