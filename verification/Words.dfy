/** Fixed-width machine integers and their little-endian byte form. */
module Words {

  type uint8 = x: int | 0 <= x < 0x100
  type uint16 = x: int | 0 <= x < 0x1_0000
  type uint32 = x: int | 0 <= x < 0x1_0000_0000
  type uint64 = x: int | 0 <= x < 0x1_0000_0000_0000_0000

  const U32_MAX: uint32 := 0xFFFF_FFFF

  datatype Option<+T> = None | Some(value: T)

  /** What a C `uint32_t` keeps of an exact result. */
  function Wrap32(x: int): uint32 {
    x % 0x1_0000_0000
  }

  function Wrap64(x: int): uint64 {
    x % 0x1_0000_0000_0000_0000
  }

  /** A `++` on a C `uint32_t`: goes round at the top. */
  function Inc(c: uint32): uint32 {
    Wrap32(c + 1)
  }

  /** A counter the outside drives: stays at its ceiling. */
  function Bump(c: uint32): uint32 {
    if c < U32_MAX then c + 1 else c
  }

  lemma IncOfSum(c: uint32, n: nat)
    ensures Inc(Wrap32(c + n)) == Wrap32(c + n + 1)
  {
  }

  function Min(a: int, b: int): int {
    if a <= b then a else b
  }

  // ---- little-endian bytes ------------------------------------------------

  /** 256 to the power `width`: how many values fit in `width` bytes. */
  function Span(width: nat): (s: nat)
    ensures s > 0
  {
    if width == 0 then 1 else 256 * Span(width - 1)
  }

  function LittleEndian(v: nat, width: nat): (bytes: seq<uint8>)
    ensures |bytes| == width
  {
    if width == 0 then [] else [v % 256] + LittleEndian(v / 256, width - 1)
  }

  function FromLittleEndian(bytes: seq<uint8>): (v: nat)
    ensures v < Span(|bytes|)
  {
    if bytes == [] then 0 else bytes[0] + 256 * FromLittleEndian(bytes[1..])
  }

  /** Packing then reading gives the number back. */
  lemma {:induction false} UnpackPack(v: nat, width: nat)
    requires v < Span(width)
    ensures FromLittleEndian(LittleEndian(v, width)) == v
  {
    if width == 0 {
    } else {
      UnpackPack(v / 256, width - 1);
      assert LittleEndian(v, width)[1..] == LittleEndian(v / 256, width - 1);
    }
  }

  lemma LowByte(b: uint8, v: nat)
    ensures (b + 256 * v) % 256 == b && (b + 256 * v) / 256 == v
  {
  }

  /** Reading then packing gives the bytes back. */
  lemma {:induction false} PackUnpack(bytes: seq<uint8>)
    ensures LittleEndian(FromLittleEndian(bytes), |bytes|) == bytes
  {
    if bytes == [] {
    } else {
      PackUnpack(bytes[1..]);
      LowByte(bytes[0], FromLittleEndian(bytes[1..]));
    }
  }

  /** The byte stores of `put_u16` and `put_u32`, written out. */
  lemma LittleEndianBytes(v: uint32)
    ensures LittleEndian(v, 1) == [v % 256]
    ensures LittleEndian(v, 2) == [v % 256, v / 0x100 % 256]
    ensures LittleEndian(v, 4) == [v % 256, v / 0x100 % 256, v / 0x1_0000 % 256, v / 0x100_0000 % 256]
  {
    assert v / 256 / 256 == v / 0x1_0000 && v / 0x1_0000 / 256 == v / 0x100_0000;
    assert LittleEndian(v, 1) == [v % 256] + LittleEndian(v / 256, 0);
    assert LittleEndian(v, 2) == [v % 256] + LittleEndian(v / 256, 1);
    assert LittleEndian(v / 256, 1) == [v / 256 % 256] + LittleEndian(v / 256 / 256, 0);
    assert LittleEndian(v, 4) == [v % 256] + LittleEndian(v / 256, 3);
    assert LittleEndian(v / 256, 3) == [v / 256 % 256] + LittleEndian(v / 0x1_0000, 2);
    assert LittleEndian(v / 0x1_0000, 2) == [v / 0x1_0000 % 256] + LittleEndian(v / 0x100_0000, 1);
    assert LittleEndian(v / 0x100_0000, 1) == [v / 0x100_0000 % 256] + LittleEndian(v / 0x100_0000 / 256, 0);
  }

  /** The byte loads of `get_u16` and `get_u32`, written out. */
  lemma FromLittleEndianBytes(b: seq<uint8>)
    ensures |b| == 1 ==> FromLittleEndian(b) == b[0]
    ensures |b| == 2 ==> FromLittleEndian(b) == (b[0] as nat) + 0x100 * (b[1] as nat)
    ensures |b| == 4 ==>
              FromLittleEndian(b) ==
              (b[0] as nat) + 0x100 * (b[1] as nat) + 0x1_0000 * (b[2] as nat) + 0x100_0000 * (b[3] as nat)
  {
    if |b| == 2 {
      assert FromLittleEndian(b[1..]) == b[1..][0] + 256 * FromLittleEndian(b[1..][1..]);
    } else if |b| == 4 {
      var c := b[1..];
      var d := c[1..];
      var e := d[1..];
      assert FromLittleEndian(b) == b[0] + 256 * FromLittleEndian(c);
      assert FromLittleEndian(c) == c[0] + 256 * FromLittleEndian(d);
      assert FromLittleEndian(d) == d[0] + 256 * FromLittleEndian(e);
      assert FromLittleEndian(e) == e[0] + 256 * FromLittleEndian(e[1..]);
    }
  }
}
