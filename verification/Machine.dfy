/** Machine words, bytes and pages shared by every part of the kernel model. */
module Machine {

  const TWO_32: int := 0x1_0000_0000
  const TWO_63: int := 0x8000_0000_0000_0000
  const TWO_64: int := 0x1_0000_0000_0000_0000

  const PAGE_SIZE: nat := 4096

  type byte = b: int | 0 <= b < 256

  type U64 = w: int | 0 <= w < 0x1_0000_0000_0000_0000

  type I32 = i: int | -0x8000_0000 <= i < 0x8000_0000

  /** The contents of one page or one physical frame. */
  type PageData = s: seq<byte> | |s| == PAGE_SIZE witness seq(PAGE_SIZE, _ => 0)

  datatype Option<+T> = None | Some(value: T)

  /** The `usize` that a release build keeps of an integer result. */
  function Usize(x: int): (r: int)
    ensures 0 <= r < TWO_64
  {
    x % TWO_64
  }

  /** The `isize` with the same 64 bits. */
  function Isize(x: int): (r: int)
    ensures -TWO_63 <= r < TWO_63
  {
    (x + TWO_63) % TWO_64 - TWO_63
  }
}
