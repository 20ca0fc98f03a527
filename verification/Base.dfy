/** Machine words, page contents and the small helpers every component shares. */
module Base {

  const PAGE_SIZE: nat := 4096
  const UINT32_MAX: nat := 0xFFFF_FFFF
  const TWO_32: nat := 0x1_0000_0000
  const TWO_64: nat := 0x1_0000_0000_0000_0000

  type byte = x: int | 0 <= x < 256
  type u16 = x: int | 0 <= x < 0x1_0000
  type u32 = x: int | 0 <= x < TWO_32
  type u64 = x: int | 0 <= x < TWO_64

  type Bytes = seq<byte>

  function Zeros(n: nat): (z: Bytes)
    ensures |z| == n
  {
    seq(n, _ => 0)
  }

  /** The contents of one 4 KiB page. */
  type Page = s: Bytes | |s| == PAGE_SIZE witness Zeros(PAGE_SIZE)

  const ZERO_PAGE: Page := Zeros(PAGE_SIZE)

  /** A page with `bytes` at `offset`. */
  function Splice(page: Page, offset: nat, bytes: Bytes): Page
    requires offset + |bytes| <= PAGE_SIZE
  {
    page[..offset] + bytes + page[offset + |bytes|..]
  }

  datatype Option<+T> = None | Some(value: T)
}
