/** Little-endian machine words, as they lie in packed structures on the wire. */
module Words {
  import opened Arith
  import opened Base

  function Le16(x: u16): (b: Bytes)
    ensures |b| == 2
  {
    [x % 256, x / 256]
  }

  function Le32(x: u32): (b: Bytes)
    ensures |b| == 4
  {
    [x % 256, x / 256 % 256, x / 65536 % 256, x / 16777216]
  }

  function Un16(b: Bytes): u16
    requires |b| == 2
  {
    var b0: int, b1: int := b[0], b[1];
    b0 + 256 * b1
  }

  function Un32(b: Bytes): u32
    requires |b| == 4
  {
    var b0: int, b1: int, b2: int, b3: int := b[0], b[1], b[2], b[3];
    b0 + 256 * b1 + 65536 * b2 + 16777216 * b3
  }

  lemma Words16(x: u16, b: Bytes)
    requires |b| == 2
    ensures Un16(Le16(x)) == x && Le16(Un16(b)) == b
  {
  }

  lemma Words32(x: u32)
    ensures Un32(Le32(x)) == x
  {
    var a, b, c := x / 256, x / 256 / 256, x / 256 / 256 / 256;
    DivModUnique(x, 65536, b, x % 256 + 256 * (a % 256));
    DivModUnique(x, 16777216, c, x % 256 + 256 * (a % 256) + 65536 * (b % 256));
  }

  lemma Bytes32(b: Bytes)
    requires |b| == 4
    ensures Le32(Un32(b)) == b
  {
    var x := Un32(b);
    var b1: int, b2: int, b3: int := b[1], b[2], b[3];
    DivModUnique(x, 256, b1 + 256 * b2 + 65536 * b3, b[0]);
    DivModUnique(x, 65536, b2 + 256 * b3, b[0] + 256 * b1);
    DivModUnique(x, 16777216, b3, b[0] + 256 * b1 + 65536 * b2);
    DivModUnique(x / 256, 256, b2 + 256 * b3, b1);
    DivModUnique(x / 65536, 256, b3, b2);
  }
}
