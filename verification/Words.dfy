/** Disk blocks as bytes, and the little-endian 32-bit words the kernel reads and writes in them. */
module Words {
  type byte = x: int | 0 <= x < 256
  type word = x: int | 0 <= x < 0x1_0000_0000

  const WORD_LIMIT := 0x1_0000_0000

  function Decode(a: byte, b: byte, c: byte, d: byte): word {
    a + 0x100 * b + 0x1_0000 * c + 0x100_0000 * d
  }

  function Encode(v: word): (s: seq<byte>)
    ensures |s| == 4 && Decode(s[0], s[1], s[2], s[3]) == v
  {
    var v1 := v / 0x100;
    var v2 := v1 / 0x100;
    var v3 := v2 / 0x100;
    assert v == 0x100 * v1 + v % 0x100 && v1 == 0x100 * v2 + v1 % 0x100 && v2 == 0x100 * v3 + v2 % 0x100;
    [v % 0x100, v1 % 0x100, v2 % 0x100, v3]
  }

  /** `((uint32_t*)buf)[i]` */
  function Ptr(buf: seq<byte>, i: nat): word
    requires 4 * i + 4 <= |buf|
  {
    Decode(buf[4 * i], buf[4 * i + 1], buf[4 * i + 2], buf[4 * i + 3])
  }

  /** `((uint32_t*)buf)[i] = v` */
  function SetPtr(buf: seq<byte>, i: nat, v: word): (r: seq<byte>)
    requires 4 * i + 4 <= |buf|
    ensures |r| == |buf|
    ensures Ptr(r, i) == v
    ensures forall j: nat :: 4 * j + 4 <= |buf| && j != i ==> Ptr(r, j) == Ptr(buf, j)
  {
    var e := Encode(v);
    var r := buf[4 * i := e[0]][4 * i + 1 := e[1]][4 * i + 2 := e[2]][4 * i + 3 := e[3]];
    r
  }

  function Zeros(len: nat): (r: seq<byte>)
    ensures |r| == len
    ensures forall i: nat :: 4 * i + 4 <= len ==> Ptr(r, i) == 0
  {
    seq(len, _ => 0)
  }
}
