/**
 * Bytes, device ids and the additive checksum of the SDS011 protocol.
 *
 * The sensor protocol calls its integrity byte a "CRC", but it is the low
 * eight bits of a plain sum of bytes.
 */
module Checksum {

  /** One octet of a serial frame. */
  type byte = x: int | 0 <= x < 256

  /** A 16-bit sensor address; 0xFFFF addresses every sensor on the line. */
  type DeviceId = x: int | 0 <= x <= 0xFFFF

  const BROADCAST: DeviceId := 0xFFFF

  /** The frame markers shared by commands and replies. */
  const HEAD: byte := 0xAA
  const TAIL: byte := 0xAB

  /** The length of a reply frame. */
  const FRAME_LENGTH := 10

  /** The high byte of an id, as the first of its two hex byte pairs. */
  function High(id: DeviceId): (r: byte)
    ensures r * 256 <= id < r * 256 + 256
  {
    id / 256
  }

  /** The low byte of an id, as the second of its two hex byte pairs. */
  function Low(id: DeviceId): (r: byte)
    ensures r == id - High(id) * 256
  {
    id % 256
  }

  /** The sum of a sequence of bytes, by recursion from the front; the empty sum is 0. */
  function Sum(s: seq<byte>): nat
  {
    if s == [] then 0 else s[0] + Sum(s[1..])
  }

  /** Adding a byte at the end adds it to the sum. */
  lemma {:induction false} SumSnoc(a: seq<byte>, x: byte)
    ensures Sum(a + [x]) == Sum(a) + x
  {
    if a != [] {
      assert (a + [x])[1..] == a[1..] + [x];
      SumSnoc(a[1..], x);
    } else {
      assert [] + [x] == [x];
    }
  }

  /**
   * The left fold `data.reduce((prev, curr) => prev + curr)` with no
   * initial value: it starts from the first element, so an empty input
   * has no result (in the source the call throws). On every other input
   * it is the sum of the bytes.
   */
  function Fold(data: seq<byte>): (r: nat)
    requires |data| > 0
    ensures r == Sum(data)
    ensures data[0] <= r <= 255 * |data|
  {
    if |data| == 1 then
      assert data == [] + [data[0]];
      SumSnoc([], data[0]);
      data[0]
    else
      var init := data[..|data| - 1];
      assert data == init + [data[|data| - 1]];
      SumSnoc(init, data[|data| - 1]);
      Fold(init) + data[|data| - 1]
  }

  /** calcCrcFromData: the sum of the bytes, masked with 0xFF. */
  function CalcCrcFromData(data: seq<byte>): (r: byte)
    requires |data| > 0
    ensures r == Sum(data) % 256
  {
    Fold(data) % 256
  }

  /** calcCrcFromBuffer: the checksum over bytes 2 to 7 of an inbound frame. */
  function CalcCrcFromBuffer(buffer: seq<byte>): (r: byte)
    requires |buffer| >= 8
    ensures r == (buffer[2] as int + buffer[3] + buffer[4] + buffer[5] + buffer[6] + buffer[7]) % 256
  {
    FoldSix(buffer[2..8]);
    CalcCrcFromData(buffer[2..8])
  }

  /** checkCrc: the checksum over bytes 2 to 7 equals byte 8. */
  function CheckCrc(buffer: seq<byte>): (r: bool)
    requires |buffer| >= 9
    ensures r <==> (buffer[2] as int + buffer[3] + buffer[4] + buffer[5] + buffer[6] + buffer[7]) % 256 == buffer[8]
  {
    CalcCrcFromBuffer(buffer) == buffer[8]
  }

  /** The fold over six bytes is their sum. */
  lemma FoldSix(s: seq<byte>)
    requires |s| == 6
    ensures Fold(s) == s[0] as int + s[1] + s[2] + s[3] + s[4] + s[5]
  {
    var s5, s4, s3, s2 := s[..5], s[..4], s[..3], s[..2];
    assert s5[..4] == s4 && s4[..3] == s3 && s3[..2] == s2 && s2[..1] == [s[0]];
    assert Fold(s2) == s[0] as int + s[1];
    assert Fold(s3) == Fold(s2) + s[2];
    assert Fold(s4) == Fold(s3) + s[3];
    assert Fold(s5) == Fold(s4) + s[4];
  }

  /** Folding a concatenation adds the two folds. */
  lemma {:induction false} FoldAppend(a: seq<byte>, b: seq<byte>)
    requires |a| > 0 && |b| > 0
    ensures Fold(a + b) == Fold(a) + Fold(b)
    decreases |b|
  {
    var ab := a + b;
    assert ab[..|ab| - 1] == a + b[..|b| - 1];
    if |b| > 1 {
      FoldAppend(a, b[..|b| - 1]);
    } else {
      assert ab[..|ab| - 1] == a;
    }
  }

  /** The checksum does not depend on the order of two concatenated blocks. */
  lemma ChecksumCommutes(a: seq<byte>, b: seq<byte>)
    requires |a| > 0 && |b| > 0
    ensures CalcCrcFromData(a + b) == CalcCrcFromData(b + a)
    ensures CalcCrcFromData(a + b) == (CalcCrcFromData(a) + CalcCrcFromData(b)) % 256
  {
    FoldAppend(a, b);
    FoldAppend(b, a);
    ModSum(Fold(a), Fold(b));
  }

  /** Reducing modulo 256 commutes with addition. */
  lemma ModSum(x: nat, y: nat)
    ensures (x + y) % 256 == (x % 256 + y % 256) % 256
  {
    assert x == 256 * (x / 256) + x % 256;
    assert y == 256 * (y / 256) + y % 256;
    assert x + y == 256 * (x / 256 + y / 256) + (x % 256 + y % 256);
  }

  /** A sequence of zeros. */
  function Zeros(n: nat): (r: seq<byte>)
    ensures |r| == n && forall i :: 0 <= i < n ==> r[i] == 0
  {
    seq(n, _ => 0)
  }

  /** Appending zero bytes leaves the fold unchanged. */
  lemma {:induction false} FoldZeros(a: seq<byte>, n: nat)
    requires |a| > 0
    ensures Fold(a + Zeros(n)) == Fold(a)
    decreases n
  {
    if n > 0 {
      var az := a + Zeros(n);
      assert az[..|az| - 1] == a + Zeros(n - 1);
      FoldZeros(a, n - 1);
    } else {
      assert a + Zeros(0) == a;
    }
  }

  /** Two worked checksums: FF FF gives FE; the data bytes 96 00 50 00 34 0A give 24. */
  lemma ChecksumExamples()
    ensures CalcCrcFromData([0xFF, 0xFF]) == 0xFE
    ensures CalcCrcFromBuffer([0xAA, 0xC0, 0x96, 0x00, 0x50, 0x00, 0x34, 0x0A]) == 0x24
  {
    assert [0xFF, 0xFF][..1] == [0xFF];
  }
}
