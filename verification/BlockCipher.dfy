/** Bitwise operators, blocks and block ciphers, as the security code uses them. */
module BlockCiphers {
  import opened Octets
  import opened Prelude

  const BLOCK_SIZE := 16

  type Block = s: seq<byte> | |s| == BLOCK_SIZE witness Zeros(BLOCK_SIZE)

  // ----- Bitwise operators on octets

  function Pow2(n: nat): nat {
    if n == 0 then 1 else 2 * Pow2(n - 1)
  }

  /** Exclusive or of the lowest `n` bits. */
  function XorBits(a: nat, b: nat, n: nat): (r: nat)
    ensures r < Pow2(n)
  {
    if n == 0 then 0 else 2 * XorBits(a / 2, b / 2, n - 1) + (a + b) % 2
  }

  function OrBits(a: nat, b: nat, n: nat): (r: nat)
    ensures r < Pow2(n)
  {
    if n == 0 then 0
    else 2 * OrBits(a / 2, b / 2, n - 1) + if a % 2 + b % 2 > 0 then 1 else 0
  }

  function Xor(a: byte, b: byte): byte {
    assert Pow2(8) == 0x100;
    XorBits(a, b, 8)
  }

  function Or(a: byte, b: byte): byte {
    assert Pow2(8) == 0x100;
    OrBits(a, b, 8)
  }

  lemma ParityTwice(x: nat, a: nat, b: nat)
    requires x % 2 == (a + b) % 2
    ensures (x + b) % 2 == a % 2
  {
  }

  lemma {:induction false} XorBitsTwice(a: nat, b: nat, n: nat)
    requires a < Pow2(n)
    ensures XorBits(XorBits(a, b, n), b, n) == a && XorBits(a, 0, n) == a
  {
    if n > 0 {
      var x := XorBits(a, b, n);
      assert x / 2 == XorBits(a / 2, b / 2, n - 1) && x % 2 == (a + b) % 2;
      ParityTwice(x, a, b);
      XorBitsTwice(a / 2, b / 2, n - 1);
    }
  }

  lemma {:induction false} OrBitsZero(a: nat, n: nat)
    requires a < Pow2(n)
    ensures OrBits(a, 0, n) == a && OrBits(0, a, n) == a
  {
    if n > 0 {
      OrBitsZero(a / 2, n - 1);
    }
  }

  lemma XorTwice(a: byte, b: byte)
    ensures Xor(Xor(a, b), b) == a && Xor(a, 0) == a
  {
    assert Pow2(8) == 0x100;
    hide XorBits;
    XorBitsTwice(a, b, 8);
  }

  lemma {:induction false} ZeroXorBits(a: nat, n: nat)
    requires a < Pow2(n)
    ensures XorBits(0, a, n) == a
  {
    if n > 0 {
      ZeroXorBits(a / 2, n - 1);
    }
  }

  lemma XorZero(a: byte)
    ensures Xor(0, a) == a
  {
    assert Pow2(8) == 0x100;
    hide XorBits;
    ZeroXorBits(a, 8);
  }

  lemma OrZero(a: byte)
    ensures Or(a, 0) == a && Or(0, a) == a
  {
    assert Pow2(8) == 0x100;
    hide OrBits;
    OrBitsZero(a, 8);
  }

  function XorSeq(a: seq<byte>, b: seq<byte>): (r: seq<byte>)
    requires |a| == |b|
    ensures |r| == |a| && forall i | 0 <= i < |r| :: r[i] == Xor(a[i], b[i])
  {
    seq(|a|, i requires 0 <= i < |a| => Xor(a[i], b[i]))
  }

  lemma XorSeqTwice(a: seq<byte>, b: seq<byte>)
    requires |a| == |b|
    ensures XorSeq(XorSeq(a, b), b) == a
  {
    forall i | 0 <= i < |a| ensures XorSeq(XorSeq(a, b), b)[i] == a[i] {
      XorTwice(a[i], b[i]);
    }
  }

  /** The zeros that complete the last block. */
  function PadZero(s: seq<byte>): (r: seq<byte>)
    ensures |r| % BLOCK_SIZE == 0 && |s| <= |r| < |s| + BLOCK_SIZE && s <= r
  {
    s + Zeros((BLOCK_SIZE - |s| % BLOCK_SIZE) % BLOCK_SIZE)
  }

  function WholeBlocks(data: seq<byte>): (r: seq<byte>)
    ensures |r| % BLOCK_SIZE == 0 && |r| <= |data| < |r| + BLOCK_SIZE && r <= data
  {
    data[..|data| - |data| % BLOCK_SIZE]
  }

  /** What has been read beyond the last whole block. */
  function Tail(data: seq<byte>): (r: seq<byte>)
    ensures |r| == |data| % BLOCK_SIZE && WholeBlocks(data) + r == data
  {
    data[|data| - |data| % BLOCK_SIZE..]
  }

  lemma SplitAfterByte(data: seq<byte>, b: byte)
    ensures var more, t := data + [b], Tail(data);
            if |data| % BLOCK_SIZE + 1 == BLOCK_SIZE
            then |more| % BLOCK_SIZE == 0 && more != [] && more[..|more| - BLOCK_SIZE] == WholeBlocks(data) && more[|more| - BLOCK_SIZE..] == t + [b]
            else WholeBlocks(more) == WholeBlocks(data) && Tail(more) == t + [b]
  {
    var n, whole := |data| % BLOCK_SIZE, |data| - |data| % BLOCK_SIZE;
    var more := data + [b];
    assert |data| == BLOCK_SIZE * (|data| / BLOCK_SIZE) + n;
    if n + 1 == BLOCK_SIZE {
      assert |more| == BLOCK_SIZE * (|data| / BLOCK_SIZE + 1) && |more| - BLOCK_SIZE == whole;
    } else {
      assert |more| % BLOCK_SIZE == n + 1 && |more| - |more| % BLOCK_SIZE == whole;
    }
    assert more[..whole] == data[..whole] && more[whole..] == data[whole..] + [b];
  }
}
