/** The Matyas-Meyer-Oseas hash of `old_src/zigbee/security/mmohash.rs`, over any block cipher. */
module MmoHashes {
  import opened Prelude
  import opened Octets
  import opened BlockCiphers

  /** `cipher(key, block)` encrypts one block. */
  type Cipher = (Block, Block) -> Block

  // ----- Specification

  /** Each block is encrypted under the hash so far, and mixed into the result. */
  function Iterate(cipher: Cipher, data: seq<byte>): Block
    requires |data| % BLOCK_SIZE == 0
    decreases |data|
  {
    if data == [] then Zeros(BLOCK_SIZE)
    else
      var block := data[|data| - BLOCK_SIZE..];
      XorSeq(cipher(Iterate(cipher, data[..|data| - BLOCK_SIZE]), block), block)
  }

  /** The smallest padding of at least `required` octets that completes the last block. */
  function PaddingSize(n: nat, required: nat): (size: nat)
    ensures required <= size < required + BLOCK_SIZE && (n + size) % BLOCK_SIZE == 0
  {
    required + (BLOCK_SIZE - (n + required) % BLOCK_SIZE) % BLOCK_SIZE
  }

  const SHORT_LIMIT := 0x1_0000
  const LONG_LIMIT := 0x1_0000_0000

  /**
   * The padding of the standard for a message of `n` octets: a one bit, zeros, and the length in
   * bits; a longer message has a wider length, followed by 16 zero bits.
   */
  function StandardPadding(n: nat): Option<seq<byte>> {
    if 8 * n < SHORT_LIMIT then Some([0x80] + Zeros(PaddingSize(n, 3) - 3) + Be(8 * n, 2))
    else if 8 * n < LONG_LIMIT then Some([0x80] + Zeros(PaddingSize(n, 7) - 7) + Be(8 * n, 4) + Zeros(2))
    else None
  }

  /** The padding that is added; the longer form ends in only one zero octet. */
  function Padding(n: nat): (r: Option<seq<byte>>)
    ensures r.Some? <==> 8 * n < LONG_LIMIT
    ensures r.Some? ==> (n + |r.value|) % BLOCK_SIZE == 0
  {
    if 8 * n < SHORT_LIMIT then Some([0x80] + Zeros(PaddingSize(n, 3) - 3) + Be(8 * n, 2))
    else if 8 * n < LONG_LIMIT then Some([0x80] + Zeros(PaddingSize(n, 7) - 6) + Be(8 * n, 4) + Zeros(1))
    else None
  }

  function Digest(cipher: Cipher, msg: seq<byte>): Option<Block> {
    match Padding(|msg|)
    case None => None
    case Some(padding) => Some(Iterate(cipher, msg + padding))
  }

  function StandardDigest(cipher: Cipher, msg: seq<byte>): Option<Block> {
    match StandardPadding(|msg|)
    case None => None
    case Some(padding) => Some(Iterate(cipher, msg + padding))
  }

  // ----- The padding against the standard

  /** The padding is the standard one exactly for messages below 2^16 bits and those too long for either. */
  lemma PaddingIsStandardIff(n: nat)
    ensures Padding(n) == StandardPadding(n) <==> 8 * n < SHORT_LIMIT || 8 * n >= LONG_LIMIT
  {
    if SHORT_LIMIT <= 8 * n < LONG_LIMIT {
      var size, length := PaddingSize(n, 7), Be(8 * n, 4);
      var actual, standard := Padding(n).value, StandardPadding(n).value;
      assert |actual| == |standard| == size;
      if actual == standard {
        assert standard[size - 6..] == length + Zeros(2);
        assert actual[size - 6..] == [0] + length + Zeros(1);
        ShiftedLength(length);
        LengthIsNotZero(n);
      }
    }
  }

  /** Below 2^16 bits this is the hash of the standard. */
  lemma ShortDigestIsStandard(cipher: Cipher, msg: seq<byte>)
    requires 8 * |msg| < SHORT_LIMIT
    ensures Digest(cipher, msg) == StandardDigest(cipher, msg)
  {
    hide Padding, StandardPadding, Iterate;
    PaddingIsStandardIff(|msg|);
  }

  /** The octets of the last block. */
  function LastBlock(data: seq<byte>): Block
    requires |data| % BLOCK_SIZE == 0 && data != []
  {
    data[|data| - BLOCK_SIZE..]
  }

  /** The cipher that forgets everything: the hash is then the last block. */
  function ForgetfulCipher(key: Block, block: Block): Block {
    Zeros(BLOCK_SIZE)
  }

  lemma ForgetfulHash(data: seq<byte>)
    requires |data| % BLOCK_SIZE == 0 && data != []
    ensures Iterate(ForgetfulCipher, data) == LastBlock(data)
  {
    var block := LastBlock(data);
    forall i | 0 <= i < BLOCK_SIZE ensures XorSeq(Zeros(BLOCK_SIZE), block)[i] == block[i] {
      XorZero(block[i]);
    }
  }

  /** In the range of the longer form, even the last blocks differ. */
  lemma LastBlocksDiffer(msg: seq<byte>)
    requires SHORT_LIMIT <= 8 * |msg| < LONG_LIMIT
    ensures var actual, standard := msg + Padding(|msg|).value, msg + StandardPadding(|msg|).value;
            |actual| == |standard| >= BLOCK_SIZE && |actual| % BLOCK_SIZE == 0 && LastBlock(actual) != LastBlock(standard)
  {
    var size, length := PaddingSize(|msg|, 7), Be(8 * |msg|, 4);
    var actual, standard := msg + Padding(|msg|).value, msg + StandardPadding(|msg|).value;
    assert |actual| == |standard| == |msg| + size;
    assert LastBlock(standard)[BLOCK_SIZE - 6..] == length + Zeros(2);
    assert LastBlock(actual)[BLOCK_SIZE - 6..] == [0] + length + Zeros(1);
    if LastBlock(actual) == LastBlock(standard) {
      ShiftedLength(length);
      LengthIsNotZero(|msg|);
    }
  }

  lemma ShiftedLength(length: seq<byte>)
    requires |length| == 4 && length + Zeros(2) == [0] + length + Zeros(1)
    ensures length == Zeros(4)
  {
    var a, b := length + Zeros(2), [0] + length + Zeros(1);
    assert a[0] == b[0] && a[1] == b[1] && a[2] == b[2] && a[3] == b[3];
  }

  lemma LengthIsNotZero(n: nat)
    requires SHORT_LIMIT <= 8 * n < LONG_LIMIT
    ensures Be(8 * n, 4) != Zeros(4)
  {
    BeOfSmall(0, 0, 4);
    PowersOf256();
    if Be(8 * n, 4) == Zeros(4) {
      BeInjective(8 * n, 0, 4);
    }
  }

  /** The hash is the standard one for every cipher, exactly below 2^16 bits and where neither gives a hash. */
  lemma DigestIsStandardIff(msg: seq<byte>)
    ensures (forall cipher: Cipher :: Digest(cipher, msg) == StandardDigest(cipher, msg))
            <==> 8 * |msg| < SHORT_LIMIT || 8 * |msg| >= LONG_LIMIT
  {
    PaddingIsStandardIff(|msg|);
    if SHORT_LIMIT <= 8 * |msg| < LONG_LIMIT {
      LastBlocksDiffer(msg);
      hide Iterate, LastBlock;
      ForgetfulHash(msg + Padding(|msg|).value);
      ForgetfulHash(msg + StandardPadding(|msg|).value);
      assert Digest(ForgetfulCipher, msg) != StandardDigest(ForgetfulCipher, msg);
    }
  }

  /** The octets at the end of the padding that hold the length. */
  function LengthOctets(n: nat, padded: seq<byte>): seq<byte>
    requires |padded| > BLOCK_SIZE / 2
  {
    if 8 * n < SHORT_LIMIT then padded[|padded| - 2..] else padded[|padded| - 5..|padded| - 1]
  }

  lemma LengthCanBeRead(msg: seq<byte>)
    requires Padding(|msg|).Some?
    ensures |msg + Padding(|msg|).value| >= BLOCK_SIZE
    ensures FromBe(LengthOctets(|msg|, msg + Padding(|msg|).value)) == 8 * |msg|
    ensures 8 * |msg| >= SHORT_LIMIT ==> Last(msg + Padding(|msg|).value) == Some(0)
  {
    hide FromBe, Be;
    var n := |msg|;
    var padded := msg + Padding(n).value;
    PowersOf256();
    if 8 * n < SHORT_LIMIT {
      FromBeOfBe(8 * n, 2);
      assert padded[|padded| - 2..] == Be(8 * n, 2);
    } else {
      FromBeOfBe(8 * n, 4);
      assert padded[|padded| - 5..|padded| - 1] == Be(8 * n, 4);
    }
  }

  lemma LastOctetOfLength(n: nat, k: nat)
    requires k > 0
    ensures Be(n, k)[k - 1] == n % 0x100
  {
  }

  /** No two messages are padded to the same blocks, not even one of each form. */
  lemma PaddingIsInjective(a: seq<byte>, b: seq<byte>)
    requires Padding(|a|).Some? && Padding(|b|).Some?
    requires a + Padding(|a|).value == b + Padding(|b|).value
    ensures a == b
  {
    var padded := a + Padding(|a|).value;
    assert |padded| == |a| + |Padding(|a|).value| == |b| + |Padding(|b|).value|;
    LengthCanBeRead(a);
    LengthCanBeRead(b);
    if 8 * |a| < SHORT_LIMIT <= 8 * |b| {
      FormsDiffer(a, b);
    } else if 8 * |b| < SHORT_LIMIT <= 8 * |a| {
      FormsDiffer(b, a);
    }
    assert padded[..|a|] == a && padded[..|b|] == b;
  }

  /** A short message that fills as many blocks as a long one has a length that does not end in a zero octet. */
  lemma FormsDiffer(short: seq<byte>, long: seq<byte>)
    requires 8 * |short| < SHORT_LIMIT <= 8 * |long| < LONG_LIMIT
    ensures short + Padding(|short|).value != long + Padding(|long|).value
  {
    var a, b := short + Padding(|short|).value, long + Padding(|long|).value;
    if |a| == |b| {
      LengthCanBeRead(long);
      LastOctetOfLength(8 * |short|, 2);
      assert a[|a| - 1] == 8 * |short| % 0x100;
      assert |short| > 0x1FE0;
      assert a[|a| - 1] != 0;
    }
  }

  // ----- Implementation

  /** The hash state in terms of what it has absorbed. */
  lemma IterateMore(cipher: Cipher, data: seq<byte>, b: byte)
    requires (|data| + 1) % BLOCK_SIZE == 0
    ensures var more, block := data + [b], Tail(data) + [b];
            |more| % BLOCK_SIZE == 0 && |block| == BLOCK_SIZE
            && Iterate(cipher, more) == XorSeq(cipher(Iterate(cipher, WholeBlocks(data)), block), block)
  {
    SplitAfterByte(data, b);
  }

  /** Octet `i` of a padding of `size` octets for a message of `bits` bits. */
  function PaddingOctet(bits: nat, size: nat, long: bool, i: nat): byte {
    var start: byte := if i == 0 then 0x80 else 0;
    var octet := size - 1 - i - if long then 1 else 0;
    if 0 <= octet < 8 then Or(start, ShiftRight(bits, octet) % 0x100) else start
  }

  lemma PaddingOctetIs(bits: nat, size: nat, long: bool, i: nat)
    requires i < size
    requires if long then bits < LONG_LIMIT && size >= 7 else bits < SHORT_LIMIT && size >= 3
    ensures var width, used := if long then size - 1 else size, if long then 4 else 2;
            PaddingOctet(bits, size, long, i) == ([0x80] + Zeros(width - used - 1) + Be(bits, used) + if long then Zeros(1) else [])[i]
  {
    hide Or, Be, ShiftRight, Pow256;
    PowersOf256();
    var width, used := if long then size - 1 else size, if long then 4 else 2;
    if i < width {
      BeAt(bits, width, i);
      BeOfSmall(bits, used, width);
      OrZero(ShiftRight(bits, width - 1 - i) % 0x100);
      OrZero(0x80);
      assert Be(bits, width)[i] == (Zeros(width - used) + Be(bits, used))[i];
    }
  }

  lemma PaddingOctetsAre(n: nat, octets: seq<byte>)
    requires 8 * n < LONG_LIMIT
    requires |octets| == |Padding(n).value|
    requires forall i | 0 <= i < |octets| :: octets[i] == PaddingOctet(8 * n, |octets|, 8 * n >= SHORT_LIMIT, i)
    ensures octets == Padding(n).value
  {
    hide PaddingOctet, Be, Zeros;
    var long := 8 * n >= SHORT_LIMIT;
    var padding := Padding(n).value;
    forall i | 0 <= i < |octets| ensures octets[i] == padding[i] {
      PaddingOctetIs(8 * n, |octets|, long, i);
    }
  }

  lemma EmptyState(cipher: Cipher)
    ensures Iterate(cipher, WholeBlocks([])) == Zeros(BLOCK_SIZE) && Tail([]) == []
  {
  }

  class MMOHash {
    const cipher: Cipher
    const hash: array<byte>
    const buffer: array<byte>
    var filled: nat
    var length: nat
    ghost var absorbed: seq<byte>    // all input so far

    ghost predicate Blocks()
      reads this, hash, buffer
    {
      && hash.Length == buffer.Length == BLOCK_SIZE && hash != buffer
      && filled == |absorbed| % BLOCK_SIZE
      && hash[..] == Iterate(cipher, WholeBlocks(absorbed))
      && buffer[..] == Tail(absorbed) + Zeros(BLOCK_SIZE - filled)
    }

    ghost predicate Valid()
      reads this, hash, buffer
    {
      Blocks() && length == |absorbed|
    }

    constructor (cipher: Cipher)
      ensures Valid() && absorbed == [] && this.cipher == cipher && fresh(hash) && fresh(buffer)
    {
      hide Iterate, WholeBlocks, Tail, Zeros;
      this.cipher := cipher;
      var zeros := ToArray(Zeros(BLOCK_SIZE));
      var moreZeros := ToArray(Zeros(BLOCK_SIZE));
      hash, buffer := zeros, moreZeros;
      filled, length, absorbed := 0, 0, [];
      new;
      EmptyState(cipher);
      assert hash[..] == Zeros(BLOCK_SIZE) && buffer[..] == Zeros(BLOCK_SIZE);
    }

    method Reset()
      requires Valid()
      modifies this, hash, buffer
      ensures Valid() && absorbed == []
    {
      hide Iterate, WholeBlocks, Tail;
      for i := 0 to BLOCK_SIZE
        invariant forall k | 0 <= k < i :: hash[k] == 0 && buffer[k] == 0
      {
        hash[i] := 0;
        buffer[i] := 0;
      }
      filled, length, absorbed := 0, 0, [];
      EmptyState(cipher);
      assert hash[..] == Zeros(BLOCK_SIZE) && buffer[..] == Zeros(BLOCK_SIZE);
    }

    method ProcessBlock()
      requires hash.Length == buffer.Length == BLOCK_SIZE && hash != buffer
      modifies this`filled, hash, buffer
      ensures filled == 0 && buffer[..] == Zeros(BLOCK_SIZE)
      ensures hash[..] == XorSeq(cipher(old(hash[..]), old(buffer[..])), old(buffer[..]))
    {
      hide Xor;
      ghost var block := buffer[..];
      var key := hash[..];
      for i := 0 to BLOCK_SIZE
        invariant buffer[..] == block && filled == old(filled)
        invariant forall k | 0 <= k < i :: hash[k] == buffer[k]
      {
        hash[i] := buffer[i];
      }
      assert hash[..] == block;
      var encrypted := cipher(key, hash[..]);
      for i := 0 to BLOCK_SIZE
        invariant forall k | 0 <= k < i :: hash[k] == Xor(encrypted[k], block[k]) && buffer[k] == 0
        invariant forall k | i <= k < BLOCK_SIZE :: buffer[k] == block[k]
      {
        hash[i] := Xor(encrypted[i], buffer[i]);
        buffer[i] := 0;
      }
      assert hash[..] == XorSeq(encrypted, block);
      assert buffer[..] == Zeros(BLOCK_SIZE);
      filled := 0;
    }

    method InputByte(b: byte)
      requires Blocks()
      modifies this`filled, this`absorbed, hash, buffer
      ensures Blocks() && absorbed == old(absorbed) + [b]
    {
      hide Xor, XorSeq, Iterate, WholeBlocks, Tail;
      ghost var t := Tail(absorbed);
      SplitAfterByte(absorbed, b);
      buffer[filled] := b;
      assert buffer[..] == t + [b] + Zeros(BLOCK_SIZE - filled - 1);
      filled := filled + 1;
      if filled == BLOCK_SIZE {
        IterateMore(cipher, absorbed, b);
        assert buffer[..] == t + [b];
        ProcessBlock();
        WholeIsAll(absorbed + [b]);
      }
      absorbed := absorbed + [b];
    }

    /** However the input is cut into calls, only its concatenation matters. */
    method Input(data: seq<byte>)
      requires Valid()
      modifies this, hash, buffer
      ensures Valid() && absorbed == old(absorbed) + data
    {
      hide Iterate, WholeBlocks, Tail;
      for i := 0 to |data|
        invariant Blocks() && absorbed == old(absorbed) + data[..i] && length == old(length)
      {
        InputByte(data[i]);
        assert data[..i + 1] == data[..i] + [data[i]];
      }
      assert data[..|data|] == data;
      length := length + |data|;
    }

    /** None is the failed assertion on messages of 2^32 bits and more. */
    method FixedResult() returns (r: Option<Block>)
      requires Valid()
      modifies this, hash, buffer
      ensures r == Digest(cipher, old(absorbed))
    {
      hide Iterate, WholeBlocks, Tail, ShiftRight, Pow256, Padding, PaddingOctet;
      var bits := length * 8;
      ShiftedOut(bits, 2);
      ShiftedOut(bits, 4);
      PowersOf256();
      var fitsSmall := ShiftRight(bits, 2) == 0;
      if ShiftRight(bits, 4) != 0 {
        return None;
      }
      var required := (1 + (if fitsSmall then BLOCK_SIZE else BLOCK_SIZE * 3) + 7) / 8;
      var size := BLOCK_SIZE - filled;
      if size < required {
        size := size + BLOCK_SIZE;
      }
      SizeIsPaddingSize(length, size);
      var padding := PaddingOctets(bits, size, fitsSmall);
      PaddingOctetsAre(length, padding);
      ghost var msg := absorbed;
      Input(padding);
      assert filled == 0;
      WholeIsAll(absorbed);
      r := Some(hash[..]);
    }
  }

  lemma WholeIsAll(data: seq<byte>)
    requires |data| % BLOCK_SIZE == 0
    ensures WholeBlocks(data) == data && Tail(data) == []
  {
  }

  /** Room for the required octets in this block, or else in the next. */
  lemma SmallestSize(n: nat, required: nat)
    requires 0 < required <= BLOCK_SIZE
    ensures var left := BLOCK_SIZE - n % BLOCK_SIZE;
            PaddingSize(n, required) == if left < required then left + BLOCK_SIZE else left
  {
    var m := n % BLOCK_SIZE;
    assert n + required == BLOCK_SIZE * (n / BLOCK_SIZE) + (m + required);
    if m + required < BLOCK_SIZE {
      assert (n + required) % BLOCK_SIZE == m + required;
    } else if m + required < 2 * BLOCK_SIZE {
      assert (n + required) % BLOCK_SIZE == m + required - BLOCK_SIZE;
    }
  }

  lemma SizeIsPaddingSize(n: nat, size: nat)
    requires 8 * n < LONG_LIMIT
    requires var required, left := if 8 * n < SHORT_LIMIT then 3 else 7, BLOCK_SIZE - n % BLOCK_SIZE;
             size == if left < required then left + BLOCK_SIZE else left
    ensures size == |Padding(n).value|
  {
    hide Be, Zeros, PaddingSize;
    SmallestSize(n, if 8 * n < SHORT_LIMIT then 3 else 7);
  }

  /** The loop that mixes the length into the padding buffer. */
  method PaddingOctets(bits: nat, size: nat, fitsSmall: bool) returns (r: seq<byte>)
    requires 0 < size <= 2 * BLOCK_SIZE
    ensures |r| == size && forall i | 0 <= i < size :: r[i] == PaddingOctet(bits, size, !fitsSmall, i)
  {
    hide Or, ShiftRight;
    var padding := new byte[2 * BLOCK_SIZE](_ => 0);
    padding[0] := 0x80;
    var shift: int := size * 8;
    if !fitsSmall {
      shift := shift - 8;
    }
    for i := 0 to size
      invariant shift == (size - i - if fitsSmall then 0 else 1) * 8
      invariant forall k | 0 <= k < i :: padding[k] == PaddingOctet(bits, size, !fitsSmall, k)
      invariant forall k | i <= k < padding.Length :: padding[k] == if k == 0 then 0x80 else 0
    {
      shift := shift - 8;
      if shift < 64 && shift > -8 {
        padding[i] := Or(padding[i], ShiftRight(bits, shift / 8) % 0x100);
      }
    }
    r := padding[..size];
  }
}
