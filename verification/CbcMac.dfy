/** The CBC-MAC of `old_src/zigbee/security/cbcmac.rs`, over any block cipher. */
module CbcMacs {
  import opened Prelude
  import opened Octets
  import opened BlockCiphers

  // ----- Specification

  /** Cipher block chaining over whole blocks, from an all-zero start. */
  function Chain(encrypt: Block -> Block, data: seq<byte>): Block
    requires |data| % BLOCK_SIZE == 0
    decreases |data|
  {
    if data == [] then Zeros(BLOCK_SIZE)
    else encrypt(XorSeq(Chain(encrypt, data[..|data| - BLOCK_SIZE]), data[|data| - BLOCK_SIZE..]))
  }

  function CbcMac(encrypt: Block -> Block, data: seq<byte>): Block {
    Chain(encrypt, PadZero(data))
  }

  /** The buffer after some input: the chained whole blocks, with the tail mixed in. */
  function BufferAfter(encrypt: Block -> Block, data: seq<byte>): Block {
    XorSeq(Chain(encrypt, WholeBlocks(data)), Tail(data) + Zeros(BLOCK_SIZE - |Tail(data)|))
  }

  lemma BufferOfWholeBlocks(encrypt: Block -> Block, data: seq<byte>)
    requires |data| % BLOCK_SIZE == 0
    ensures BufferAfter(encrypt, data) == Chain(encrypt, data) && WholeBlocks(data) == data
  {
    hide Chain, Xor;
    assert WholeBlocks(data) == data && Tail(data) == [];
    var c := Chain(encrypt, data);
    forall i | 0 <= i < BLOCK_SIZE ensures BufferAfter(encrypt, data)[i] == c[i] {
      XorTwice(c[i], 0);
    }
  }

  lemma MixByte(c: Block, t: seq<byte>, b: byte)
    requires |t| < BLOCK_SIZE
    ensures var before := XorSeq(c, t + Zeros(BLOCK_SIZE - |t|));
            before[|t| := Xor(before[|t|], b)] == XorSeq(c, t + [b] + Zeros(BLOCK_SIZE - |t| - 1))
  {
    hide Xor;
    XorTwice(c[|t|], 0);
  }

  lemma ChainFull(encrypt: Block -> Block, data: seq<byte>, last: Block)
    requires |data| % BLOCK_SIZE == 0 && data != []
    requires data[|data| - BLOCK_SIZE..] == last
    ensures Chain(encrypt, data) == encrypt(XorSeq(Chain(encrypt, data[..|data| - BLOCK_SIZE]), last))
  {
  }

  /** One more byte goes into the buffer at the fill position; a full buffer is encrypted. */
  lemma BufferAfterByte(encrypt: Block -> Block, data: seq<byte>, b: byte)
    ensures var before, filled := BufferAfter(encrypt, data), |data| % BLOCK_SIZE;
            var mixed := before[filled := Xor(before[filled], b)];
            BufferAfter(encrypt, data + [b]) == if filled + 1 == BLOCK_SIZE then encrypt(mixed) else mixed
  {
    hide Xor, XorSeq, Zeros, Chain, WholeBlocks, Tail;
    var filled, c := |data| % BLOCK_SIZE, Chain(encrypt, WholeBlocks(data));
    var more, t := data + [b], Tail(data);
    MixByte(c, t, b);
    SplitAfterByte(data, b);
    if filled + 1 == BLOCK_SIZE {
      BufferOfWholeBlocks(encrypt, more);
      assert t + [b] + Zeros(0) == t + [b];
      ChainFull(encrypt, more, t + [b]);
    }
  }

  lemma ResultFromBuffer(encrypt: Block -> Block, data: seq<byte>)
    ensures CbcMac(encrypt, data) == if |data| % BLOCK_SIZE > 0 then encrypt(BufferAfter(encrypt, data)) else BufferAfter(encrypt, data)
  {
    if |data| % BLOCK_SIZE > 0 {
      var padded := PadZero(data);
      assert padded[..|padded| - BLOCK_SIZE] == WholeBlocks(data);
      assert padded[|padded| - BLOCK_SIZE..] == Tail(data) + Zeros(BLOCK_SIZE - |Tail(data)|);
    } else {
      BufferOfWholeBlocks(encrypt, data);
      assert PadZero(data) == data;
    }
  }

  lemma EmptyBuffer(encrypt: Block -> Block)
    ensures BufferAfter(encrypt, []) == Zeros(BLOCK_SIZE)
  {
    BufferOfWholeBlocks(encrypt, []);
  }

  // ----- Implementation

  class CbcMacState {
    const encrypt: Block -> Block
    const buffer: array<byte>
    var filled: nat
    ghost var absorbed: seq<byte>    // all input so far

    ghost predicate Valid()
      reads this, buffer
    {
      && buffer.Length == BLOCK_SIZE
      && filled == |absorbed| % BLOCK_SIZE
      && buffer[..] == BufferAfter(encrypt, absorbed)
    }

    constructor (encrypt: Block -> Block)
      ensures Valid() && absorbed == [] && this.encrypt == encrypt && fresh(buffer)
    {
      hide BufferAfter, Chain, WholeBlocks, Tail, XorSeq, Xor, Zeros;
      this.encrypt := encrypt;
      var zeros := ToArray(Zeros(BLOCK_SIZE));
      buffer := zeros;
      filled := 0;
      absorbed := [];
      new;
      EmptyBuffer(encrypt);
    }

    method EncryptBuffer()
      requires buffer.Length == BLOCK_SIZE
      modifies buffer
      ensures buffer[..] == encrypt(old(buffer[..]))
    {
      var block := encrypt(buffer[..]);
      forall i | 0 <= i < BLOCK_SIZE {
        buffer[i] := block[i];
      }
      assert buffer[..] == block;
    }

    method InputByte(b: byte)
      requires Valid()
      modifies this, buffer
      ensures Valid() && absorbed == old(absorbed) + [b]
    {
      hide BufferAfter, Xor;
      BufferAfterByte(encrypt, absorbed, b);
      ghost var before := buffer[..];
      ghost var mixed := before[filled := Xor(before[filled], b)];
      buffer[filled] := Xor(buffer[filled], b);
      assert buffer[..] == mixed;
      filled := filled + 1;
      if filled == buffer.Length {
        EncryptBuffer();
        filled := 0;
      }
      absorbed := absorbed + [b];
    }

    /** However the input is cut into calls, only its concatenation matters. */
    method Input(data: seq<byte>)
      requires Valid()
      modifies this, buffer
      ensures Valid() && absorbed == old(absorbed) + data
    {
      hide BufferAfter;
      for i := 0 to |data|
        invariant Valid() && absorbed == old(absorbed) + data[..i]
      {
        InputByte(data[i]);
        assert data[..i + 1] == data[..i] + [data[i]];
      }
      assert data[..|data|] == data;
    }

    method Reset()
      requires Valid()
      modifies this, buffer
      ensures Valid() && absorbed == []
    {
      hide BufferAfter, Chain;
      filled := 0;
      for i := 0 to buffer.Length
        invariant filled == 0
        invariant forall j | 0 <= j < i :: buffer[j] == 0
      {
        buffer[i] := 0;
      }
      absorbed := [];
      EmptyBuffer(encrypt);
      assert buffer[..] == Zeros(BLOCK_SIZE);
    }

    method Result() returns (code: Block)
      requires Valid()
      ensures code == CbcMac(encrypt, absorbed)
    {
      ResultFromBuffer(encrypt, absorbed);
      code := buffer[..];
      if filled > 0 {
        code := encrypt(code);
      }
    }
  }
}
