/**
 * CCM* authenticated encryption, `old_src/zigbee/security/ccmstar.rs`, over any block cipher and
 * any keystream.
 */
module CcmStars {
  import opened Prelude
  import opened Octets
  import opened BlockCiphers
  import CbcMacs

  /** M: 0 for no tag, otherwise a tag of 2 * M + 2 octets. */
  type IntegrityCode = m: nat | m <= 7

  /** L: the number of octets of the message length field. */
  type LengthSize = l: nat | 2 <= l <= 7 witness 2

  /** `keystream(iv, i)` is octet `i` of the stream that starts at the counter block `iv`. */
  type Keystream = (Block, nat) -> byte

  datatype CcmStar = CcmStar(encrypt: Block -> Block, keystream: Keystream, code: IntegrityCode, lengthSize: LengthSize)

  datatype Error = AeadError

  const NONCE_SIZE := 15

  type Nonce = s: seq<byte> | |s| == NONCE_SIZE witness Zeros(NONCE_SIZE)

  function TagSize(m: IntegrityCode): (size: nat)
    ensures size <= BLOCK_SIZE
  {
    if m == 0 then 0 else m * 2 + 2
  }

  // ----- Authentication formatting

  /** The length of the associated data, in 0, 2, 6 or 10 octets. */
  function LengthPrefix(n: nat): Option<seq<byte>> {
    if n == 0 then Some([])
    else if n < 0xFF00 then Some(Be(n, 2))
    else if n < 0x1_0000_0000 then Some([0xFF, 0xFE] + Be(n, 4))
    else if n < 0x1_0000_0000_0000_0000 then Some([0xFF, 0xFF] + Be(n, 8))
    else None
  }

  function AuthFlags(m: IntegrityCode, l: LengthSize, hasAad: bool): byte {
    (if hasAad then 0x40 else 0) + m * 8 + (l - 1)
  }

  /** Flags, nonce and message length. */
  function FirstBlock(m: IntegrityCode, l: LengthSize, nonce: seq<byte>, aad: seq<byte>, msg: seq<byte>): seq<byte> {
    [AuthFlags(m, l, aad != [])] + nonce + Be(|msg|, l)
  }

  /** Everything CBC-MAC reads, before its own zero padding; none when a length does not fit. */
  function Authenticated(m: IntegrityCode, l: LengthSize, nonce: seq<byte>, aad: seq<byte>, msg: seq<byte>): Option<seq<byte>> {
    match LengthPrefix(|aad|)
    case None => None
    case Some(prefix) =>
      if |msg| >= Pow256(l) || |nonce| != NONCE_SIZE - l then None
      else Some(FirstBlock(m, l, nonce, aad, msg) + PadZero(prefix + aad) + msg)
  }

  function Tag(ccm: CcmStar, nonce: seq<byte>, aad: seq<byte>, msg: seq<byte>): Result<Block, Error> {
    match Authenticated(ccm.code, ccm.lengthSize, nonce, aad, msg)
    case None => Err(AeadError)
    case Some(data) => Ok(CbcMacs.CbcMac(ccm.encrypt, data))
  }

  // ----- Formatting can be undone

  datatype Parts = Parts(nonce: seq<byte>, aad: seq<byte>, msg: seq<byte>)

  /** The length that a length prefix tells, and the size of that prefix. */
  function ReadLengthPrefix(s: seq<byte>): (r: Option<(nat, nat)>)
    ensures r.Some? ==> r.value.1 <= |s|
  {
    if |s| < 2 then None
    else
      var short := FromBe(s[..2]);
      if short < 0xFF00 then Some((short, 2))
      else if short == 0xFFFE && |s| >= 6 then Some((FromBe(s[2..6]), 6))
      else if short == 0xFFFF && |s| >= 10 then Some((FromBe(s[2..10]), 10))
      else None
  }

  function PaddedSize(n: nat): (r: nat)
    ensures r % BLOCK_SIZE == 0 && n <= r < n + BLOCK_SIZE
  {
    n + (BLOCK_SIZE - n % BLOCK_SIZE) % BLOCK_SIZE
  }

  /** Reads the blocks that were authenticated back into nonce, associated data and message. */
  function Recover(l: LengthSize, blocks: seq<byte>): Option<Parts> {
    if |blocks| < BLOCK_SIZE then None
    else
      var nonce, size, rest := blocks[1..BLOCK_SIZE - l], FromBe(blocks[BLOCK_SIZE - l..BLOCK_SIZE]), blocks[BLOCK_SIZE..];
      var prefix: Option<(nat, nat)> := if blocks[0] < 0x40 then Some((0, 0)) else ReadLengthPrefix(rest);
      match prefix
      case None => None
      case Some((n, skip)) =>
        var used := PaddedSize(skip + n);
        if used + size <= |rest| then Some(Parts(nonce, rest[skip..skip + n], rest[used..used + size]))
        else None
  }

  lemma PrefixIsReadBack(n: nat, rest: seq<byte>)
    requires n > 0 && LengthPrefix(n).Some?
    ensures ReadLengthPrefix(LengthPrefix(n).value + rest) == Some((n, |LengthPrefix(n).value|))
  {
    hide Be, FromBe;
    PowersOf256();
    var s := LengthPrefix(n).value + rest;
    if n < 0xFF00 {
      FromBeOfBe(n, 2);
      assert s[..2] == Be(n, 2);
    } else if n < 0x1_0000_0000 {
      FromBeOfBe(n, 4);
      assert s[..2] == [0xFF, 0xFE] && s[2..6] == Be(n, 4);
      TwoBytes(0xFF, 0xFE);
    } else {
      FromBeOfBe(n, 8);
      assert s[..2] == [0xFF, 0xFF] && s[2..10] == Be(n, 8);
      TwoBytes(0xFF, 0xFF);
    }
  }

  lemma TwoBytes(a: byte, b: byte)
    ensures FromBe([a, b]) == a as int * 0x100 + b as int
  {
    assert [a, b][..1] == [a];
    assert [a][..0] == [];
    assert FromBe([a]) == a as int;
  }

  /** Nonce, associated data and message can all be read back from the authenticated blocks. */
  lemma AuthenticatedCanBeRead(m: IntegrityCode, l: LengthSize, nonce: seq<byte>, aad: seq<byte>, msg: seq<byte>)
    requires Authenticated(m, l, nonce, aad, msg).Some?
    ensures Recover(l, PadZero(Authenticated(m, l, nonce, aad, msg).value)) == Some(Parts(nonce, aad, msg))
  {
    hide Be, FromBe, Pow256, LengthPrefix, ReadLengthPrefix, PadZero, Zeros;
    var prefix := LengthPrefix(|aad|).value;
    var first, padded := FirstBlock(m, l, nonce, aad, msg), PadZero(prefix + aad);
    var data := first + padded + msg;
    var blocks := PadZero(data);
    var zeros := blocks[|data|..];
    assert blocks == data + zeros;
    BehindFirst(first, padded, msg, zeros);
    FirstCanBeRead(m, l, nonce, aad, msg, padded + msg + zeros);
    FromBeOfBe(|msg|, l);
    RestCanBeRead(aad, msg, zeros);
  }

  lemma BehindFirst(first: seq<byte>, padded: seq<byte>, msg: seq<byte>, zeros: seq<byte>)
    ensures first + padded + msg + zeros == first + (padded + msg + zeros)
  {
  }

  lemma FirstCanBeRead(m: IntegrityCode, l: LengthSize, nonce: seq<byte>, aad: seq<byte>, msg: seq<byte>, rest: seq<byte>)
    requires |nonce| == NONCE_SIZE - l
    ensures var blocks := FirstBlock(m, l, nonce, aad, msg) + rest;
            && |blocks| == BLOCK_SIZE + |rest| && blocks[BLOCK_SIZE..] == rest && (blocks[0] < 0x40 <==> aad == [])
            && blocks[1..BLOCK_SIZE - l] == nonce && blocks[BLOCK_SIZE - l..BLOCK_SIZE] == Be(|msg|, l)
  {
    hide Be;
  }

  lemma RestCanBeRead(aad: seq<byte>, msg: seq<byte>, zeros: seq<byte>)
    requires LengthPrefix(|aad|).Some?
    ensures var skip := |LengthPrefix(|aad|).value|;
            var used, rest := PaddedSize(skip + |aad|), PadZero(LengthPrefix(|aad|).value + aad) + msg + zeros;
            && (aad != [] ==> ReadLengthPrefix(rest) == Some((|aad|, skip)))
            && (aad == [] ==> skip == 0)
            && used + |msg| <= |rest| && rest[skip..skip + |aad|] == aad && rest[used..used + |msg|] == msg
  {
    hide Be, FromBe, ReadLengthPrefix, Zeros;
    var prefix := LengthPrefix(|aad|).value;
    var padded := PadZero(prefix + aad);
    var rest := padded + msg + zeros;
    PartsBehindPrefix(prefix, aad, msg, zeros);
    if aad != [] {
      hide LengthPrefix, PadZero;
      PrefixIsReadBack(|aad|, aad + rest[|prefix| + |aad|..]);
    }
  }

  lemma PartsBehindPrefix(prefix: seq<byte>, aad: seq<byte>, msg: seq<byte>, zeros: seq<byte>)
    ensures var padded := PadZero(prefix + aad);
            var rest := padded + msg + zeros;
            && |padded| == PaddedSize(|prefix| + |aad|)
            && rest[|prefix|..|prefix| + |aad|] == aad && rest[|padded|..|padded| + |msg|] == msg
            && rest == prefix + (aad + rest[|prefix| + |aad|..])
  {
    hide Zeros;
    var padded := PadZero(prefix + aad);
    var rest := padded + msg + zeros;
    assert padded == prefix + aad + padded[|prefix| + |aad|..];
    assert rest == prefix + aad + padded[|prefix| + |aad|..] + msg + zeros;
  }

  /** Two different inputs never present the same blocks to CBC-MAC. */
  lemma FormattingIsInjective(m: IntegrityCode, l: LengthSize, a: Parts, b: Parts)
    requires Authenticated(m, l, a.nonce, a.aad, a.msg).Some? && Authenticated(m, l, b.nonce, b.aad, b.msg).Some?
    requires PadZero(Authenticated(m, l, a.nonce, a.aad, a.msg).value) == PadZero(Authenticated(m, l, b.nonce, b.aad, b.msg).value)
    ensures a == b
  {
    hide Authenticated, Recover;
    AuthenticatedCanBeRead(m, l, a.nonce, a.aad, a.msg);
    AuthenticatedCanBeRead(m, l, b.nonce, b.aad, b.msg);
  }

  // ----- Encryption and decryption as functions

  function CounterBlock(l: LengthSize, nonce: seq<byte>): (r: Block)
    requires |nonce| == NONCE_SIZE - l
  {
    [l - 1] + nonce + Zeros(l)
  }

  function Stream(keystream: Keystream, iv: Block, from: nat, n: nat): (r: seq<byte>)
    ensures |r| == n
  {
    seq(n, i requires 0 <= i < n => keystream(iv, from + i))
  }

  function ShortNonce(ccm: CcmStar, nonce: Nonce): (r: seq<byte>)
    ensures |r| == NONCE_SIZE - ccm.lengthSize
  {
    nonce[..NONCE_SIZE - ccm.lengthSize]
  }

  /** Octets 0 to 15 of the keystream hide the tag, the octets from 16 on the message. */
  function TagStream(ccm: CcmStar, nonce: Nonce, n: nat): (r: seq<byte>)
    ensures |r| == n
  {
    Stream(ccm.keystream, CounterBlock(ccm.lengthSize, ShortNonce(ccm, nonce)), 0, n)
  }

  function MessageStream(ccm: CcmStar, nonce: Nonce, n: nat): (r: seq<byte>)
    ensures |r| == n
  {
    Stream(ccm.keystream, CounterBlock(ccm.lengthSize, ShortNonce(ccm, nonce)), BLOCK_SIZE, n)
  }

  function Ciphertext(ccm: CcmStar, nonce: Nonce, aad: seq<byte>, msg: seq<byte>): Result<seq<byte>, Error> {
    match Tag(ccm, ShortNonce(ccm, nonce), aad, msg)
    case Err(e) => Err(e)
    case Ok(mac) =>
      var size := TagSize(ccm.code);
      Ok(XorSeq(msg, MessageStream(ccm, nonce, |msg|)) + XorSeq(mac[..size], TagStream(ccm, nonce, size)))
  }

  function Plaintext(ccm: CcmStar, nonce: Nonce, aad: seq<byte>, ciphertext: seq<byte>): Result<seq<byte>, Error> {
    var size := TagSize(ccm.code);
    if |ciphertext| < size then Err(AeadError)
    else
      var n := |ciphertext| - size;
      var msg := XorSeq(ciphertext[..n], MessageStream(ccm, nonce, n));
      if size == 0 then Ok(msg)
      else
        match Tag(ccm, ShortNonce(ccm, nonce), aad, msg)
        case Err(e) => Err(e)
        case Ok(mac) =>
          if mac[..size] == XorSeq(ciphertext[n..], TagStream(ccm, nonce, size)) then Ok(msg) else Err(AeadError)
  }

  // ----- What the two promise each other

  /** A message fits when its length fits the length field, and that of the associated data 64 bits. */
  predicate Encryptable(ccm: CcmStar, aad: seq<byte>, msg: seq<byte>) {
    |msg| < Pow256(ccm.lengthSize) && |aad| < 0x1_0000_0000_0000_0000
  }

  lemma EncryptionSucceedsIff(ccm: CcmStar, nonce: Nonce, aad: seq<byte>, msg: seq<byte>)
    ensures Ciphertext(ccm, nonce, aad, msg).Ok? <==> Encryptable(ccm, aad, msg)
    ensures Encryptable(ccm, aad, msg) ==> |Ciphertext(ccm, nonce, aad, msg).value| == |msg| + TagSize(ccm.code)
  {
    hide Pow256, Be, CbcMacs.CbcMac;
  }

  lemma XorSeqOf(a: seq<byte>, b: seq<byte>, c: seq<byte>)
    requires |a| == |b| && c == XorSeq(a, b)
    ensures XorSeq(c, b) == a
  {
    XorSeqTwice(a, b);
  }

  /** Decryption undoes every successful encryption. */
  lemma DecryptionUndoesEncryption(ccm: CcmStar, nonce: Nonce, aad: seq<byte>, msg: seq<byte>)
    requires Encryptable(ccm, aad, msg)
    ensures Ciphertext(ccm, nonce, aad, msg).Ok?
    ensures Plaintext(ccm, nonce, aad, Ciphertext(ccm, nonce, aad, msg).value) == Ok(msg)
  {
    EncryptionSucceedsIff(ccm, nonce, aad, msg);
    hide Tag, XorSeq, Stream, Pow256;
    var size := TagSize(ccm.code);
    var mac := Tag(ccm, ShortNonce(ccm, nonce), aad, msg).value;
    var hidden, hiddenTag := XorSeq(msg, MessageStream(ccm, nonce, |msg|)), XorSeq(mac[..size], TagStream(ccm, nonce, size));
    var c := Ciphertext(ccm, nonce, aad, msg).value;
    assert c == hidden + hiddenTag;
    assert c[..|msg|] == hidden && c[|msg|..] == hiddenTag;
    XorSeqOf(msg, MessageStream(ccm, nonce, |msg|), hidden);
    XorSeqOf(mac[..size], TagStream(ccm, nonce, size), hiddenTag);
  }

  /** What decrypts to a message that can be encrypted is the encryption of that message. */
  lemma DecryptedWasEncrypted(ccm: CcmStar, nonce: Nonce, aad: seq<byte>, ciphertext: seq<byte>)
    requires Plaintext(ccm, nonce, aad, ciphertext).Ok?
    requires Encryptable(ccm, aad, Plaintext(ccm, nonce, aad, ciphertext).value)
    ensures Ciphertext(ccm, nonce, aad, Plaintext(ccm, nonce, aad, ciphertext).value) == Ok(ciphertext)
  {
    var msg := Plaintext(ccm, nonce, aad, ciphertext).value;
    EncryptionSucceedsIff(ccm, nonce, aad, msg);
    hide Tag, XorSeq, Stream, Pow256;
    var size := TagSize(ccm.code);
    var n := |ciphertext| - size;
    var mac := Tag(ccm, ShortNonce(ccm, nonce), aad, msg).value;
    XorSeqOf(ciphertext[..n], MessageStream(ccm, nonce, n), msg);
    if size > 0 {
      XorSeqOf(ciphertext[n..], TagStream(ccm, nonce, size), mac[..size]);
    } else {
      assert XorSeq(mac[..size], TagStream(ccm, nonce, size)) == [];
      assert ciphertext[..n] == ciphertext;
    }
    assert ciphertext == ciphertext[..n] + ciphertext[n..];
  }

  /**
   * Decryption accepts exactly the ciphertexts that encryption makes. Without a tag it accepts
   * everything, so there it also accepts what is too long for encryption to have made it.
   */
  lemma AcceptsExactlyEncryptions(ccm: CcmStar, nonce: Nonce, aad: seq<byte>, ciphertext: seq<byte>, msg: seq<byte>)
    ensures Ciphertext(ccm, nonce, aad, msg) == Ok(ciphertext)
            <==> Plaintext(ccm, nonce, aad, ciphertext) == Ok(msg) && Encryptable(ccm, aad, msg)
    ensures Plaintext(ccm, nonce, aad, ciphertext) == Ok(msg) && TagSize(ccm.code) > 0 ==> Encryptable(ccm, aad, msg)
    ensures TagSize(ccm.code) == 0 ==> Plaintext(ccm, nonce, aad, ciphertext).Ok?
  {
    EncryptionSucceedsIff(ccm, nonce, aad, msg);
    if Plaintext(ccm, nonce, aad, ciphertext) == Ok(msg) {
      if Encryptable(ccm, aad, msg) {
        DecryptedWasEncrypted(ccm, nonce, aad, ciphertext);
      }
    }
    if Ciphertext(ccm, nonce, aad, msg) == Ok(ciphertext) {
      DecryptionUndoesEncryption(ccm, nonce, aad, msg);
    }
  }

  // ----- Implementation

  /** A counter-mode stream cipher at some position of its keystream. */
  class Ctr {
    const keystream: Keystream
    const iv: Block
    var position: nat

    constructor (keystream: Keystream, iv: Block)
      ensures this.keystream == keystream && this.iv == iv && position == 0
    {
      this.keystream := keystream;
      this.iv := iv;
      position := 0;
    }

    method ApplyKeystream(data: array<byte>)
      modifies this`position, data
      ensures data[..] == XorSeq(old(data[..]), Stream(keystream, iv, old(position), data.Length))
      ensures position == old(position) + data.Length
    {
      hide Xor;
      for i := 0 to data.Length
        invariant position == old(position) + i
        invariant forall k | 0 <= k < i :: data[k] == Xor(old(data[k]), keystream(iv, old(position) + k))
        invariant forall k | i <= k < data.Length :: data[k] == old(data[k])
      {
        data[i] := Xor(data[i], keystream(iv, position));
        position := position + 1;
      }
    }
  }

  /** Length prefix and associated data, padded, and then the message. */
  method PushAuthData(aad: seq<byte>, msg: seq<byte>) returns (r: Result<seq<byte>, Error>)
    ensures LengthPrefix(|aad|).None? ==> r == Err(AeadError)
    ensures LengthPrefix(|aad|).Some? ==> r == Ok(PadZero(LengthPrefix(|aad|).value + aad) + msg)
  {
    hide Be, Zeros, PadZero;
    var authData: seq<byte> := [];
    if |aad| == 0 {
    } else if |aad| < 0xFF00 {
      authData := Be(|aad|, 2);
    } else if |aad| < 0x1_0000_0000 {
      authData := Be(0xFFFE, 2) + Be(|aad|, 4);
    } else if |aad| < 0x1_0000_0000_0000_0000 {
      authData := Be(0xFFFF, 2) + Be(|aad|, 8);
    } else {
      return Err(AeadError);
    }
    Markers();
    authData := authData + aad;
    authData := PadToBlock(authData);
    r := Ok(authData + msg);
  }

  method CalculateTag(ccm: CcmStar, aad: seq<byte>, msg: seq<byte>, nonce: seq<byte>) returns (r: Result<Block, Error>)
    ensures r == Tag(ccm, nonce, aad, msg)
  {
    hide Be, Pow256, ShiftRight, CbcMacs.CbcMac, LengthPrefix, PadZero, AuthFlags;
    var authData := PushAuthData(aad, msg);
    if authData.Err? {
      return Err(authData.error);
    }
    var first := [AuthFlags(ccm.code, ccm.lengthSize, |aad| > 0)] + nonce;
    ShiftedOut(|msg|, ccm.lengthSize);
    if ShiftRight(|msg|, ccm.lengthSize) != 0 {
      return Err(AeadError);
    }
    var length := LengthField(ccm.lengthSize, |msg|);
    first := first + length;
    if |first| != BLOCK_SIZE {
      return Err(AeadError);
    }
    var mac := new CbcMacs.CbcMacState(ccm.encrypt);
    mac.Input(first);
    mac.Input(authData.value);
    var code := mac.Result();
    RegroupInput(first, PadZero(LengthPrefix(|aad|).value + aad), msg);
    r := Ok(code);
  }

  lemma RegroupInput(first: seq<byte>, padded: seq<byte>, msg: seq<byte>)
    ensures [] + first + (padded + msg) == first + padded + msg
  {
  }

  lemma Markers()
    ensures Be(0xFFFE, 2) == [0xFF, 0xFE] && Be(0xFFFF, 2) == [0xFF, 0xFF]
  {
  }

  /** The padding loop. */
  method PadToBlock(data: seq<byte>) returns (r: seq<byte>)
    ensures r == PadZero(data)
  {
    r := data;
    while |r| % BLOCK_SIZE != 0
      invariant |data| <= |r| <= |PadZero(data)|
      invariant r == data + Zeros(|r| - |data|)
      decreases |PadZero(data)| - |r|
    {
      r := r + [0];
    }
  }

  /** The loop that writes the message length, most significant octet first. */
  method LengthField(l: LengthSize, n: nat) returns (r: seq<byte>)
    ensures r == Be(n, l)
  {
    hide Be, ShiftRight;
    r := [];
    for i := 0 to l
      invariant r == Be(n, l)[..i]
    {
      BeAt(n, l, i);
      r := r + [ShiftRight(n, l - i - 1) % 0x100];
    }
  }

  method CreateCtr(ccm: CcmStar, nonce: seq<byte>) returns (ctr: Ctr)
    requires |nonce| == NONCE_SIZE - ccm.lengthSize
    ensures fresh(ctr) && ctr.keystream == ccm.keystream && ctr.iv == CounterBlock(ccm.lengthSize, nonce) && ctr.position == 0
  {
    var counterNonce := new byte[BLOCK_SIZE](_ => 0);
    counterNonce[0] := ccm.lengthSize - 1;
    for i := 0 to |nonce|
      invariant counterNonce[0] == ccm.lengthSize - 1
      invariant forall k | 0 <= k < i :: counterNonce[k + 1] == nonce[k]
      invariant forall k | i < k < BLOCK_SIZE :: counterNonce[k] == 0
    {
      counterNonce[i + 1] := nonce[i];
    }
    assert counterNonce[..] == CounterBlock(ccm.lengthSize, nonce);
    ctr := new Ctr(ccm.keystream, counterNonce[..]);
  }

  lemma StreamPrefix(keystream: Keystream, iv: Block, a: seq<byte>, k: nat)
    requires k <= |a|
    ensures XorSeq(a, Stream(keystream, iv, 0, |a|))[..k] == XorSeq(a[..k], Stream(keystream, iv, 0, k))
  {
    hide Xor;
  }

  method Encrypt(ccm: CcmStar, nonce: Nonce, aad: seq<byte>, msg: seq<byte>) returns (r: Result<seq<byte>, Error>)
    ensures r == Ciphertext(ccm, nonce, aad, msg)
  {
    hide Tag, XorSeq, Stream, CounterBlock;
    var short := nonce[..NONCE_SIZE - ccm.lengthSize];
    var tag := CalculateTag(ccm, aad, msg, short);
    if tag.Err? {
      return Err(tag.error);
    }
    var mac := ToArray(tag.value);
    var ctr := CreateCtr(ccm, short);
    ctr.ApplyKeystream(mac);
    var output := ToArray(msg);
    ctr.ApplyKeystream(output);
    StreamPrefix(ccm.keystream, ctr.iv, tag.value, TagSize(ccm.code));
    r := Ok(output[..] + mac[..TagSize(ccm.code)]);
  }

  method Decrypt(ccm: CcmStar, nonce: Nonce, aad: seq<byte>, ciphertext: seq<byte>) returns (r: Result<seq<byte>, Error>)
    ensures r == Plaintext(ccm, nonce, aad, ciphertext)
  {
    hide Tag, XorSeq, Stream, CounterBlock;
    var short := nonce[..NONCE_SIZE - ccm.lengthSize];
    var size := TagSize(ccm.code);
    if |ciphertext| < size {
      return Err(AeadError);
    }
    var ctr := CreateCtr(ccm, short);
    var n := |ciphertext| - size;
    var tag := new byte[BLOCK_SIZE](_ => 0);
    for i := 0 to size
      invariant ctr.position == 0
      invariant forall k | 0 <= k < i :: tag[k] == ciphertext[n + k]
    {
      tag[i] := ciphertext[n + i];
    }
    ghost var received := tag[..];
    assert received[..size] == ciphertext[n..];
    ctr.ApplyKeystream(tag);
    StreamPrefix(ccm.keystream, ctr.iv, received, size);
    var plaintext := ToArray(ciphertext[..n]);
    assert plaintext[..] == ciphertext[..n] && plaintext.Length == n;
    ctr.ApplyKeystream(plaintext);
    var msg := plaintext[..];
    assert msg == XorSeq(ciphertext[..n], MessageStream(ccm, nonce, n));
    assert tag[..size] == XorSeq(ciphertext[n..], TagStream(ccm, nonce, size));
    if size > 0 {
      var mac := CalculateTag(ccm, aad, msg, short);
      if mac.Err? {
        return Err(mac.error);
      }
      if mac.value[..size] != tag[..size] {
        return Err(AeadError);
      }
    }
    r := Ok(msg);
  }
}
