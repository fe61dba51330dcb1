/**
 * Secured frames, `old_src/zigbee/security/mod.rs`: key selection, nonce and associated data, and
 * CCM* with or without hiding the payload. Addresses and counters are little-endian on the wire.
 */
module SecuredFrames {
  import opened Prelude
  import opened Octets
  import opened BlockCiphers
  import Ccm = CcmStars

  datatype KeyIdentifier = DataKey | NetworkKey(sequenceNumber: byte) | KeyTransportKey | KeyLoadKey

  datatype KeyStore = KeyStore(data: Option<Block>, network: map<byte, Block>, keyTransport: Option<Block>, keyLoad: Option<Block>)

  datatype MicLength = NoMic | Mic32 | Mic64 | Mic128

  datatype SecurityLevel = SecurityLevel(encryption: bool, mic: MicLength)

  datatype SecuredData = SecuredData(keyIdentifier: KeyIdentifier, frameCounter: u32, extendedSource: Option<u64>, payload: seq<byte>)

  /** The cipher and its counter mode under a key, and the keyed hash that derives keys. */
  datatype Primitives = Primitives(aes: (Block, Block) -> Block, ctr: (Block, Block, nat) -> byte, hmac: (Block, seq<byte>) -> Block)

  datatype Error = NotEnoughData | UnexpectedData

  // ----- Control octet, nonce and associated data

  function MicCode(mic: MicLength): nat {
    match mic
    case NoMic => 0
    case Mic32 => 1
    case Mic64 => 2
    case Mic128 => 3
  }

  function IntegrityCode(mic: MicLength): Ccm.IntegrityCode {
    match mic
    case NoMic => 0
    case Mic32 => 1
    case Mic64 => 3
    case Mic128 => 7
  }

  function LevelCode(level: SecurityLevel): (r: nat)
    ensures r < 8
  {
    MicCode(level.mic) + if level.encryption then 4 else 0
  }

  function KeyTag(id: KeyIdentifier): (r: nat)
    ensures r < 4
  {
    match id
    case DataKey => 0
    case NetworkKey(_) => 1
    case KeyTransportKey => 2
    case KeyLoadKey => 3
  }

  function Control(levelCode: nat, id: KeyIdentifier, extended: bool): byte
    requires levelCode < 8
  {
    levelCode + 8 * KeyTag(id) + if extended then 0x20 else 0
  }

  function SourceBytes(source: Option<u64>): seq<byte> {
    if source.Some? then Le(source.value, 8) else []
  }

  function Sequence(id: KeyIdentifier): seq<byte> {
    if id.NetworkKey? then [id.sequenceNumber] else []
  }

  function Header(levelCode: nat, id: KeyIdentifier, counter: u32, extendedSource: Option<u64>): seq<byte>
    requires levelCode < 8
  {
    [Control(levelCode, id, extendedSource.Some?)] + Le(counter, 4)
      + SourceBytes(extendedSource) + Sequence(id)
  }

  function NonceOf(id: KeyIdentifier, counter: u32, extended: bool, level: SecurityLevel, source: u64): Ccm.Nonce {
    Le(source, 8) + Le(counter, 4) + [Control(LevelCode(level), id, extended)] + Zeros(2)
  }

  lemma ControlTells(id: KeyIdentifier, extended: bool, level: SecurityLevel)
    ensures var c := Control(LevelCode(level), id, extended);
            c % 8 == LevelCode(level) && c / 8 % 4 == KeyTag(id) && (c / 0x20 % 2 == 1 <==> extended) && c < 0x40
  {
  }

  /** Whoever uses the same nonce twice has used the same source, frame counter, level and kind of key. */
  lemma NonceIsInjective(a: SecuredData, b: SecuredData, levelA: SecurityLevel, levelB: SecurityLevel, sourceA: u64, sourceB: u64)
    requires var nonceA, nonceB := NonceOf(a.keyIdentifier, a.frameCounter, a.extendedSource.Some?, levelA, sourceA),
                                   NonceOf(b.keyIdentifier, b.frameCounter, b.extendedSource.Some?, levelB, sourceB);
             nonceA[..Ccm.NONCE_SIZE - 2] == nonceB[..Ccm.NONCE_SIZE - 2]
    ensures sourceA == sourceB && a.frameCounter == b.frameCounter && levelA == levelB
    ensures KeyTag(a.keyIdentifier) == KeyTag(b.keyIdentifier) && (a.extendedSource.Some? <==> b.extendedSource.Some?)
  {
    hide Le, Control;
    var s, t := NonceOf(a.keyIdentifier, a.frameCounter, a.extendedSource.Some?, levelA, sourceA)[..13],
                NonceOf(b.keyIdentifier, b.frameCounter, b.extendedSource.Some?, levelB, sourceB)[..13];
    assert s[..8] == Le(sourceA, 8) && t[..8] == Le(sourceB, 8);
    assert s[8..12] == Le(a.frameCounter, 4) && t[8..12] == Le(b.frameCounter, 4);
    assert s[12] == t[12];
    PowersOf256();
    LeInjective(sourceA, sourceB, 8);
    LeInjective(a.frameCounter, b.frameCounter, 4);
    ControlTells(a.keyIdentifier, a.extendedSource.Some?, levelA);
    ControlTells(b.keyIdentifier, b.extendedSource.Some?, levelB);
  }

  // ----- Wire format

  /** On the wire the security level is left out. */
  function Serialize(d: SecuredData): seq<byte> {
    Header(0, d.keyIdentifier, d.frameCounter, d.extendedSource) + d.payload
  }

  function DeserializeKeyIdentifier(tag: nat, input: seq<byte>): Result<(KeyIdentifier, seq<byte>), Error> {
    if tag == 0 then Ok((DataKey, input))
    else if tag == 1 then
      if input == [] then Err(NotEnoughData) else Ok((NetworkKey(input[0]), input[1..]))
    else if tag == 2 then Ok((KeyTransportKey, input))
    else if tag == 3 then Ok((KeyLoadKey, input))
    else Err(UnexpectedData)
  }

  function Deserialize(input: seq<byte>): Result<SecuredData, Error> {
    if input == [] then Err(NotEnoughData)
    else if input[0] % 8 != 0 then Err(UnexpectedData)
    else
      match TakeLe(4, input[1..])
      case None => Err(NotEnoughData)
      case Some((counter, afterCounter)) =>
        PowersOf256();
        match if input[0] / 0x20 % 2 != 0 then TakeLe(8, afterCounter) else Some((0, afterCounter))
        case None => Err(NotEnoughData)
        case Some((source, afterSource)) =>
          match DeserializeKeyIdentifier(input[0] / 8 % 4, afterSource)
          case Err(e) => Err(e)
          case Ok((id, payload)) =>
            Ok(SecuredData(id, counter, if input[0] / 0x20 % 2 != 0 then Some(source) else None, payload))
  }

  lemma TakesKeyIdentifier(id: KeyIdentifier, rest: seq<byte>)
    ensures DeserializeKeyIdentifier(KeyTag(id), Sequence(id) + rest) == Ok((id, rest))
  {
    assert (Sequence(id) + rest)[|Sequence(id)|..] == rest;
  }

  lemma KeyIdentifierTaken(tag: nat, input: seq<byte>)
    requires DeserializeKeyIdentifier(tag, input).Ok?
    ensures var (id, rest) := DeserializeKeyIdentifier(tag, input).value; KeyTag(id) == tag && Sequence(id) + rest == input
  {
  }

  lemma DeserializeUndoesSerialize(d: SecuredData)
    ensures Deserialize(Serialize(d)) == Ok(d)
  {
    hide TakeLe, Le, Pow256;
    var id := d.keyIdentifier;
    var sequence := Sequence(id);
    var source := SourceBytes(d.extendedSource);
    var s := Serialize(d);
    ControlTells(id, d.extendedSource.Some?, SecurityLevel(false, NoMic));
    PowersOf256();
    assert s[1..] == Le(d.frameCounter, 4) + (source + (sequence + d.payload));
    TakesLe(d.frameCounter, 4, source + (sequence + d.payload));
    if d.extendedSource.Some? {
      TakesLe(d.extendedSource.value, 8, sequence + d.payload);
    } else {
      assert source + (sequence + d.payload) == sequence + d.payload;
    }
    TakesKeyIdentifier(id, d.payload);
  }

  lemma ControlRead(c: byte, id: KeyIdentifier, extended: bool)
    requires c % 8 == 0 && KeyTag(id) == c / 8 % 4 && (extended <==> c / 0x20 % 2 != 0)
    ensures Control(0, id, extended) == c % 0x40
  {
  }

  lemma PartsRead(input: seq<byte>)
    requires Deserialize(input).Ok?
    ensures var d := Deserialize(input).value;
            && input[0] % 8 == 0 && KeyTag(d.keyIdentifier) == input[0] / 8 % 4
            && (d.extendedSource.Some? <==> input[0] / 0x20 % 2 != 0)
            && input[1..] == Le(d.frameCounter, 4) + (SourceBytes(d.extendedSource) + (Sequence(d.keyIdentifier) + d.payload))
  {
    hide TakeLe, Le, Pow256, DeserializeKeyIdentifier, KeyTag, Sequence;
    var afterCounter := TakeLe(4, input[1..]).value.1;
    var extended := input[0] / 0x20 % 2 != 0;
    var afterSource := if extended then TakeLe(8, afterCounter).value.1 else afterCounter;
    KeyIdentifierTaken(input[0] / 8 % 4, afterSource);
    if !extended {
      assert [] + afterSource == afterSource;
    }
  }

  /** What was read is written back octet for octet, exactly if the two reserved bits are zero. */
  lemma SerializeUndoesDeserializeIff(input: seq<byte>)
    requires Deserialize(input).Ok?
    ensures Serialize(Deserialize(input).value) == input <==> input[0] < 0x40
    ensures Serialize(Deserialize(input).value)[1..] == input[1..]
  {
    PartsRead(input);
    var d := Deserialize(input).value;
    RegroupSerialized(d);
    hide Deserialize, Serialize, Le, Control, KeyTag, Sequence;
    ControlRead(input[0], d.keyIdentifier, d.extendedSource.Some?);
    SameButFirst(input, Serialize(d));
  }

  lemma SameButFirst(a: seq<byte>, b: seq<byte>)
    requires |a| == |b| > 0 && a[1..] == b[1..]
    ensures a == b <==> a[0] == b[0]
  {
    assert a == [a[0]] + a[1..] && b == [b[0]] + b[1..];
  }

  lemma RegroupSerialized(d: SecuredData)
    ensures |Serialize(d)| > 0 && Serialize(d)[0] == Control(0, d.keyIdentifier, d.extendedSource.Some?)
    ensures Serialize(d)[1..] == Le(d.frameCounter, 4) + (SourceBytes(d.extendedSource) + (Sequence(d.keyIdentifier) + d.payload))
  {
    hide Le, Control, Sequence;
  }

  // ----- Encryption and decryption as functions

  /** The key for loading keys is derived from the transport key too; the stored load key is never read. */
  function EncryptionKey(p: Primitives, id: KeyIdentifier, store: KeyStore): Option<Block> {
    match id
    case DataKey => store.data
    case NetworkKey(n) => if n in store.network then Some(store.network[n]) else None
    case KeyTransportKey => if store.keyTransport.Some? then Some(p.hmac(store.keyTransport.value, [0])) else None
    case KeyLoadKey => if store.keyTransport.Some? then Some(p.hmac(store.keyTransport.value, [2])) else None
  }

  /** Replacing the stored load key changes no key. */
  lemma LoadKeyIsIgnored(p: Primitives, id: KeyIdentifier, store: KeyStore, loadKey: Option<Block>)
    ensures EncryptionKey(p, id, store.(keyLoad := loadKey)) == EncryptionKey(p, id, store)
  {
  }

  function CcmStarOf(p: Primitives, key: Block, level: SecurityLevel): Ccm.CcmStar {
    Ccm.CcmStar(block => p.aes(key, block), (iv, i) => p.ctr(key, iv, i), IntegrityCode(level.mic), 2)
  }

  /** CCM* of a payload: hidden and authenticated, or in the clear and followed by its tag. */
  function Seal(ccm: Ccm.CcmStar, nonce: Ccm.Nonce, aad: seq<byte>, plaintext: seq<byte>, encryption: bool): Option<seq<byte>> {
    match if encryption then Ccm.Ciphertext(ccm, nonce, aad, plaintext) else Ccm.Ciphertext(ccm, nonce, aad + plaintext, [])
    case Err(_) => None
    case Ok(bytes) => Some(if encryption then bytes else plaintext + bytes)
  }

  function Open(ccm: Ccm.CcmStar, nonce: Ccm.Nonce, aad: seq<byte>, payload: seq<byte>, encryption: bool): Option<seq<byte>> {
    if encryption then
      match Ccm.Plaintext(ccm, nonce, aad, payload)
      case Err(_) => None
      case Ok(plaintext) => Some(plaintext)
    else
      var size := Ccm.TagSize(ccm.code);
      if |payload| < size then None
      else
        var message, tag := payload[..|payload| - size], payload[|payload| - size..];
        if Ccm.Plaintext(ccm, nonce, aad + message, tag).Ok? then Some(message) else None
  }

  /** Sender and receiver share these. */
  datatype Context = Context(primitives: Primitives, store: KeyStore, level: SecurityLevel, source: u64)

  function Encrypted(c: Context, plaintext: seq<byte>, aad: seq<byte>, id: KeyIdentifier, counter: u32, extended: bool): Option<SecuredData> {
    var source := if extended then Some(c.source) else None;
    match EncryptionKey(c.primitives, id, c.store)
    case None => None
    case Some(key) =>
      match Seal(CcmStarOf(c.primitives, key, c.level), NonceOf(id, counter, extended, c.level, c.source),
                 aad + Header(LevelCode(c.level), id, counter, source), plaintext, c.level.encryption)
      case None => None
      case Some(payload) => Some(SecuredData(id, counter, source, payload))
  }

  function Decrypted(c: Context, d: SecuredData, aad: seq<byte>): Option<seq<byte>> {
    var source := if d.extendedSource.Some? then d.extendedSource.value else c.source;
    match EncryptionKey(c.primitives, d.keyIdentifier, c.store)
    case None => None
    case Some(key) =>
      Open(CcmStarOf(c.primitives, key, c.level), NonceOf(d.keyIdentifier, d.frameCounter, d.extendedSource.Some?, c.level, source),
           aad + Header(LevelCode(c.level), d.keyIdentifier, d.frameCounter, d.extendedSource), d.payload, c.level.encryption)
  }

  // ----- What the two promise each other

  /** Hidden payloads must fit the 16-bit length field; everything in the clear counts as associated data. */
  predicate Sealable(aad: seq<byte>, plaintext: seq<byte>, encryption: bool) {
    if encryption then |plaintext| < 0x1_0000 && |aad| < 0x1_0000_0000_0000_0000
    else |aad| + |plaintext| < 0x1_0000_0000_0000_0000
  }

  /** Opening gives exactly what was sealed, in both modes. */
  lemma OpensExactlySeals(ccm: Ccm.CcmStar, nonce: Ccm.Nonce, aad: seq<byte>, plaintext: seq<byte>, encryption: bool, payload: seq<byte>)
    requires ccm.lengthSize == 2
    ensures Seal(ccm, nonce, aad, plaintext, encryption) == Some(payload)
            <==> Open(ccm, nonce, aad, payload, encryption) == Some(plaintext) && Sealable(aad, plaintext, encryption)
    ensures Seal(ccm, nonce, aad, plaintext, encryption).Some? <==> Sealable(aad, plaintext, encryption)
  {
    hide Ccm.Ciphertext, Ccm.Plaintext, Pow256;
    PowersOf256();
    if encryption {
      Ccm.EncryptionSucceedsIff(ccm, nonce, aad, plaintext);
      Ccm.AcceptsExactlyEncryptions(ccm, nonce, aad, payload, plaintext);
    } else {
      ClearOpensExactlySeals(ccm, nonce, aad, plaintext, payload);
    }
  }

  lemma ClearOpensExactlySeals(ccm: Ccm.CcmStar, nonce: Ccm.Nonce, aad: seq<byte>, plaintext: seq<byte>, payload: seq<byte>)
    requires ccm.lengthSize == 2
    ensures Seal(ccm, nonce, aad, plaintext, false) == Some(payload)
            <==> Open(ccm, nonce, aad, payload, false) == Some(plaintext) && Sealable(aad, plaintext, false)
    ensures Seal(ccm, nonce, aad, plaintext, false).Some? <==> Sealable(aad, plaintext, false)
  {
    hide Ccm.Ciphertext, Pow256;
    PowersOf256();
    var size, all := Ccm.TagSize(ccm.code), aad + plaintext;
    Ccm.EncryptionSucceedsIff(ccm, nonce, all, []);
    if |payload| >= size {
      var message, tag := payload[..|payload| - size], payload[|payload| - size..];
      assert payload == message + tag;
      TagIsEmptyMessage(ccm, nonce, aad + message, tag);
      Ccm.AcceptsExactlyEncryptions(ccm, nonce, aad + message, tag, []);
      if Seal(ccm, nonce, aad, plaintext, false) == Some(payload) {
        assert payload[..|plaintext|] == plaintext;
        assert message == plaintext && Ccm.Ciphertext(ccm, nonce, all, []) == Ok(tag) by {
          var bytes := Ccm.Ciphertext(ccm, nonce, all, []).value;
          assert payload == plaintext + bytes;
          assert payload[|plaintext|..] == bytes;
        }
      }
    }
  }

  /** A bare tag can only decrypt to the empty message. */
  lemma TagIsEmptyMessage(ccm: Ccm.CcmStar, nonce: Ccm.Nonce, aad: seq<byte>, tag: seq<byte>)
    requires |tag| == Ccm.TagSize(ccm.code)
    ensures Ccm.Plaintext(ccm, nonce, aad, tag).Ok? <==> Ccm.Plaintext(ccm, nonce, aad, tag) == Ok([])
  {
    hide Ccm.Tag, Xor;
    var msg := XorSeq(tag[..0], Ccm.MessageStream(ccm, nonce, 0));
    assert msg == [];
  }

  /**
   * A secured frame is accepted, with this plaintext, exactly if it is the one that the sender makes
   * of that plaintext. A frame that names its source is opened whatever source the receiver assumes.
   */
  lemma DecryptsExactlyEncrypted(c: Context, assumed: u64, d: SecuredData, plaintext: seq<byte>, aad: seq<byte>)
    requires d.extendedSource == Some(c.source) || (d.extendedSource.None? && assumed == c.source)
    ensures var header := Header(LevelCode(c.level), d.keyIdentifier, d.frameCounter, d.extendedSource);
            Encrypted(c, plaintext, aad, d.keyIdentifier, d.frameCounter, d.extendedSource.Some?) == Some(d)
            <==> Decrypted(c.(source := assumed), d, aad) == Some(plaintext) && Sealable(aad + header, plaintext, c.level.encryption)
  {
    hide Seal, Open, Header, Sealable, NonceOf;
    match EncryptionKey(c.primitives, d.keyIdentifier, c.store)
    case None =>
    case Some(key) =>
      OpensExactlySeals(CcmStarOf(c.primitives, key, c.level),
                        NonceOf(d.keyIdentifier, d.frameCounter, d.extendedSource.Some?, c.level, c.source),
                        aad + Header(LevelCode(c.level), d.keyIdentifier, d.frameCounter, d.extendedSource),
                        plaintext, c.level.encryption, d.payload);
  }

  /** Every encryption that succeeds can be sent, read and decrypted to what it was made of. */
  lemma DecryptionUndoesEncryption(c: Context, assumed: u64, plaintext: seq<byte>, aad: seq<byte>, id: KeyIdentifier, counter: u32, extended: bool)
    requires extended || assumed == c.source
    requires Encrypted(c, plaintext, aad, id, counter, extended).Some?
    ensures var wire := Serialize(Encrypted(c, plaintext, aad, id, counter, extended).value);
            Deserialize(wire).Ok? && Decrypted(c.(source := assumed), Deserialize(wire).value, aad) == Some(plaintext)
  {
    hide Decrypted, Serialize, Deserialize, Seal;
    var d := Encrypted(c, plaintext, aad, id, counter, extended).value;
    DeserializeUndoesSerialize(d);
    DecryptsExactlyEncrypted(c, assumed, d, plaintext, aad);
  }

  // ----- Implementation

  method GenerateNonce(id: KeyIdentifier, counter: u32, extended: bool, level: SecurityLevel, source: u64) returns (nonce: Ccm.Nonce)
    ensures nonce == NonceOf(id, counter, extended, level, source)
  {
    hide Le, Control;
    var bytes := Le(source, 8);
    bytes := bytes + Le(counter, 4);
    bytes := bytes + [Control(LevelCode(level), id, extended)];
    while |bytes| < Ccm.NONCE_SIZE
      invariant 13 <= |bytes| <= Ccm.NONCE_SIZE
      invariant bytes == Le(source, 8) + Le(counter, 4) + [Control(LevelCode(level), id, extended)] + Zeros(|bytes| - 13)
    {
      bytes := bytes + [0];
    }
    nonce := bytes;
  }

  method GenerateAssociatedData(id: KeyIdentifier, counter: u32, extendedSource: Option<u64>, level: SecurityLevel,
                                target: seq<byte>)
    returns (r: seq<byte>)
    ensures r == target + Header(LevelCode(level), id, counter, extendedSource)
  {
    hide Le, Control;
    r := target + [Control(LevelCode(level), id, extendedSource.Some?)];
    r := r + Le(counter, 4);
    if extendedSource.Some? {
      r := r + Le(extendedSource.value, 8);
    }
    if id.NetworkKey? {
      r := r + [id.sequenceNumber];
    }
  }

  method Encrypt(c: Context, plaintext: seq<byte>, aad: seq<byte>, id: KeyIdentifier, counter: u32, extended: bool) returns (r: Option<SecuredData>)
    ensures r == Encrypted(c, plaintext, aad, id, counter, extended)
  {
    hide NonceOf, Header, Ccm.Ciphertext, EncryptionKey;
    var key := EncryptionKey(c.primitives, id, c.store);
    if key.None? {
      return None;
    }
    var nonce := GenerateNonce(id, counter, extended, c.level, c.source);
    var ccm := CcmStarOf(c.primitives, key.value, c.level);
    var source := if extended then Some(c.source) else None;
    var associated := GenerateAssociatedData(id, counter, source, c.level, aad);
    var payload;
    if c.level.encryption {
      var hidden := Ccm.Encrypt(ccm, nonce, associated, plaintext);
      if hidden.Err? {
        return None;
      }
      payload := hidden.value;
    } else {
      associated := associated + plaintext;
      var tag := Ccm.Encrypt(ccm, nonce, associated, []);
      if tag.Err? {
        return None;
      }
      payload := plaintext + tag.value;
    }
    r := Some(SecuredData(id, counter, source, payload));
  }

  method Decrypt(c: Context, d: SecuredData, aad: seq<byte>) returns (r: Option<seq<byte>>)
    ensures r == Decrypted(c, d, aad)
  {
    hide NonceOf, Header, Ccm.Plaintext, EncryptionKey;
    var key := EncryptionKey(c.primitives, d.keyIdentifier, c.store);
    if key.None? {
      return None;
    }
    var source := if d.extendedSource.Some? then d.extendedSource.value else c.source;
    var nonce := GenerateNonce(d.keyIdentifier, d.frameCounter, d.extendedSource.Some?, c.level, source);
    var ccm := CcmStarOf(c.primitives, key.value, c.level);
    var associated := GenerateAssociatedData(d.keyIdentifier, d.frameCounter, d.extendedSource, c.level, aad);
    if c.level.encryption {
      var plaintext := Ccm.Decrypt(ccm, nonce, associated, d.payload);
      return if plaintext.Ok? then Some(plaintext.value) else None;
    }
    var size := Ccm.TagSize(ccm.code);
    if |d.payload| < size {
      return None;
    }
    var start := |d.payload| - size;
    var message, tag := d.payload[..start], d.payload[start..];
    associated := associated + message;
    var checked := Ccm.Decrypt(ccm, nonce, associated, tag);
    r := if checked.Ok? then Some(message) else None;
  }
}
