/** The serial framing between host and radio stick: `src/radio/raw.rs`. */
module RawFraming {
  import opened Prelude

  // ----- Messages and their wire form

  datatype Command =
    | Prepare | Transmit | Send | ChannelClear | On | Off | GetValue | SetValue
    | GetObject | SetObject | InitPendingTable | SetPending | OkReply | ErrReply | OnPacket

  datatype Message = Message(command: Command, requestId: u16, data: seq<byte>)

  const MAGIC: seq<byte> := [0x5A, 0x50, 0x42] // "ZPB"
  const HEADER_LENGTH := 8
  const BUFFER_LENGTH := 0xFFFF

  function CommandTag(c: Command): byte {
    match c
    case Prepare => 0
    case Transmit => 1
    case Send => 2
    case ChannelClear => 3
    case On => 4
    case Off => 5
    case GetValue => 6
    case SetValue => 7
    case GetObject => 8
    case SetObject => 9
    case InitPendingTable => 10
    case SetPending => 11
    case OkReply => 0x80
    case ErrReply => 0x81
    case OnPacket => 0xC0
  }

  function CommandOf(tag: byte): Option<Command> {
    match tag
    case 0 => Some(Prepare)
    case 1 => Some(Transmit)
    case 2 => Some(Send)
    case 3 => Some(ChannelClear)
    case 4 => Some(On)
    case 5 => Some(Off)
    case 6 => Some(GetValue)
    case 7 => Some(SetValue)
    case 8 => Some(GetObject)
    case 9 => Some(SetObject)
    case 10 => Some(InitPendingTable)
    case 11 => Some(SetPending)
    case 0x80 => Some(OkReply)
    case 0x81 => Some(ErrReply)
    case 0xC0 => Some(OnPacket)
    case _ => None
  }

  /** The bytes of a message; data beyond 65535 bytes is cut off, as the 16-bit length field demands. */
  function Encode(m: Message): seq<byte> {
    var length := if |m.data| > 0xFFFF then 0xFFFF else |m.data|;
    MAGIC + [CommandTag(m.command)] + Be16(m.requestId) + Be16(length) + m.data[..length]
  }

  /** The length field of a frame whose header is complete. */
  function HeaderDataLength(s: seq<byte>): u16
    requires |s| >= HEADER_LENGTH
  {
    ReadBe16(s[6], s[7])
  }

  datatype ParseResult =
    | Incomplete
    | TagMismatch                            // the parser's only other error
    | UnknownCommand(tag: byte)              // unwrap of a failed conversion
    | Parsed(message: Message, remaining: seq<byte>)

  /** The streaming parser: it asks for more input before it looks at what is not there yet. */
  function Parse(s: seq<byte>): ParseResult {
    if |s| < |MAGIC| then
      if s == MAGIC[..|s|] then Incomplete else TagMismatch
    else if s[..3] != MAGIC then TagMismatch
    else if |s| < HEADER_LENGTH then Incomplete
    else match CommandOf(s[3])
      case None => UnknownCommand(s[3])
      case Some(c) =>
        var length := HeaderDataLength(s);
        if |s| < HEADER_LENGTH + length then Incomplete
        else Parsed(Message(c, ReadBe16(s[4], s[5]), s[8..8 + length]), s[8 + length..])
  }

  // ----- The reference decoder

  /** Where decoding of a finite stream stops: waiting with undecided bytes, or at a command that is not known. */
  datatype End = Waiting(kept: seq<byte>) | Stuck(tag: byte)

  datatype Decoded = Decoded(messages: seq<Message>, end: End) {
    function After(earlier: seq<Message>): Decoded {
      Decoded(earlier + messages, end)
    }
  }

  lemma AfterTwice(d: Decoded, first: seq<Message>, second: seq<Message>)
    ensures d.After(second).After(first) == d.After(first + second)
  {
    assert first + (second + d.messages) == first + second + d.messages;
  }

  /** Reads a whole stream from left to right, one byte or one frame at a time. */
  function Decode(s: seq<byte>): Decoded
    decreases |s|
  {
    if |s| < 3 then Decoded([], Waiting(s))
    else if s[..3] != MAGIC then Decode(s[1..])
    else if StartsWithFrame(s) then Decode(s[8 + HeaderDataLength(s)..]).After([FirstFrame(s)])
    else if |s| >= 8 && CommandOf(s[3]).None? then Decoded([], Stuck(s[3]))
    else Decoded([], Waiting(s))
  }

  predicate StartsWithFrame(s: seq<byte>) {
    |s| >= 8 && s[..3] == MAGIC && CommandOf(s[3]).Some? && |s| >= 8 + HeaderDataLength(s)
  }

  function FirstFrame(s: seq<byte>): Message
    requires StartsWithFrame(s)
  {
    Message(CommandOf(s[3]).value, ReadBe16(s[4], s[5]), s[8..8 + HeaderDataLength(s)])
  }

  lemma DecodeFrame(s: seq<byte>, more: seq<byte>)
    requires StartsWithFrame(s)
    ensures Decode(s + more) == Decode(s[8 + HeaderDataLength(s)..] + more).After([FirstFrame(s)])
  {
    var end := 8 + HeaderDataLength(s);
    assert (s + more)[..3] == s[..3];
    assert (s + more)[8..end] == s[8..end];
    assert (s + more)[end..] == s[end..] + more;
  }

  /** Decoding may be interrupted anywhere: the kept bytes are all that later input needs. */
  lemma {:induction false} DecodeInParts(s: seq<byte>, more: seq<byte>)
    ensures Decode(s).end.Stuck? ==> Decode(s + more) == Decode(s)
    ensures Decode(s).end.Waiting? ==>
              Decode(s + more) == Decode(Decode(s).end.kept + more).After(Decode(s).messages)
    decreases |s|
  {
    if |s| < 3 {
    } else if s[..3] != MAGIC {
      assert (s + more)[..3] == s[..3];
      assert (s + more)[1..] == s[1..] + more;
      DecodeInParts(s[1..], more);
    } else if StartsWithFrame(s) {
      var rest := s[8 + HeaderDataLength(s)..];
      DecodeInParts(rest, more);
      DecodeFrame(s, more);
      if Decode(rest).end.Waiting? {
        AfterTwice(Decode(Decode(rest).end.kept + more), [FirstFrame(s)], Decode(rest).messages);
      }
    } else {
      assert (s + more)[..3] == s[..3];
    }
  }

  /** As far as later input goes, what decoding keeps of a stream can stand for the stream. */
  lemma DecodeFurther(s: seq<byte>, decoded: seq<Message>, kept: seq<byte>, more: seq<byte>)
    requires Decode(s) == Decode(kept).After(decoded)
    ensures Decode(s + more) == Decode(kept + more).After(decoded)
  {
    DecodeInParts(s, more);
    DecodeInParts(kept, more);
    if Decode(kept).end.Waiting? {
      AfterTwice(Decode(Decode(kept).end.kept + more), decoded, Decode(kept).messages);
    }
  }

  /** What was decoded from a part of a stream stays decoded, whatever follows. */
  lemma DecodedSoFarIsPrefix(s: seq<byte>, more: seq<byte>)
    ensures Decode(s).messages <= Decode(s + more).messages
  {
    DecodeInParts(s, more);
  }

  predicate IsUnfinished(s: seq<byte>) {
    |s| < 3 ||
    (s[..3] == MAGIC && (|s| < 8 || (CommandOf(s[3]).Some? && |s| < 8 + HeaderDataLength(s))))
  }

  /** Undecided bytes are too few to hold the magic, or an unfinished frame that starts with it. */
  lemma {:induction false} KeptIsShortOrFrame(s: seq<byte>)
    requires Decode(s).end.Waiting?
    ensures var kept := Decode(s).end.kept;
            Decode(kept) == Decoded([], Waiting(kept)) && |kept| <= |s| && IsUnfinished(kept)
    decreases |s|
  {
    if |s| < 3 {
    } else if s[..3] != MAGIC {
      KeptIsShortOrFrame(s[1..]);
    } else if |s| >= 8 && |s| >= 8 + HeaderDataLength(s) {
      KeptIsShortOrFrame(s[8 + HeaderDataLength(s)..]);
    }
  }

  // ----- Searching the magic

  predicate MagicAt(s: seq<byte>, i: nat) {
    i + 3 <= |s| && s[i..i + 3] == MAGIC
  }

  /** The position of the first window equal to the magic. */
  function FindSubsequence(s: seq<byte>): (r: Option<nat>)
    ensures r.Some? ==> MagicAt(s, r.value) && forall j | 0 <= j < r.value :: !MagicAt(s, j)
    ensures r.None? ==> forall j: nat :: !MagicAt(s, j)
  {
    FindFrom(s, 0)
  }

  function FindFrom(s: seq<byte>, start: nat): (r: Option<nat>)
    ensures r.Some? ==> start <= r.value && MagicAt(s, r.value) && forall j | start <= j < r.value :: !MagicAt(s, j)
    ensures r.None? ==> forall j: nat | start <= j :: !MagicAt(s, j)
    decreases |s| - start
  {
    if |s| < start + 3 then None
    else if s[start..start + 3] == MAGIC then Some(start)
    else FindFrom(s, start + 1)
  }

  /** Bytes in front of which no magic starts do not matter. */
  lemma {:induction false} DecodeSkips(s: seq<byte>, n: nat)
    requires n + 2 <= |s|
    requires forall j | 0 <= j < n :: !MagicAt(s, j)
    ensures Decode(s) == Decode(s[n..])
    decreases n
  {
    if n > 0 {
      assert !MagicAt(s, 0);
      assert s[0..3] == s[..3];
      forall j | 0 <= j < n - 1 ensures !MagicAt(s[1..], j) {
        assert !MagicAt(s, j + 1);
        if j + 3 <= |s[1..]| { assert s[1..][j..j + 3] == s[j + 1..j + 1 + 3]; }
      }
      DecodeSkips(s[1..], n - 1);
      assert s[1..][n - 1..] == s[n..];
    } else {
      assert s[0..] == s;
    }
  }

  // ----- Parsing in place

  /** `slice::rotate_left` on the first `length` bytes. */
  method RotateLeft(buffer: array<byte>, length: nat, count: nat)
    requires count <= length <= buffer.Length
    modifies buffer
    ensures buffer[..length] == old(buffer[count..length]) + old(buffer[..count])
    ensures buffer[..length - count] == old(buffer[count..length])
    ensures buffer[length..] == old(buffer[length..])
  {
    var rotated := buffer[count..length] + buffer[..count];
    forall i | 0 <= i < length {
      buffer[i] := rotated[i];
    }
    assert buffer[..length] == rotated;
    assert rotated[..length - count] == old(buffer[count..length]);
  }

  /** `slice::rotate_right` on the first `length` bytes. */
  method RotateRight(buffer: array<byte>, length: nat, count: nat)
    requires count <= length <= buffer.Length
    modifies buffer
    ensures buffer[..length] == old(buffer[length - count..length]) + old(buffer[..length - count])
    ensures buffer[..count] == old(buffer[length - count..length])
    ensures buffer[length..] == old(buffer[length..])
  {
    RotateLeft(buffer, length, length - count);
  }

  datatype Popped = Nothing | Popped(message: Message) | Panic(tag: byte)

  /** What a pop may do to the undecoded bytes: split off one message, or settle that none is complete. */
  ghost predicate IsPop(before: seq<byte>, after: seq<byte>, popped: Popped) {
    match popped
    case Popped(m) => |after| < |before| && Decode(before) == Decode(after).After([m])
    case Nothing =>
      && Decode(after) == Decode(before)
      && Decode(after).messages == []
      && Decode(after).end.Waiting?
      && (|after| <= 3 || Decode(after).end.kept == after)
    case Panic(tag) => Decode(after) == Decode(before) == Decoded([], Stuck(tag))
  }

  lemma PopWithoutMagic(s: seq<byte>)
    requires |s| >= 3
    requires forall j: nat :: !MagicAt(s, j)
    ensures IsPop(s, s[|s| - 3..], Nothing)
  {
    DecodeSkips(s, |s| - 2);
    DecodeSkips(s, |s| - 3);
  }

  /** Two of them would do: three bytes without the magic never hold more than two that matter. */
  lemma TwoBytesWouldDo(s: seq<byte>)
    requires |s| >= 2
    requires forall j: nat :: !MagicAt(s, j)
    ensures IsPop(s, s[|s| - 2..], Nothing)
  {
    DecodeSkips(s, |s| - 2);
  }

  /** From the first magic on, the parser and the decoder agree. */
  lemma PopAtMagic(s: seq<byte>, index: nat)
    requires MagicAt(s, index) && forall j | 0 <= j < index :: !MagicAt(s, j)
    ensures match Parse(s[index..])
            case Parsed(m, rest) => rest == s[|s| - |rest|..] && |rest| < |s| - index && IsPop(s, rest, Popped(m))
            case Incomplete => IsPop(s, s[index..], Nothing)
            case UnknownCommand(tag) => IsPop(s, s[index..], Panic(tag))
            case TagMismatch => false
  {
    DecodeSkips(s, index);
    assert s[index..][..3] == s[index..index + 3];
  }

  /**
   * Takes the next message out of the first `filled` bytes of the buffer and moves what may
   * still matter to its front. The panic on a mismatched tag cannot happen; the one on an
   * unknown command can.
   */
  method PopRawMessage(buffer: array<byte>, filled: nat) returns (length: nat, popped: Popped)
    requires filled <= buffer.Length
    modifies buffer
    ensures length <= filled
    ensures IsPop(old(buffer[..filled]), buffer[..length], popped)
  {
    ghost var input := buffer[..filled];
    if filled < |MAGIC| {
      return filled, Nothing;
    }
    hide Decode, IsPop, Parse;
    var newLength := filled;
    match FindSubsequence(buffer[..filled]) {
      case None =>
        PopWithoutMagic(input);
        RotateRight(buffer, filled, 3);
        assert buffer[..3] == input[|input| - 3..];
        return 3, Nothing;
      case Some(index) =>
        PopAtMagic(input, index);
        RotateLeft(buffer, filled, index);
        newLength := filled - index;
        assert buffer[..newLength] == input[index..];
    }
    match Parse(buffer[..newLength]) {
      case Parsed(message, remaining) =>
        length, popped := |remaining|, Popped(message);
        RotateRight(buffer, newLength, length);
        assert buffer[..length] == remaining;
      case Incomplete =>
        length, popped := newLength, Nothing;
      case UnknownCommand(tag) =>
        length, popped := newLength, Panic(tag);
      case TagMismatch =>
        assert false;
    }
  }

  // ----- The receiving stream

  /** What the serial port answers to one read: some bytes (perhaps none), not ready, or an error. */
  datatype ReadEvent = Chunk(bytes: seq<byte>) | NotReady | ReadFailure

  datatype StreamOutcome =
    | Item(message: Message)   // Ready(Some(message))
    | Pending
    | Closed                   // Ready(None)
    | Panicked(tag: byte)

  class RawRadioStream {
    const buffer: array<byte>
    var bufferFilled: nat
    ghost var received: seq<byte>      // every byte read from the port
    ghost var emitted: seq<Message>    // every message handed out

    ghost predicate Valid()
      reads this, buffer
    {
      && buffer.Length == BUFFER_LENGTH
      && bufferFilled <= buffer.Length
      && Decode(received) == Decode(Contents()).After(emitted)
    }

    ghost function Contents(): seq<byte>
      reads this, buffer
      requires bufferFilled <= buffer.Length
    {
      buffer[..bufferFilled]
    }

    constructor ()
      ensures Valid() && fresh(buffer)
      ensures received == [] && emitted == []
    {
      buffer := new byte[BUFFER_LENGTH](_ => 0);
      bufferFilled := 0;
      received, emitted := [], [];
    }

    /** A read has put bytes behind the ones already there. */
    method Fill(bytes: seq<byte>)
      requires Valid()
      requires bufferFilled + |bytes| <= buffer.Length
      modifies this, buffer
      ensures Valid()
      ensures bufferFilled == old(bufferFilled) + |bytes|
      ensures received == old(received) + bytes && emitted == old(emitted)
      ensures Contents() == old(Contents()) + bytes
    {
      ghost var kept := Contents();
      forall i | 0 <= i < |bytes| {
        buffer[bufferFilled + i] := bytes[i];
      }
      bufferFilled := bufferFilled + |bytes|;
      assert Contents() == kept + bytes;
      DecodeFurther(received, emitted, kept, bytes);
      received := received + bytes;
    }

    /** One read from the port into the free space. */
    method Read(events: seq<ReadEvent>) returns (answer: ReadEvent, left: seq<ReadEvent>)
      requires Valid() && bufferFilled < buffer.Length
      modifies this, buffer
      ensures Valid() && emitted == old(emitted)
      ensures answer == Answer(events, buffer.Length - old(bufferFilled))
      ensures left == AfterRead(events, buffer.Length - old(bufferFilled))
      ensures received == old(received) + ReadBytes(answer)
      ensures bufferFilled == old(bufferFilled) + |ReadBytes(answer)|
      ensures !answer.Chunk? ==> Contents() == old(Contents())
    {
      var space := buffer.Length - bufferFilled;
      answer := Answer(events, space);
      left := AfterRead(events, space);
      Fill(ReadBytes(answer));
      assert old(Contents()) + [] == old(Contents());
    }

    /**
     * One poll of the stream against what the port answers to successive reads.
     *
     * The stream closes by itself only on a full buffer, and a buffer is full exactly when it
     * holds the start of a frame that announces more than 65527 bytes.
     */
    method PollNext(events: seq<ReadEvent>) returns (outcome: StreamOutcome, left: seq<ReadEvent>)
      requires Valid()
      modifies this, buffer
      ensures Valid()
      ensures IsFlow(old(received), events, received, left)
      ensures emitted == old(emitted) + (if outcome.Item? then [outcome.message] else [])
      ensures Explains(outcome, ReadFailure in events)
    {
      hide Decode, PortBytes, AfterRead;
      left := events;
      while true
        invariant Valid() && emitted == old(emitted)
        invariant IsFlow(old(received), events, received, left)
        decreases |left| + |PortBytes(left)|
      {
        var popped;
        ghost var before := Contents();
        bufferFilled, popped := PopRawMessage(buffer, bufferFilled);
        match popped {
          case Panic(tag) =>
            return Panicked(tag), left;
          case Popped(message) =>
            AfterTwice(Decode(Contents()), emitted, [message]);
            emitted := emitted + [message];
            return Item(message), left;
          case Nothing =>
            NothingLeft(received, emitted, before, Contents());
        }
        if bufferFilled == buffer.Length {
          return Closed, left;
        }
        var answer;
        ReadKeepsFlow(old(received), events, received, left, buffer.Length - bufferFilled);
        answer, left := Read(left);
        if answer.NotReady? {
          return Pending, left;
        } else if answer.ReadFailure? {
          return Closed, left;
        }
      }
    }

    /** What each outcome of a poll says about the bytes received so far. */
    ghost predicate Explains(outcome: StreamOutcome, mayFail: bool)
      reads this, buffer
      requires bufferFilled <= buffer.Length
    {
      match outcome
      case Item(m) => true
      case Pending =>
        && bufferFilled < BUFFER_LENGTH
        && Decode(received).messages == emitted
        && Decode(received).end.Waiting?
        && |Decode(received).end.kept| < BUFFER_LENGTH
      case Closed =>
        if bufferFilled < BUFFER_LENGTH then
          mayFail && Decode(received).messages == emitted && Decode(received).end.Waiting?
        else
          Decode(received) == Decoded(emitted, Waiting(Contents())) && IsOversized(Contents())
      case Panicked(tag) => Decode(received) == Decoded(emitted, Stuck(tag))
    }
  }

  /** The start of a frame that announces more data than the buffer can take. */
  ghost predicate IsOversized(s: seq<byte>) {
    |s| >= HEADER_LENGTH && s[..3] == MAGIC && HeaderDataLength(s) > BUFFER_LENGTH - HEADER_LENGTH
  }

  lemma NothingLeft(received: seq<byte>, emitted: seq<Message>, before: seq<byte>, after: seq<byte>)
    requires Decode(received) == Decode(before).After(emitted)
    requires IsPop(before, after, Nothing)
    ensures Decode(received) == Decode(after).After(emitted)
    ensures Decode(received).messages == emitted && Decode(received).end.Waiting?
    ensures |Decode(received).end.kept| <= |after|
    ensures |after| >= BUFFER_LENGTH ==> Decode(received).end.kept == after && IsOversized(after)
  {
    KeptIsShortOrFrame(after);
  }

  /** All bytes the port still has to deliver. */
  function PortBytes(events: seq<ReadEvent>): seq<byte> {
    if events == [] then []
    else ReadBytes(events[0]) + PortBytes(events[1..])
  }

  /** How a port answers a read into `space` bytes: it gives at most that much of a chunk. */
  function Answer(events: seq<ReadEvent>, space: nat): ReadEvent {
    if events == [] then NotReady
    else if events[0].Chunk? && |events[0].bytes| > space then Chunk(events[0].bytes[..space])
    else events[0]
  }

  function ReadBytes(answer: ReadEvent): seq<byte> {
    if answer.Chunk? then answer.bytes else []
  }

  /** What the port still holds after that read. */
  function AfterRead(events: seq<ReadEvent>, space: nat): seq<ReadEvent> {
    if events == [] then []
    else if events[0].Chunk? && |events[0].bytes| > space then [Chunk(events[0].bytes[space..])] + events[1..]
    else events[1..]
  }

  lemma RegroupAt(a: seq<byte>, b: seq<byte>, i: nat, c: seq<byte>)
    requires i <= |b|
    ensures (a + b[..i]) + (b[i..] + c) == a + (b + c)
  {
    assert b == b[..i] + b[i..];
  }

  /** No byte is lost, made up or reordered between the port and the stream. */
  ghost predicate IsFlow(received: seq<byte>, events: seq<ReadEvent>, received': seq<byte>, events': seq<ReadEvent>) {
    && received <= received'
    && received' + PortBytes(events') == received + PortBytes(events)
    && (ReadFailure in events' ==> ReadFailure in events)
  }

  lemma ReadKeepsFlow(received: seq<byte>, events: seq<ReadEvent>, received': seq<byte>, events': seq<ReadEvent>, space: nat)
    requires IsFlow(received, events, received', events') && space > 0
    ensures IsFlow(received, events, received' + ReadBytes(Answer(events', space)), AfterRead(events', space))
    ensures var after := AfterRead(events', space);
            events' != [] ==> |after| + |PortBytes(after)| < |events'| + |PortBytes(events')|
  {
    if events' == [] {
      assert received' + [] == received';
    } else {
      var rest := PortBytes(events'[1..]);
      if events'[0].Chunk? && |events'[0].bytes| > space {
        assert AfterRead(events', space)[1..] == events'[1..];
        RegroupAt(received', events'[0].bytes, space, rest);
      } else {
        RegroupAt(received', ReadBytes(events'[0]), |ReadBytes(events'[0])|, rest);
        assert ReadBytes(events'[0])[..|ReadBytes(events'[0])|] == ReadBytes(events'[0]);
      }
    }
  }

  // ----- The sending sink

  /** What the serial port answers to one write: it takes some of the bytes (perhaps none), is not ready, or fails. */
  datatype WriteEvent = Takes(count: nat) | Blocks | WriteFailure

  datatype SinkOutcome = Ready | NotYet | Failed

  class RawRadioSink {
    var wire: seq<byte>               // every byte the port has taken
    var buffer: seq<byte>
    var written: nat
    ghost var sent: seq<Message>

    /** Bytes on the wire and unsent bytes are always exactly the encodings of what was sent. */
    ghost predicate Valid()
      reads this
    {
      written <= |buffer| && wire + buffer[written..] == EncodeAll(sent)
    }

    constructor ()
      ensures Valid() && sent == [] && wire == []
    {
      wire, buffer, written, sent := [], [], 0, [];
    }

    method PollReady(events: seq<WriteEvent>) returns (outcome: SinkOutcome, left: seq<WriteEvent>)
      requires Valid()
      modifies this
      ensures Valid() && sent == old(sent) && old(wire) <= wire
      ensures outcome.Ready? ==> wire == EncodeAll(sent) && buffer == [] && written == 0
      ensures outcome.Failed? ==> WriteFailure in events
    {
      left := events;
      while written < |buffer|
        invariant Valid() && sent == old(sent) && old(wire) <= wire
        invariant forall e :: e in left ==> e in events
        decreases |left|
      {
        if left == [] {
          return NotYet, left;
        }
        var event := left[0];
        left := left[1..];
        match event {
          case Blocks => return NotYet, left;
          case WriteFailure => return Failed, left;
          case Takes(count) =>
            var taken := if count <= |buffer| - written then count else |buffer| - written;
            WireAdvances(wire, buffer, written, taken);
            wire := wire + buffer[written..written + taken];
            written := written + taken;
        }
      }
      assert buffer[written..] == [] && wire + [] == wire;
      buffer := [];
      written := 0;
      return Ready, left;
    }

    method StartSend(item: Message)
      requires Valid()
      modifies this
      ensures Valid() && sent == old(sent) + [item] && wire == old(wire)
    {
      EncodeAllAppend(sent, item);
      assert (buffer + Encode(item))[written..] == buffer[written..] + Encode(item);
      assert wire + (buffer[written..] + Encode(item)) == (wire + buffer[written..]) + Encode(item);
      buffer := buffer + Encode(item);
      sent := sent + [item];
    }
  }

  lemma WireAdvances(wire: seq<byte>, buffer: seq<byte>, written: nat, taken: nat)
    requires written + taken <= |buffer|
    ensures (wire + buffer[written..written + taken]) + buffer[written + taken..] == wire + buffer[written..]
  {
    assert buffer[written..] == buffer[written..written + taken] + buffer[written + taken..];
  }

  function EncodeAll(messages: seq<Message>): seq<byte> {
    if messages == [] then [] else Encode(messages[0]) + EncodeAll(messages[1..])
  }

  lemma {:induction false} EncodeAllAppend(messages: seq<Message>, last: Message)
    ensures EncodeAll(messages + [last]) == EncodeAll(messages) + Encode(last)
  {
    if messages == [] {
      assert [last][1..] == [];
      assert Encode(last) + [] == [] + Encode(last);
    } else {
      assert (messages + [last])[1..] == messages[1..] + [last];
      EncodeAllAppend(messages[1..], last);
    }
  }

  // ----- From sender to receiver

  /** A message with the bytes that come before it on the line and belong to no frame. */
  datatype Traffic = Traffic(noise: seq<byte>, message: Message)

  ghost predicate IsNoise(s: seq<byte>) {
    forall j: nat :: !MagicAt(s, j)
  }

  function LineBytes(traffic: seq<Traffic>): seq<byte> {
    if traffic == [] then []
    else traffic[0].noise + (Encode(traffic[0].message) + LineBytes(traffic[1..]))
  }

  function Messages(traffic: seq<Traffic>): seq<Message> {
    if traffic == [] then [] else [traffic[0].message] + Messages(traffic[1..])
  }

  /** The magic cannot overlap itself, so noise in front of a frame never completes an earlier one. */
  lemma NoMagicBeforeFrame(noise: seq<byte>, rest: seq<byte>)
    requires IsNoise(noise) && MagicAt(rest, 0)
    ensures MagicAt(noise + rest, |noise|) && forall j | 0 <= j < |noise| :: !MagicAt(noise + rest, j)
  {
    var s := noise + rest;
    assert s[|noise|..|noise| + 3] == rest[0..3];
    forall j | 0 <= j < |noise| ensures !MagicAt(s, j) {
      if j + 3 <= |noise| {
        assert noise[j..j + 3] == s[j..j + 3];
        assert !MagicAt(noise, j);
      } else {
        assert s[j..j + 3][|noise| - j] == s[|noise|] == rest[0..3][0] == MAGIC[0];
      }
    }
  }

  /** The decoder finds an encoded message behind any noise and goes on right after it. */
  lemma DecodeFindsFrame(noise: seq<byte>, m: Message, rest: seq<byte>)
    requires IsNoise(noise) && |m.data| <= 0xFFFF
    ensures Decode(noise + (Encode(m) + rest)) == Decode(rest).After([m])
  {
    var frame := Encode(m) + rest;
    EncodedFrame(m, rest);
    NoMagicBeforeFrame(noise, frame);
    DecodeSkips(noise + frame, |noise|);
    assert (noise + frame)[|noise|..] == frame;
  }

  lemma EncodedFrame(m: Message, rest: seq<byte>)
    requires |m.data| <= 0xFFFF
    ensures var frame := Encode(m) + rest;
            MagicAt(frame, 0) && StartsWithFrame(frame) && FirstFrame(frame) == m &&
            frame[8 + HeaderDataLength(frame)..] == rest
  {
    var frame := Encode(m) + rest;
    assert m.data[..|m.data|] == m.data;
    assert Encode(m) == MAGIC + [CommandTag(m.command)] + Be16(m.requestId) + Be16(|m.data|) + m.data;
    assert frame[0..3] == frame[..3] == MAGIC;
    assert frame[8..8 + |m.data|] == m.data;
    assert frame[8 + |m.data|..] == rest;
  }

  lemma {:induction false} DecodeLine(traffic: seq<Traffic>, tail: seq<byte>)
    requires forall t <- traffic :: IsNoise(t.noise) && |t.message.data| <= 0xFFFF
    ensures Decode(LineBytes(traffic) + tail) == Decode(tail).After(Messages(traffic))
  {
    if traffic == [] {
      assert [] + tail == tail;
    } else {
      var t, rest := traffic[0], LineBytes(traffic[1..]);
      assert LineBytes(traffic) + tail == t.noise + (Encode(t.message) + (rest + tail));
      DecodeFindsFrame(t.noise, t.message, rest + tail);
      DecodeLine(traffic[1..], tail);
      AfterTwice(Decode(tail), [t.message], Messages(traffic[1..]));
    }
  }

  /**
   * A receiver that has decoded all of `received`, the part of a noisy line that reached it so
   * far, has handed out a prefix of the messages sent, and all of them once the line is drained.
   */
  lemma DeliveredInOrder(traffic: seq<Traffic>, lastNoise: seq<byte>, received: seq<byte>, inTransit: seq<byte>)
    requires forall t <- traffic :: IsNoise(t.noise) && |t.message.data| <= 0xFFFF
    requires IsNoise(lastNoise)
    requires received + inTransit == LineBytes(traffic) + lastNoise
    ensures Decode(received).messages <= Messages(traffic)
    ensures inTransit == [] ==> Decode(received).messages == Messages(traffic)
  {
    DecodeLine(traffic, lastNoise);
    NoiseDecodesToNothing(lastNoise);
    assert Messages(traffic) + [] == Messages(traffic);
    DecodedSoFarIsPrefix(received, inTransit);
    if inTransit == [] {
      assert received + inTransit == received;
    }
  }

  lemma NoiseDecodesToNothing(noise: seq<byte>)
    requires IsNoise(noise)
    ensures Decode(noise).messages == [] && Decode(noise).end.Waiting? && |Decode(noise).end.kept| < 3
  {
    if |noise| >= 3 {
      DecodeSkips(noise, |noise| - 2);
    }
  }

  /** On such a line, with frames that fit the buffer, the stream neither panics nor closes by itself. */
  lemma GoodLineNeverStops(traffic: seq<Traffic>, lastNoise: seq<byte>, received: seq<byte>, inTransit: seq<byte>)
    requires forall t <- traffic :: IsNoise(t.noise) && |t.message.data| <= BUFFER_LENGTH - HEADER_LENGTH
    requires IsNoise(lastNoise)
    requires received + inTransit == LineBytes(traffic) + lastNoise
    ensures Decode(received).end.Waiting? && |Decode(received).end.kept| < BUFFER_LENGTH
  {
    DecodeLine(traffic, lastNoise);
    NoiseDecodesToNothing(lastNoise);
    DecodeInParts(received, inTransit);
    MessagesAreSent(traffic);
    assert Messages(traffic) + [] == Messages(traffic);
    assert forall t | t in traffic :: |t.message.data| <= BUFFER_LENGTH - HEADER_LENGTH;
    if Decode(received).end.Waiting? {
      KeptIsShortOrFrame(received);
      KeptIsNotOversized(Messages(traffic), Decode(received).messages, Decode(received).end.kept, inTransit);
    }
  }

  lemma KeptIsNotOversized(sent: seq<Message>, decoded: seq<Message>, kept: seq<byte>, more: seq<byte>)
    requires forall i | 0 <= i < |sent| :: |sent[i].data| <= BUFFER_LENGTH - HEADER_LENGTH
    requires decoded + Decode(kept + more).messages == sent
    requires Decode(kept + more).end.Waiting? && |Decode(kept + more).end.kept| < 3
    requires IsUnfinished(kept)
    ensures |kept| < BUFFER_LENGTH
  {
    hide Decode;
    var later := Decode(kept + more).messages;
    assert forall i | 0 <= i < |later| :: later[i] == sent[|decoded| + i];
    if |kept| >= BUFFER_LENGTH {
      OversizedShows(kept, more);
    }
  }

  /** Once it is there, the start of an oversized frame either stays or becomes an oversized message. */
  lemma OversizedShows(kept: seq<byte>, more: seq<byte>)
    requires IsOversized(kept) && CommandOf(kept[3]).Some?
    ensures var d := Decode(kept + more);
            if d.messages == [] then d.end == Waiting(kept + more)
            else |d.messages[0].data| > BUFFER_LENGTH - HEADER_LENGTH
  {
    var s := kept + more;
    assert s[..3] == kept[..3];
    if StartsWithFrame(s) {
      DecodeFrame(s, []);
      assert s + [] == s;
    }
  }

  lemma {:induction false} MessagesAreSent(traffic: seq<Traffic>)
    ensures |Messages(traffic)| == |traffic|
    ensures forall i | 0 <= i < |traffic| :: Messages(traffic)[i] == traffic[i].message
  {
    if traffic != [] {
      MessagesAreSent(traffic[1..]);
    }
  }

  lemma {:induction false} QuietLine(messages: seq<Message>) returns (traffic: seq<Traffic>)
    ensures LineBytes(traffic) == EncodeAll(messages) && Messages(traffic) == messages
    ensures forall t <- traffic :: t.noise == [] && t.message in messages
  {
    if messages == [] {
      traffic := [];
    } else {
      var rest := QuietLine(messages[1..]);
      traffic := [Traffic([], messages[0])] + rest;
      assert traffic[1..] == rest;
      assert [] + (Encode(messages[0]) + LineBytes(rest)) == Encode(messages[0]) + LineBytes(rest);
    }
  }

  /**
   * Sink and stream together, at any moment of any schedule of partial writes and partial reads:
   * the messages handed out are a prefix of the messages sent, and all of them when nothing is
   * buffered, on the line or undecoded.
   */
  lemma EndToEnd(sink: RawRadioSink, stream: RawRadioStream, onLine: seq<byte>)
    requires sink.Valid() && stream.Valid()
    requires sink.wire == stream.received + onLine
    requires forall m <- sink.sent :: |m.data| <= BUFFER_LENGTH - HEADER_LENGTH
    ensures stream.emitted <= sink.sent
    ensures sink.written == |sink.buffer| && onLine == [] && Decode(stream.Contents()).messages == [] ==>
              stream.emitted == sink.sent
    ensures Decode(stream.received).end.Waiting? && |Decode(stream.received).end.kept| < BUFFER_LENGTH
  {
    var unsent := sink.buffer[sink.written..];
    var traffic := QuietLine(sink.sent);
    assert stream.received + (onLine + unsent) == (stream.received + onLine) + unsent == LineBytes(traffic) + [];
    DeliveredInOrder(traffic, [], stream.received, onLine + unsent);
    GoodLineNeverStops(traffic, [], stream.received, onLine + unsent);
  }
}
