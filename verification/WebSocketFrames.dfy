/**
 The WebSocket client of tools/cdp.py: frames of RFC 6455, sections 5.2 to 5.5, off a stream that arrives
 in any pieces, and onto one.
 */
module WebSocketFrames {
  import opened Wrappers
  import opened Bytes

  // -------------------------------------------------------------------- frames

  /** Where the length of a payload is said: in seven bits, or in two or eight bytes after them. */
  datatype Form = Short(length: nat) | Medium(bytes: seq<byte>) | Long(bytes: seq<byte>)

  datatype Head = Head(first: byte, masked: bool, form: Form)

  datatype Frame = Frame(head: Head, payload: seq<byte>)

  predicate Fits(head: Head) {
    match head.form
    case Short(length) => length < 126
    case Medium(bytes) => |bytes| == 2
    case Long(bytes) => |bytes| == 8
  }

  function Length(head: Head): nat {
    match head.form
    case Short(length) => length
    case Medium(bytes) => FromBigEndian(bytes)
    case Long(bytes) => FromBigEndian(bytes)
  }

  function MaskBit(masked: bool): byte { if masked then 0x80 else 0 }

  function SevenBits(head: Head): byte
    requires Fits(head)
  {
    match head.form case Short(length) => length as byte case Medium(_) => 126 case Long(_) => 127
  }

  function Extended(head: Head): seq<byte> {
    match head.form case Short(_) => [] case Medium(bytes) => bytes case Long(bytes) => bytes
  }

  /** The head of a frame, as section 5.2 lays it out. */
  function HeadBytes(head: Head): seq<byte>
    requires Fits(head)
  {
    [head.first, MaskBit(head.masked) | SevenBits(head)] + Extended(head)
  }

  /** The head a stream begins with, and what follows it. */
  function ReadHead(s: seq<byte>): Option<(Head, seq<byte>)> {
    if |s| < 2 then None
    else
      var first, masked, seven := s[0], s[1] & 0x80 != 0, (s[1] & 0x7F) as int;
      if seven == 126 then if |s| < 4 then None else Some((Head(first, masked, Medium(s[2..4])), s[4..]))
      else if seven == 127 then if |s| < 10 then None else Some((Head(first, masked, Long(s[2..10])), s[10..]))
      else Some((Head(first, masked, Short(seven)), s[2..]))
  }

  lemma {:induction false} SecondByte(masked: bool, x: byte)
    requires x < 0x80
    ensures (MaskBit(masked) | x) & 0x7F == x
    ensures ((MaskBit(masked) | x) & 0x80 != 0) <==> masked
  {
  }

  lemma {:induction false} SevenBitsFit(head: Head)
    requires Fits(head)
    ensures SevenBits(head) < 0x80
    ensures SevenBits(head) as int == if head.form.Short? then head.form.length else if head.form.Medium? then 126 else 127
  {
    if head.form.Short? { SmallReadsBack(head.form.length); }
  }

  /** A head reads back from its bytes, whatever follows them. */
  lemma {:induction false} HeadReadsBack(head: Head, rest: seq<byte>)
    requires Fits(head)
    ensures ReadHead(HeadBytes(head) + rest) == Some((head, rest))
  {
    var s := HeadBytes(head) + rest;
    var n := 2 + |Extended(head)|;
    SevenBitsFit(head);
    SecondByte(head.masked, SevenBits(head));
    assert s[0] == head.first && s[1] == MaskBit(head.masked) | SevenBits(head);
    assert s[2..n] == Extended(head) && s[n..] == rest;
  }

  lemma {:induction false} SecondByteParts(b: byte)
    ensures b == MaskBit(b & 0x80 != 0) | (b & 0x7F) && (b & 0x7F) as int <= 127
  {
  }

  /** The second byte of a head says what was read off it. */
  lemma {:induction false} SecondByteWas(b: byte, head: Head)
    requires Fits(head) && head.masked == (b & 0x80 != 0)
    requires (b & 0x7F) as int == if head.form.Short? then head.form.length else if head.form.Medium? then 126 else 127
    ensures MaskBit(head.masked) | SevenBits(head) == b
  {
    SecondByteParts(b);
    ByteIsItself(b & 0x7F);
    SevenBitsFit(head);
    ByteIsItself(SevenBits(head));
  }

  /** And a head that was read is what the stream began with. */
  lemma {:induction false} HeadWasThere(s: seq<byte>)
    requires ReadHead(s).Some?
    ensures var (head, rest) := ReadHead(s).value; Fits(head) && s == HeadBytes(head) + rest
  {
    var (head, rest) := ReadHead(s).value;
    SecondByteParts(s[1]);
    SecondByteWas(s[1], head);
    var n := 2 + |Extended(head)|;
    assert HeadBytes(head) == s[..n] && rest == s[n..];
  }

  /** A frame as the client takes it off the stream: its head, then its payload as it is, mask or no mask. */
  function FrameBytes(frame: Frame): seq<byte>
    requires Fits(frame.head)
  {
    HeadBytes(frame.head) + frame.payload
  }

  predicate Proper(frame: Frame) { Fits(frame.head) && |frame.payload| == Length(frame.head) }

  function ReadFrame(s: seq<byte>): (r: Option<(Frame, seq<byte>)>)
    ensures r.Some? ==> |r.value.1| < |s|
  {
    match ReadHead(s)
    case None => None
    case Some((head, rest)) =>
      if |rest| < Length(head) then None else Some((Frame(head, rest[..Length(head)]), rest[Length(head)..]))
  }

  lemma {:induction false} Regroup<T>(a: seq<T>, b: seq<T>, c: seq<T>)
    ensures (a + b) + c == a + (b + c)
    ensures (b + c)[..|b|] == b && (b + c)[|b|..] == c
  {
  }

  lemma {:induction false} FrameReadsBack(frame: Frame, rest: seq<byte>)
    requires Proper(frame)
    ensures ReadFrame(FrameBytes(frame) + rest) == Some((frame, rest))
  {
    Regroup(HeadBytes(frame.head), frame.payload, rest);
    HeadReadsBack(frame.head, frame.payload + rest);
  }

  lemma {:induction false} FrameWasThere(s: seq<byte>)
    requires ReadFrame(s).Some?
    ensures var (frame, rest) := ReadFrame(s).value; Proper(frame) && s == FrameBytes(frame) + rest
  {
    HeadWasThere(s);
    var (frame, rest) := ReadFrame(s).value;
    Regroup(HeadBytes(frame.head), frame.payload, rest);
    assert ReadHead(s).value.1 == frame.payload + rest;
  }

  /** What is read off a stream is one frame exactly when the stream begins with its bytes. */
  lemma {:induction false} ReadFrameIff(s: seq<byte>, frame: Frame, rest: seq<byte>)
    ensures ReadFrame(s) == Some((frame, rest)) <==> Proper(frame) && s == FrameBytes(frame) + rest
  {
    if ReadFrame(s) == Some((frame, rest)) { FrameWasThere(s); }
    if Proper(frame) && s == FrameBytes(frame) + rest { FrameReadsBack(frame, rest); }
  }

  // ------------------------------------------------------------------ messages

  function Opcode(frame: Frame): byte { frame.head.first & 0x0F }

  predicate Final(frame: Frame) { frame.head.first & 0x80 != 0 }

  predicate IsClose(frame: Frame) { Opcode(frame) == 0x8 }

  predicate IsPing(frame: Frame) { Opcode(frame) == 0x9 }

  predicate IsData(frame: Frame) { Opcode(frame) != 0x8 && Opcode(frame) != 0x9 && Opcode(frame) != 0xA }

  /** The frame after which nothing more is read: the last of a message, or a close. */
  predicate Last(frame: Frame) { IsClose(frame) || (IsData(frame) && Final(frame)) }

  /** The first byte of a frame as a number: the final bit counts 128, and the opcode is the last four bits. */
  lemma {:induction false} FirstByteSays(frame: Frame)
    ensures var first := frame.head.first as int;
      && (Final(frame) <==> first >= 128)
      && (IsClose(frame) <==> first % 16 == 8) && (IsPing(frame) <==> first % 16 == 9)
      && (IsData(frame) <==> first % 16 !in {8, 9, 10})
  {
    LastFourBits(frame.head.first);
    FinalBit(frame.head.first);
  }

  lemma {:induction false} LastFourBits(b: byte)
    ensures (b & 0x0F) as int == b as int % 16
  {
  }

  lemma {:induction false} FinalBit(b: byte)
    ensures b & 0x80 != 0 <==> b as int >= 128
  {
  }

  ghost predicate AllProper(frames: seq<Frame>) { forall i :: 0 <= i < |frames| ==> Proper(frames[i]) }

  ghost function Encoded(frames: seq<Frame>): seq<byte>
    requires AllProper(frames)
  {
    if frames == [] then [] else FrameBytes(frames[0]) + Encoded(frames[1..])
  }

  function Payloads(frames: seq<Frame>): seq<byte> {
    if frames == [] then [] else (if IsData(frames[0]) then frames[0].payload else []) + Payloads(frames[1..])
  }

  function Pings(frames: seq<Frame>): nat {
    if frames == [] then 0 else (if IsPing(frames[0]) then 1 else 0) + Pings(frames[1..])
  }

  /** Frames up to the first that ends the reading, which is the last of them. */
  ghost predicate Complete(frames: seq<Frame>) {
    && frames != [] && Last(frames[|frames| - 1]) && AllProper(frames)
    && (forall i :: 0 <= i < |frames| - 1 ==> !Last(frames[i]))
  }

  /** What comes of reading: a message, the other side's close, or the stream's end in the midst of it. */
  datatype Received = Text(payload: seq<byte>) | Closed | Lost

  datatype Reading = Reading(received: Received, rest: seq<byte>, pings: nat)

  /** `recv` over a stream, with what it has of the message and the pings answered so far. */
  function Receive(s: seq<byte>, gathered: seq<byte>, pings: nat): Reading
    decreases |s|
  {
    match ReadFrame(s)
    case None => Reading(Lost, [], pings)
    case Some((frame, rest)) =>
      if IsClose(frame) then Reading(Closed, rest, pings)
      else if IsPing(frame) then Receive(rest, gathered, pings + 1)
      else if !IsData(frame) then Receive(rest, gathered, pings)
      else if Final(frame) then Reading(Text(gathered + frame.payload), rest, pings)
      else Receive(rest, gathered + frame.payload, pings)
  }

  /** What frames up to a last one come to. */
  function Outcome(frames: seq<Frame>, gathered: seq<byte>): Received
    requires frames != []
  {
    if IsClose(frames[|frames| - 1]) then Closed else Text(gathered + Payloads(frames))
  }

  /** One frame more in front. */
  lemma {:induction false} InFront(f: Frame, more: seq<Frame>)
    requires Proper(f) && AllProper(more)
    ensures var frames := [f] + more;
      && frames[1..] == more && AllProper(frames)
      && Encoded(frames) == FrameBytes(f) + Encoded(more)
      && Payloads(frames) == (if IsData(f) then f.payload else []) + Payloads(more)
      && Pings(frames) == (if IsPing(f) then 1 else 0) + Pings(more)
  {
    var frames := [f] + more;
    assert frames[1..] == more;
  }

  lemma {:induction false} CompleteInFront(f: Frame, more: seq<Frame>)
    requires Proper(f) && !Last(f)
    ensures Complete([f] + more) <==> Complete(more)
  {
    var frames := [f] + more;
    assert forall i :: 0 <= i < |more| ==> frames[i + 1] == more[i];
    if Complete(frames) {
      forall i | 0 <= i < |more| ensures Proper(more[i]) && (i < |more| - 1 ==> !Last(more[i])) {
        assert frames[i + 1] == more[i];
      }
    }
  }

  /** The first frame off a stream, and how the reading goes on. */
  lemma {:induction false} ReceiveFrame(f: Frame, rest: seq<byte>, gathered: seq<byte>, pings: nat)
    requires Proper(f)
    ensures Receive(FrameBytes(f) + rest, gathered, pings)
      == if IsClose(f) then Reading(Closed, rest, pings)
         else if Last(f) then Reading(Text(gathered + f.payload), rest, pings)
         else Receive(rest, gathered + (if IsData(f) then f.payload else []), pings + if IsPing(f) then 1 else 0)
  {
    FrameReadsBack(f, rest);
    assert gathered + [] == gathered;
  }

  lemma {:induction false} LastReads(f: Frame, rest: seq<byte>, gathered: seq<byte>, pings: nat)
    requires Proper(f) && Last(f)
    ensures AllProper([f]) && Receive(Encoded([f]) + rest, gathered, pings)
         == Reading(Outcome([f], gathered), rest, pings + Pings([f]))
  {
    InFront(f, []);
    assert [f] + [] == [f];
    assert Encoded([f]) == FrameBytes(f);
    ReceiveFrame(f, rest, gathered, pings);
    assert Payloads([]) == [] && f.payload + [] == f.payload;
  }

  /** A frame that is not the last is taken, and the reading goes on. */
  lemma {:induction false} OtherReads(f: Frame, s: seq<byte>, rest: seq<byte>, gathered: seq<byte>, pings: nat)
    requires Proper(f) && !Last(f)
    ensures Receive(FrameBytes(f) + s + rest, gathered, pings)
         == Receive(s + rest, gathered + (if IsData(f) then f.payload else []), pings + if IsPing(f) then 1 else 0)
  {
    Regroup(FrameBytes(f), s, rest);
    ReceiveFrame(f, s + rest, gathered, pings);
  }

  /** What it adds to the outcome. */
  lemma {:induction false} OtherAdds(f: Frame, more: seq<Frame>, gathered: seq<byte>)
    requires more != []
    ensures Outcome([f] + more, gathered) == Outcome(more, gathered + if IsData(f) then f.payload else [])
  {
    var frames := [f] + more;
    assert frames[1..] == more && frames[|more|] == more[|more| - 1];
    Regroup(gathered, if IsData(f) then f.payload else [], Payloads(more));
  }

  lemma {:induction false} CompleteReads(frames: seq<Frame>, rest: seq<byte>, gathered: seq<byte>, pings: nat)
    requires Complete(frames)
    ensures Receive(Encoded(frames) + rest, gathered, pings)
         == Reading(Outcome(frames, gathered), rest, pings + Pings(frames))
  {
    var f, more := frames[0], frames[1..];
    if more == [] {
      assert frames == [f];
      LastReads(f, rest, gathered, pings);
    } else {
      assert frames == [f] + more;
      assert AllProper(more) && !Last(f);
      CompleteInFront(f, more);
      InFront(f, more);
      OtherReads(f, Encoded(more), rest, gathered, pings);
      OtherAdds(f, more, gathered);
      CompleteReads(more, rest, gathered + (if IsData(f) then f.payload else []), pings + if IsPing(f) then 1 else 0);
    }
  }

  /** Unless the stream ends first, what is read is frames up to a last one. */
  lemma {:induction false} ReadsComplete(s: seq<byte>, gathered: seq<byte>, pings: nat) returns (frames: seq<Frame>)
    requires Receive(s, gathered, pings).received != Lost
    ensures Complete(frames) && s == Encoded(frames) + Receive(s, gathered, pings).rest
    decreases |s|
  {
    var (f, rest) := ReadFrame(s).value;
    FrameWasThere(s);
    ReceiveFrame(f, rest, gathered, pings);
    if Last(f) {
      InFront(f, []);
      frames := [f] + [];
      assert Encoded(frames) == FrameBytes(f);
    } else {
      var more := ReadsComplete(rest, gathered + (if IsData(f) then f.payload else []),
                                pings + if IsPing(f) then 1 else 0);
      InFront(f, more);
      CompleteInFront(f, more);
      Regroup(FrameBytes(f), Encoded(more), Receive(s, gathered, pings).rest);
      frames := [f] + more;
    }
  }

  /** The stream is these frames, up to a last one, and then `rest`. */
  ghost predicate Begins(s: seq<byte>, frames: seq<Frame>, rest: seq<byte>) {
    Complete(frames) && s == Encoded(frames) + rest
  }

  lemma {:induction false} BeginsReads(s: seq<byte>, frames: seq<Frame>, rest: seq<byte>)
    requires Begins(s, frames, rest)
    ensures Receive(s, [], 0) == Reading(Outcome(frames, []), rest, Pings(frames))
  {
    CompleteReads(frames, rest, [], 0);
  }

  /**
   A message is received exactly when the stream begins with frames up to one that completes it: it is the
   payloads of the data frames among them, put together, each ping has been answered, and what follows the
   last frame is left.  A close ends the reading in the same way; otherwise the stream ended.
   */
  lemma {:induction false} ReceivedIff(s: seq<byte>, received: Received, rest: seq<byte>, pings: nat)
    requires received != Lost
    ensures Receive(s, [], 0) == Reading(received, rest, pings)
      <==> exists frames :: Begins(s, frames, rest) && received == Outcome(frames, []) && pings == Pings(frames)
    ensures Receive(s, [], 0).received == Lost <==> !exists frames, after :: Begins(s, frames, after)
  {
    if Receive(s, [], 0).received != Lost {
      var frames := ReadsComplete(s, [], 0);
      assert Begins(s, frames, Receive(s, [], 0).rest);
      BeginsReads(s, frames, Receive(s, [], 0).rest);
    }
    forall frames, after | Begins(s, frames, after)
      ensures Receive(s, [], 0) == Reading(Outcome(frames, []), after, Pings(frames))
    {
      BeginsReads(s, frames, after);
    }
  }

  // --------------------------------------------------------------------- sending

  /** Octet `i` of a payload is masked with octet `i` modulo 4 of the key (section 5.3). */
  function Masked(payload: seq<byte>, key: seq<byte>): seq<byte>
    requires |key| == 4
  {
    seq(|payload|, i requires 0 <= i < |payload| => payload[i] ^ key[i % 4])
  }

  /** Each four bytes of a payload are masked with the four of the key, in order. */
  lemma {:induction false} MaskedInFours(payload: seq<byte>, key: seq<byte>, quad: nat, k: nat)
    requires |key| == 4 && k < 4 && 4 * quad + k < |payload|
    ensures |Masked(payload, key)| == |payload|
    ensures Masked(payload, key)[4 * quad + k] == payload[4 * quad + k] ^ key[k]
  {
    assert (4 * quad + k) % 4 == k;
  }

  lemma {:induction false} MaskTwice(payload: seq<byte>, key: seq<byte>)
    requires |key| == 4
    ensures Masked(Masked(payload, key), key) == payload
  {
    forall i | 0 <= i < |payload| ensures (payload[i] ^ key[i % 4]) ^ key[i % 4] == payload[i] {
      XorTwice(payload[i], key[i % 4]);
    }
  }

  lemma {:induction false} XorTwice(a: byte, m: byte)
    ensures (a ^ m) ^ m == a
  {
  }

  /** A frame as section 5.2 lays it out: with a mask its key comes first, and its payload is masked with it. */
  function LaidOut(frame: Frame, key: seq<byte>): seq<byte>
    requires Fits(frame.head) && |key| == 4
  {
    HeadBytes(frame.head) + if frame.head.masked then key + Masked(frame.payload, key) else frame.payload
  }

  /**
   What the client reads of a frame laid out so: it disregards the mask bit, and takes the key of a masked
   one for the beginning of the payload.
   */
  lemma {:induction false} MaskIsMisread(frame: Frame, key: seq<byte>, rest: seq<byte>)
    requires Proper(frame) && |key| == 4 && frame.head.masked
    ensures var body, n := key + Masked(frame.payload, key) + rest, |frame.payload|;
      ReadFrame(LaidOut(frame, key) + rest) == Some((Frame(frame.head, body[..n]), body[n..]))
  {
    var masked := key + Masked(frame.payload, key);
    Regroup(HeadBytes(frame.head), masked, rest);
    HeadReadsBack(frame.head, masked + rest);
  }

  /** So it reads a frame as it was meant exactly if that has no mask. */
  lemma {:induction false} ReadAsLaidOutIff(frame: Frame, key: seq<byte>, rest: seq<byte>)
    requires Proper(frame) && |key| == 4
    ensures ReadFrame(LaidOut(frame, key) + rest) == Some((frame, rest)) <==> !frame.head.masked
  {
    if frame.head.masked {
      MaskIsMisread(frame, key, rest);
    } else {
      FrameReadsBack(frame, rest);
    }
  }

  /** What a server makes of the bytes of a client: head, key, and the payload without its mask. */
  function ServerReads(s: seq<byte>): Option<(Frame, seq<byte>)> {
    match ReadHead(s)
    case None => None
    case Some((head, rest)) =>
      if !head.masked || |rest| < 4 + Length(head) then None
      else Some((Frame(head, Masked(rest[4..][..Length(head)], rest[..4])), rest[4..][Length(head)..]))
  }

  /** The shortest form for a length, which is the one to use; none says more than eight bytes can. */
  function FormFor(length: nat): Form {
    if length < 126 then Short(length)
    else if length < TWO_BYTES then Medium(BigEndian(length, 2))
    else Long(BigEndian(length, 8))
  }

  lemma {:induction false} TwoBytesSay(bytes: seq<byte>)
    requires |bytes| == 2
    ensures FromBigEndian(bytes) < TWO_BYTES
  {
    assert bytes == [bytes[0]] + [bytes[1]];
    FirstCountsMost(bytes[0], [bytes[1]]);
    FirstCountsMost(bytes[1], []);
    assert [bytes[1]] + [] == [bytes[1]];
    ByteIsItself(bytes[0]);
    ByteIsItself(bytes[1]);
    assert Pow256(1) == 256 * Pow256(0) == 256;
  }

  /** A single text frame from the client. */
  function TextHead(length: nat): Head { Head(0x81, true, FormFor(length)) }

  /** It is final, masked and a text, and says the length in the shortest form that can. */
  lemma {:induction false} TextHeadSays(length: nat)
    requires length < EIGHT_BYTES
    ensures Fits(TextHead(length)) && Length(TextHead(length)) == length
    ensures TextHead(length).first as int == 128 + 1 && TextHead(length).masked
    ensures forall head :: Fits(head) && Length(head) == length ==>
      |HeadBytes(TextHead(length))| <= |HeadBytes(head)|
  {
    forall head | Fits(head) && Length(head) == length
      ensures |HeadBytes(TextHead(length))| <= |HeadBytes(head)|
    {
      if head.form.Medium? { TwoBytesSay(head.form.bytes); }
    }
    Widths();
    if length >= 126 { BigEndianReadsBack(length, if length < TWO_BYTES then 2 else 8); }
  }

  ghost predicate IsTextFrame(bytes: seq<byte>, payload: seq<byte>) {
    forall rest :: ServerReads(bytes + rest) == Some((Frame(TextHead(|payload|), payload), rest))
  }

  lemma {:induction false} ServerReadsBack(head: Head, payload: seq<byte>, key: seq<byte>, rest: seq<byte>)
    requires |key| == 4 && head.masked && Proper(Frame(head, payload))
    ensures ServerReads((HeadBytes(head) + key + Masked(payload, key)) + rest) == Some((Frame(head, payload), rest))
  {
    var body := key + (Masked(payload, key) + rest);
    assert (HeadBytes(head) + key + Masked(payload, key)) + rest == HeadBytes(head) + body;
    HeadReadsBack(head, body);
    assert body[..4] == key && body[4..] == Masked(payload, key) + rest;
    assert body[4..][..|payload|] == Masked(payload, key) && body[4..][|payload|..] == rest;
    MaskTwice(payload, key);
  }

  /** The pong that answers a ping: final, masked, and empty. */
  function Pong(key: seq<byte>): seq<byte> { [0x8A, 0x80] + key }

  predicate IsPong(bytes: seq<byte>) { |bytes| == 6 && bytes == Pong(bytes[2..]) }

  /** Four bytes, whichever they are. */
  method RandomKey() returns (key: seq<byte>)
    ensures |key| == 4
  {
    assert |[0 as byte, 0, 0, 0]| == 4;
    key :| |key| == 4;
  }

  /**
   Section 5.5.3 wants a pong to carry the ping's own payload: this one, which does arrive as a pong,
   carries it exactly when there was none.
   */
  lemma {:induction false} PongAnswersIff(ping: Frame, key: seq<byte>, rest: seq<byte>)
    requires |key| == 4
    ensures ServerReads(Pong(key) + rest).Some?
    ensures var (pong, after) := ServerReads(Pong(key) + rest).value;
      after == rest && Opcode(pong) == 0xA && Final(pong) && (pong.payload == ping.payload <==> ping.payload == [])
  {
    var head := Head(0x8A, true, Short(0));
    assert HeadBytes(head) == [0x8A, 0x80];
    assert Masked([], key) == [];
    assert Pong(key) == HeadBytes(head) + key + Masked([], key);
    ServerReadsBack(head, [], key, rest);
  }

  // ------------------------------------------------------------------- the socket

  function Flat(chunks: seq<seq<byte>>): seq<byte> {
    if chunks == [] then [] else chunks[0] + Flat(chunks[1..])
  }

  class WebSocket {
    var buffer: seq<byte>
    /** What each further read of the socket gives; after that the other side has closed it. */
    var incoming: seq<seq<byte>>
    /** What has been put on the socket, write by write. */
    var sent: seq<seq<byte>>

    ghost predicate Valid()
      reads this
    {
      forall i :: 0 <= i < |incoming| ==> incoming[i] != []
    }

    /** The stream as it is still to be taken: what is buffered, then what is to come. */
    ghost function Pending(): seq<byte>
      reads this
    {
      buffer + Flat(incoming)
    }

    /** `_recv_exact`: the next bytes of the stream, however it is cut; nothing if it ends before. */
    method RecvExact(count: nat) returns (taken: Option<seq<byte>>)
      requires Valid()
      modifies `buffer, `incoming
      ensures Valid()
      ensures taken.Some? <==> count <= |old(Pending())|
      ensures taken.Some? ==> taken.value == old(Pending())[..count] && Pending() == old(Pending())[count..]
    {
      while |buffer| < count
        invariant Valid() && Pending() == old(Pending())
        decreases |incoming|
      {
        if incoming == [] { return None; }
        assert buffer + (incoming[0] + Flat(incoming[1..])) == (buffer + incoming[0]) + Flat(incoming[1..]);
        buffer, incoming := buffer + incoming[0], incoming[1..];
      }
      assert (buffer + Flat(incoming))[..count] == buffer[..count];
      assert (buffer + Flat(incoming))[count..] == buffer[count..] + Flat(incoming);
      taken, buffer := Some(buffer[..count]), buffer[count..];
    }

    /** The head of the next frame. */
    method RecvHead() returns (head: Option<Head>)
      requires Valid()
      modifies `buffer, `incoming
      ensures Valid()
      ensures head.Some? <==> ReadHead(old(Pending())).Some?
      ensures head.Some? ==> ReadHead(old(Pending())) == Some((head.value, Pending()))
    {
      ghost var s := Pending();
      var two := RecvExact(2);
      if two.None? { return None; }
      var first, second := two.value[0], two.value[1];
      var seven := (second & 0x7F) as int;
      var form := Short(seven);
      if seven == 126 {
        var more := RecvExact(2);
        if more.None? { return None; }
        assert s[2..][..2] == s[2..4] && s[2..][2..] == s[4..];
        form := Medium(more.value);
      } else if seven == 127 {
        var more := RecvExact(8);
        if more.None? { return None; }
        assert s[2..][..8] == s[2..10] && s[2..][8..] == s[10..];
        form := Long(more.value);
      }
      head := Some(Head(first, second & 0x80 != 0, form));
    }

    method RecvFrame() returns (frame: Option<Frame>)
      requires Valid()
      modifies `buffer, `incoming
      ensures Valid()
      ensures frame.Some? <==> ReadFrame(old(Pending())).Some?
      ensures frame.Some? ==> ReadFrame(old(Pending())) == Some((frame.value, Pending()))
    {
      var head := RecvHead();
      if head.None? { return None; }
      var payload := RecvExact(Length(head.value));
      if payload.None? { return None; }
      frame := Some(Frame(head.value, payload.value));
    }

    /** `recv`: one message, put together from its frames; pings are answered and pongs passed over. */
    method Recv() returns (received: Received)
      requires Valid()
      modifies this
      ensures Valid()
      ensures var reading := Receive(old(Pending()), [], 0);
        && received == reading.received && (received != Lost ==> Pending() == reading.rest)
        && |sent| == |old(sent)| + reading.pings && old(sent) <= sent
      ensures forall i :: |old(sent)| <= i < |sent| ==> IsPong(sent[i])
    {
      var gathered: seq<byte> := [];
      ghost var pings: nat := 0;
      ghost var reading := Receive(Pending(), [], 0);
      while true
        invariant Valid() && |sent| == |old(sent)| + pings && old(sent) <= sent
        invariant Receive(Pending(), gathered, pings) == reading
        invariant forall i :: |old(sent)| <= i < |sent| ==> IsPong(sent[i])
        decreases |Pending()|
      {
        var next := RecvFrame();
        if next.None? { return Lost; }
        var frame := next.value;
        if IsClose(frame) { return Closed; }
        if IsPing(frame) {
          var key := RandomKey();
          sent, pings := sent + [Pong(key)], pings + 1;
          continue;
        }
        if !IsData(frame) { continue; }
        gathered := gathered + frame.payload;
        if Final(frame) { return Text(gathered); }
      }
    }

    /** `send`: one text frame, in the shortest form there is for it; a text too long for any is refused. */
    method Send(payload: seq<byte>) returns (ok: bool)
      modifies `sent
      ensures ok <==> |payload| < EIGHT_BYTES
      ensures ok ==> |sent| == |old(sent)| + 1 && old(sent) <= sent && IsTextFrame(sent[|sent| - 1], payload)
      ensures !ok ==> sent == old(sent)
    {
      var header: seq<byte> := [0x81];
      var length := |payload|;
      if length < 126 { header := header + [0x80 | (length as byte)]; }
      else if length < TWO_BYTES { header := header + [0x80 | 126] + BigEndian(length, 2); }
      else if length < EIGHT_BYTES { header := header + [0x80 | 127] + BigEndian(length, 8); }
      else { return false; }
      var key := RandomKey();
      TextHeadSays(length);
      assert header == HeadBytes(TextHead(length));
      forall rest ensures ServerReads((header + key + Masked(payload, key)) + rest)
        == Some((Frame(TextHead(length), payload), rest))
      {
        ServerReadsBack(TextHead(length), payload, key, rest);
      }
      sent := sent + [header + key + Masked(payload, key)];
      return true;
    }
  }
}
