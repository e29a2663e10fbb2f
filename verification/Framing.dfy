/**
 The daemon's wire format: 20-byte little-endian headers, each followed by its payload, and the
 server loop that reads requests off a connection.
 */
module Framing {
  import opened Arithmetic
  import opened Wrappers

  type byte = b: int | 0 <= b < 256

  const IPC_MAGIC: nat := 0x71_75_62_78
  const IPC_VERSION: nat := 1
  const IPC_HEADER_SIZE: nat := 20
  const IPC_MAX_PAYLOAD: nat := 0x10_0000

  datatype Header = Header(magic: nat, version: nat, kind: nat, correlationId: nat, payloadLen: nat) {
    /** What a reader accepts. */
    predicate Legal() {
      magic == IPC_MAGIC && version == IPC_VERSION && kind < U16 && correlationId < U64 && payloadLen <= IPC_MAX_PAYLOAD
    }
  }

  datatype DecodeError = BadMagic(magic: nat) | UnsupportedVersion(version: nat) | PayloadTooLarge(len: nat)

  /** The `n` low bytes of `v`, least significant first. */
  function ToLe(v: nat, n: nat): (s: seq<byte>)
    ensures |s| == n
  {
    if n == 0 then [] else [v % 256] + ToLe(v / 256, n - 1)
  }

  function FromLe(s: seq<byte>): nat {
    if s == [] then 0 else s[0] + 256 * FromLe(s[1..])
  }

  function Encode(h: Header): (s: seq<byte>)
    ensures |s| == IPC_HEADER_SIZE
  {
    ToLe(h.magic, 4) + ToLe(h.version, 2) + ToLe(h.kind, 2) + ToLe(h.correlationId, 8) + ToLe(h.payloadLen, 4)
  }

  function Decode(s: seq<byte>): Result<Header, DecodeError>
    requires |s| == IPC_HEADER_SIZE
  {
    var h := Header(FromLe(s[0..4]), FromLe(s[4..6]), FromLe(s[6..8]), FromLe(s[8..16]), FromLe(s[16..20]));
    if h.magic != IPC_MAGIC then Err(BadMagic(h.magic))
    else if h.version != IPC_VERSION then Err(UnsupportedVersion(h.version))
    else if h.payloadLen > IPC_MAX_PAYLOAD then Err(PayloadTooLarge(h.payloadLen))
    else Ok(h)
  }

  // ---- Little-endian integers -----------------------------------------------------------------

  function Pow256(n: nat): (p: nat)
    ensures p > 0
  {
    if n == 0 then 1 else 256 * Pow256(n - 1)
  }

  lemma {:induction false} LeRoundTrip(v: nat, n: nat)
    requires v < Pow256(n)
    ensures FromLe(ToLe(v, n)) == v
  {
    if n > 0 {
      LeRoundTrip(v / 256, n - 1);
      assert ToLe(v, n)[1..] == ToLe(v / 256, n - 1);
    }
  }

  lemma {:induction false} LeIsFaithful(s: seq<byte>)
    ensures FromLe(s) < Pow256(|s|) && ToLe(FromLe(s), |s|) == s
  {
    if s != [] {
      LeIsFaithful(s[1..]);
      assert FromLe(s) % 256 == s[0] && FromLe(s) / 256 == FromLe(s[1..]);
    }
  }

  /** Little-endian: byte `i` is the `i`-th digit of the value in base 256. */
  lemma {:induction false} LeByteAt(v: nat, n: nat, i: nat)
    requires i < n
    ensures ToLe(v, n)[i] == v / Pow256(i) % 256
  {
    if i > 0 {
      LeByteAt(v / 256, n - 1, i - 1);
      DivDiv(v, Pow256(i - 1));
    }
  }

  lemma {:induction false} DivDiv(v: nat, d: nat)
    requires d > 0 && 256 * d > 0
    ensures v / 256 / d == v / (256 * d)
  {
    var q := v / 256 / d;
    var w := v / 256;
    assert q * d <= w < q * d + d;
    assert q * (256 * d) == 256 * (q * d);
    DivUnique(v, 256 * d, q);
  }

  lemma {:induction false} Widths()
    ensures Pow256(2) == U16 && Pow256(4) == U32 && Pow256(8) == U64
  {
    assert Pow256(3) == 256 * Pow256(2) && Pow256(5) == 256 * Pow256(4);
    assert Pow256(6) == 256 * Pow256(5) && Pow256(7) == 256 * Pow256(6);
  }

  /** The five fields of an encoded header sit where the reader looks for them. */
  lemma {:induction false} Fields(h: Header)
    ensures var s := Encode(h);
            && s[0..4] == ToLe(h.magic, 4) && s[4..6] == ToLe(h.version, 2) && s[6..8] == ToLe(h.kind, 2)
            && s[8..16] == ToLe(h.correlationId, 8) && s[16..20] == ToLe(h.payloadLen, 4)
  {
  }

  lemma {:induction false} Sliced(s: seq<byte>)
    requires |s| == IPC_HEADER_SIZE
    ensures s == s[0..4] + s[4..6] + s[6..8] + s[8..16] + s[16..20]
  {
  }

  /** `decode` accepts exactly the images of `encode` with legal fields, and gives those fields back. */
  lemma {:induction false} DecodeAcceptsExactlyEncodings(s: seq<byte>, h: Header)
    requires |s| == IPC_HEADER_SIZE
    ensures Decode(s) == Ok(h) <==> h.Legal() && s == Encode(h)
  {
    Widths();
    if h.Legal() && s == Encode(h) {
      Fields(h);
      LeRoundTrip(h.magic, 4);
      LeRoundTrip(h.version, 2);
      LeRoundTrip(h.kind, 2);
      LeRoundTrip(h.correlationId, 8);
      LeRoundTrip(h.payloadLen, 4);
    }
    if Decode(s) == Ok(h) {
      Sliced(s);
      LeIsFaithful(s[0..4]);
      LeIsFaithful(s[4..6]);
      LeIsFaithful(s[6..8]);
      LeIsFaithful(s[8..16]);
      LeIsFaithful(s[16..20]);
    }
  }

  /** Why a header is rejected: the first of magic, version and length that is wrong. */
  lemma {:induction false} RejectsInOrder(s: seq<byte>)
    requires |s| == 20
    ensures var magic, version, len := FromLe(s[0..4]), FromLe(s[4..6]), FromLe(s[16..20]);
            && (magic != 0x71_75_62_78 ==> Decode(s) == Err(BadMagic(magic)))
            && (magic == 0x71_75_62_78 && version != 1 ==> Decode(s) == Err(UnsupportedVersion(version)))
            && (magic == 0x71_75_62_78 && version == 1 && len > 0x10_0000 ==> Decode(s) == Err(PayloadTooLarge(len)))
            && (magic == 0x71_75_62_78 && version == 1 && len <= 0x10_0000 ==> Decode(s).Ok?)
  {
  }

  // ---- Frames ---------------------------------------------------------------------------------

  datatype Frame = Frame(kind: nat, correlationId: nat, payload: seq<byte>) {
    /** The fields fit their integer types. */
    predicate Typed() {
      kind < U16 && correlationId < U64
    }

    /** The reader's limit holds as well. */
    predicate Legal() {
      Typed() && |payload| <= IPC_MAX_PAYLOAD
    }
  }

  function HeaderOf(f: Frame): Header {
    Header(IPC_MAGIC, IPC_VERSION, f.kind, f.correlationId, |f.payload| % U32)
  }

  /** A frame as every writer writes it; the length is cast to 32 bits and not checked. */
  function FrameBytes(f: Frame): seq<byte> {
    Encode(HeaderOf(f)) + f.payload
  }

  datatype ReadResult =
    | Got(frame: Frame, rest: seq<byte>)
    | ShortHeader
    | BadHeader(error: DecodeError)
    | ShortPayload

  /** One frame off the front of a stream. */
  function ReadFrame(s: seq<byte>): ReadResult {
    if |s| < IPC_HEADER_SIZE then ShortHeader
    else
      match Decode(s[..IPC_HEADER_SIZE])
      case Err(e) => BadHeader(e)
      case Ok(h) =>
        var end := IPC_HEADER_SIZE + h.payloadLen;
        if |s| < end then ShortPayload
        else Got(Frame(h.kind, h.correlationId, s[IPC_HEADER_SIZE..end]), s[end..])
  }

  /** A length beyond the limit is rejected by the header alone. */
  lemma {:induction false} OversizeIsRejected(h: Header)
    requires h.magic == IPC_MAGIC && h.version == IPC_VERSION && IPC_MAX_PAYLOAD < h.payloadLen < U32
    ensures Decode(Encode(h)) == Err(PayloadTooLarge(h.payloadLen))
  {
    Fields(h);
    Widths();
    LeRoundTrip(h.magic, 4);
    LeRoundTrip(h.version, 2);
    LeRoundTrip(h.payloadLen, 4);
  }

  lemma {:induction false} CutBehindHeader(header: seq<byte>, payload: seq<byte>, rest: seq<byte>, len: nat)
    requires len <= |payload|
    ensures var s, n := header + payload + rest, |header|;
            s[..n] == header && s[n..n + len] == payload[..len] && s[n + len..] == payload[len..] + rest
  {
  }

  /**
   What a reader makes of any frame a writer wrote: it believes the length in the header, which for payloads of 4 GiB
   and more is the length modulo 2^32, and rejects it or cuts the payload there.
   */
  lemma {:induction false} WrittenReadsAs(f: Frame, rest: seq<byte>)
    requires f.Typed()
    ensures var len := |f.payload| % U32;
            && len <= |f.payload|
            && ReadFrame(FrameBytes(f) + rest)
               == if len > IPC_MAX_PAYLOAD then BadHeader(PayloadTooLarge(len))
                  else Got(f.(payload := f.payload[..len]), f.payload[len..] + rest)
  {
    var s, h, len := FrameBytes(f) + rest, HeaderOf(f), |f.payload| % U32;
    CutBehindHeader(Encode(h), f.payload, rest, len);
    if len > IPC_MAX_PAYLOAD {
      OversizeIsRejected(h);
    } else {
      DecodeAcceptsExactlyEncodings(s[..IPC_HEADER_SIZE], h);
    }
  }

  lemma {:induction false} WrittenIsRead(f: Frame, rest: seq<byte>)
    requires f.Legal()
    ensures ReadFrame(FrameBytes(f) + rest) == Got(f, rest)
  {
    WrittenReadsAs(f, rest);
    assert f.payload[|f.payload|..] + rest == rest;
  }

  lemma {:induction false} ThreeParts(s: seq<byte>, a: nat, b: nat)
    requires a <= b <= |s|
    ensures s == s[..a] + s[a..b] + s[b..]
  {
  }

  lemma {:induction false} BytesOfHeader(h: Header, payload: seq<byte>)
    requires h.Legal() && |payload| == h.payloadLen
    ensures FrameBytes(Frame(h.kind, h.correlationId, payload)) == Encode(h) + payload
  {
    assert HeaderOf(Frame(h.kind, h.correlationId, payload)) == h;
  }

  lemma {:induction false} ReadIsWritten(s: seq<byte>)
    requires ReadFrame(s).Got?
    ensures var r := ReadFrame(s);
            r.frame.Legal() && s == FrameBytes(r.frame) + r.rest
  {
    var h := Decode(s[..IPC_HEADER_SIZE]).value;
    DecodeAcceptsExactlyEncodings(s[..IPC_HEADER_SIZE], h);
    BytesOfHeader(h, ReadFrame(s).frame.payload);
    ThreeParts(s, IPC_HEADER_SIZE, IPC_HEADER_SIZE + h.payloadLen);
  }

  /** Reading inverts writing, in both directions: a frame is read exactly when a legal one was written. */
  lemma {:induction false} ReadInvertsWrite(s: seq<byte>, f: Frame, rest: seq<byte>)
    ensures ReadFrame(s) == Got(f, rest) <==> f.Legal() && s == FrameBytes(f) + rest
  {
    if f.Legal() {
      WrittenIsRead(f, rest);
    }
    if ReadFrame(s).Got? {
      ReadIsWritten(s);
    }
  }

  /** The writers' missing check: what they write is read back exactly when the payload is within the reader's limit. */
  lemma {:induction false} WrittenFrameIsReadableIff(f: Frame, rest: seq<byte>)
    requires f.Typed()
    ensures ReadFrame(FrameBytes(f) + rest) == Got(f, rest) <==> |f.payload| <= IPC_MAX_PAYLOAD
  {
    ReadInvertsWrite(FrameBytes(f) + rest, f, rest);
  }

  // ---- Streams of frames ----------------------------------------------------------------------

  function Wire(frames: seq<Frame>): seq<byte> {
    if frames == [] then [] else FrameBytes(frames[0]) + Wire(frames[1..])
  }

  /** The frames a reader takes that stops at the first byte it cannot accept, and what it leaves. */
  function Take(s: seq<byte>, accepts: Frame -> bool): (seq<Frame>, seq<byte>)
    decreases |s|
  {
    var r := ReadFrame(s);
    if r.Got? && accepts(r.frame) then
      var (more, left) := Take(r.rest, accepts);
      ([r.frame] + more, left)
    else ([], s)
  }

  ghost predicate AllAccepted(frames: seq<Frame>, accepts: Frame -> bool) {
    forall i :: 0 <= i < |frames| ==> frames[i].Legal() && accepts(frames[i])
  }

  /** The stream goes on with one more acceptable frame. */
  ghost predicate StartsAccepted(s: seq<byte>, accepts: Frame -> bool) {
    exists f: Frame, rest: seq<byte> :: f.Legal() && accepts(f) && s == FrameBytes(f) + rest
  }

  lemma {:induction false} StartsAcceptedIff(s: seq<byte>, accepts: Frame -> bool)
    ensures StartsAccepted(s, accepts) <==> ReadFrame(s).Got? && accepts(ReadFrame(s).frame)
  {
    if StartsAccepted(s, accepts) {
      var f: Frame, rest: seq<byte> :| f.Legal() && accepts(f) && s == FrameBytes(f) + rest;
      ReadInvertsWrite(s, f, rest);
    }
    if ReadFrame(s).Got? {
      ReadInvertsWrite(s, ReadFrame(s).frame, ReadFrame(s).rest);
    }
  }

  lemma {:induction false} TakeSound(s: seq<byte>, accepts: Frame -> bool)
    ensures var (frames, left) := Take(s, accepts);
            s == Wire(frames) + left && AllAccepted(frames, accepts) && !StartsAccepted(left, accepts)
    decreases |s|
  {
    StartsAcceptedIff(s, accepts);
    var r := ReadFrame(s);
    if r.Got? && accepts(r.frame) {
      ReadIsWritten(s);
      TakeSound(r.rest, accepts);
      WireCons(r.frame, Take(r.rest, accepts).0, Take(r.rest, accepts).1);
    }
  }

  lemma {:induction false} WireCons(f: Frame, more: seq<Frame>, left: seq<byte>)
    ensures Wire([f] + more) + left == FrameBytes(f) + (Wire(more) + left)
  {
    assert ([f] + more)[1..] == more;
  }

  lemma {:induction false} TakeComplete(frames: seq<Frame>, left: seq<byte>, accepts: Frame -> bool)
    requires AllAccepted(frames, accepts) && !StartsAccepted(left, accepts)
    ensures Take(Wire(frames) + left, accepts) == (frames, left)
  {
    if frames == [] {
      StartsAcceptedIff(left, accepts);
      assert Wire(frames) + left == left;
    } else {
      TakeComplete(frames[1..], left, accepts);
      WireCons(frames[0], frames[1..], left);
      assert [frames[0]] + frames[1..] == frames;
      WrittenIsRead(frames[0], Wire(frames[1..]) + left);
    }
  }

  /**
   Unique decoding of any byte stream: the frames taken are the one list of acceptable frames whose
   bytes the stream starts with and after which no further acceptable frame follows.
   */
  lemma {:induction false} TakeIsTheLongestPrefix(
    s: seq<byte>, accepts: Frame -> bool, frames: seq<Frame>, left: seq<byte>)
    ensures Take(s, accepts) == (frames, left)
            <==> s == Wire(frames) + left && AllAccepted(frames, accepts) && !StartsAccepted(left, accepts)
  {
    TakeSound(s, accepts);
    if AllAccepted(frames, accepts) && !StartsAccepted(left, accepts) {
      TakeComplete(frames, left, accepts);
    }
  }

  lemma {:induction false} NothingStartsEmpty(accepts: Frame -> bool)
    ensures !StartsAccepted([], accepts)
  {
    StartsAcceptedIff([], accepts);
  }

  /** Round trip: any list of frames within the limit, written back to back, is read back as that list. */
  lemma {:induction false} FramingRoundTrip(frames: seq<Frame>)
    requires forall i :: 0 <= i < |frames| ==> frames[i].Legal()
    ensures Take(Wire(frames), _ => true) == (frames, [])
  {
    NothingStartsEmpty(_ => true);
    TakeIsTheLongestPrefix(Wire(frames), _ => true, frames, []);
    assert Wire(frames) + [] == Wire(frames);
  }

  // ---- The server loop ------------------------------------------------------------------------

  /** A request the server dispatches: kind 1 with a payload that deserialises. */
  function IsRequest(deserialises: seq<byte> -> bool): Frame -> bool {
    (f: Frame) => f.kind == 1 && deserialises(f.payload)
  }

  /** These are all frames of kind 1 within the limit, with payloads that are requests. */
  ghost predicate AllRequests(frames: seq<Frame>, deserialises: seq<byte> -> bool) {
    forall i :: 0 <= i < |frames| ==>
      && frames[i].kind == 1 && frames[i].correlationId < U64
      && |frames[i].payload| <= IPC_MAX_PAYLOAD && deserialises(frames[i].payload)
  }

  /** These bytes begin with one more such frame. */
  ghost predicate StartsRequest(s: seq<byte>, deserialises: seq<byte> -> bool) {
    exists f: Frame, rest: seq<byte> :: AllRequests([f], deserialises) && s == FrameBytes(f) + rest
  }

  lemma {:induction false} StartsRequestIff(s: seq<byte>, deserialises: seq<byte> -> bool)
    ensures StartsRequest(s, deserialises) <==> StartsAccepted(s, IsRequest(deserialises))
  {
    if StartsRequest(s, deserialises) {
      var f: Frame, rest: seq<byte> :| AllRequests([f], deserialises) && s == FrameBytes(f) + rest;
      assert [f][0] == f && IsRequest(deserialises)(f);
    }
    if StartsAccepted(s, IsRequest(deserialises)) {
      var f: Frame, rest: seq<byte> :| f.Legal() && IsRequest(deserialises)(f) && s == FrameBytes(f) + rest;
      assert AllRequests([f], deserialises);
    }
  }

  /** What the server dispatches: the requests the stream begins with, all of them, and nothing else. */
  lemma {:induction false} DispatchesRequests(
    s: seq<byte>, deserialises: seq<byte> -> bool, frames: seq<Frame>, left: seq<byte>)
    ensures Take(s, IsRequest(deserialises)) == (frames, left)
            <==> s == Wire(frames) + left && AllRequests(frames, deserialises) && !StartsRequest(left, deserialises)
  {
    TakeIsTheLongestPrefix(s, IsRequest(deserialises), frames, left);
    StartsRequestIff(left, deserialises);
  }

  /** However the stream is cut into requests and a rest that begins with none, these are the requests. */
  ghost predicate AreTheRequests(dispatched: seq<Frame>, s: seq<byte>, deserialises: seq<byte> -> bool) {
    && AllRequests(dispatched, deserialises)
    && forall frames: seq<Frame>, left: seq<byte> ::
         s == Wire(frames) + left && AllRequests(frames, deserialises) && !StartsRequest(left, deserialises) ==>
           dispatched == frames
  }

  lemma {:induction false} TakesTheRequests(s: seq<byte>, deserialises: seq<byte> -> bool)
    ensures AreTheRequests(Take(s, IsRequest(deserialises)).0, s, deserialises)
  {
    var (dispatched, rest) := Take(s, IsRequest(deserialises));
    DispatchesRequests(s, deserialises, dispatched, rest);
    forall frames: seq<Frame>, left: seq<byte>
      | s == Wire(frames) + left && AllRequests(frames, deserialises) && !StartsRequest(left, deserialises)
      ensures dispatched == frames
    {
      DispatchesRequests(s, deserialises, frames, left);
    }
  }

  /** Reads a header and its payload, as the server and the client both do. */
  method NextFrame(stream: seq<byte>) returns (r: ReadResult)
    ensures r == ReadFrame(stream)
  {
    if |stream| < IPC_HEADER_SIZE {
      return ShortHeader;
    }
    var decoded := Decode(stream[..IPC_HEADER_SIZE]);
    match decoded {
      case Err(e) =>
        return BadHeader(e);
      case Ok(header) =>
        var end := IPC_HEADER_SIZE + header.payloadLen;
        if |stream| < end {
          return ShortPayload;
        }
        return Got(Frame(header.kind, header.correlationId, stream[IPC_HEADER_SIZE..end]), stream[end..]);
    }
  }

  lemma {:induction false} TakeOne(s: seq<byte>, accepts: Frame -> bool)
    ensures var r := ReadFrame(s);
            Take(s, accepts).0 == if r.Got? && accepts(r.frame) then [r.frame] + Take(r.rest, accepts).0 else []
    ensures ReadFrame(s).Got? ==> |ReadFrame(s).rest| < |s|
  {
  }

  /** Reads and dispatches until the stream ends or offers anything but a request. */
  method HandleConnection(input: seq<byte>, deserialises: seq<byte> -> bool) returns (dispatched: seq<Frame>)
    ensures dispatched == Take(input, IsRequest(deserialises)).0
    ensures AreTheRequests(dispatched, input, deserialises)
  {
    TakesTheRequests(input, deserialises);
    var stream := input;
    dispatched := [];
    while true
      invariant Take(input, IsRequest(deserialises)).0 == dispatched + Take(stream, IsRequest(deserialises)).0
      decreases |stream|
    {
      TakeOne(stream, IsRequest(deserialises));
      var r := NextFrame(stream);
      match r {
        case Got(frame, rest) =>
          if frame.kind != 1 || !deserialises(frame.payload) {
            return;
          }
          dispatched := dispatched + [frame];
          stream := rest;
        case _ =>
          return;
      }
    }
  }
}
