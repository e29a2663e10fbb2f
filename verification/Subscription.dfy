/**
 The event subscription: the server answers with an acknowledgement, pushes events, and closes with a
 terminal response; the client collects the events until the terminal response or until the
 connection drops.  Serialisation of events and responses is a parameter.
 */
module Subscription {
  import opened Arithmetic
  import opened Wrappers
  import opened Framing

  datatype Codec<!E> = Codec(ser: E -> seq<byte>, de: seq<byte> -> Option<E>)

  /** What a serialisation library promises: reading back what was written gives the same value. */
  ghost predicate RoundTrips<E(!new)>(c: Codec<E>) {
    forall e: E :: c.de(c.ser(e)) == Some(e)
  }

  /** No event is so large, 4 GiB or more, that its length cast to 32 bits passes for a legal one. */
  ghost predicate Measurable<E>(c: Codec<E>, events: seq<E>) {
    forall i :: 0 <= i < |events| ==> Fits(c, events[i]) || |c.ser(events[i])| % U32 > IPC_MAX_PAYLOAD
  }

  predicate Fits<E>(c: Codec<E>, e: E) {
    |c.ser(e)| <= IPC_MAX_PAYLOAD
  }

  function EventBytes<E>(c: Codec<E>, corr: nat, events: seq<E>): seq<byte> {
    if events == [] then [] else FrameBytes(Frame(3, corr, c.ser(events[0]))) + EventBytes(c, corr, events[1..])
  }

  /** Everything the subscription handler writes; `ended` is the serialised unit response. */
  function ServerStream<E>(c: Codec<E>, corr: nat, ended: seq<byte>, events: seq<E>): seq<byte> {
    FrameBytes(Frame(2, corr, ended)) + (EventBytes(c, corr, events) + FrameBytes(Frame(2, corr, ended)))
  }

  /** The event a frame carries, if it is an event frame whose payload deserialises. */
  function Carried<E>(c: Codec<E>, f: Frame): seq<E> {
    if f.kind == 3 && c.de(f.payload).Some? then [c.de(f.payload).value] else []
  }

  /** The client's event loop: kind 2 ends it, kind 3 carries an event, other kinds are skipped. */
  function Collect<E>(c: Codec<E>, s: seq<byte>): seq<E>
    decreases |s|
  {
    match ReadFrame(s)
    case Got(f, rest) =>
      if f.kind == 2 then [] else Carried(c, f) + Collect(c, rest)
    case _ => []
  }

  /** The whole client: an acknowledgement first, whose payload may be cut short without complaint. */
  function Received<E>(c: Codec<E>, s: seq<byte>): Result<seq<E>, DecodeError> {
    match ReadFrame(s)
    case Got(_, rest) => Ok(Collect(c, rest))
    case BadHeader(e) => Err(e)
    case ShortHeader => Ok([])
    case ShortPayload => Ok([])
  }

  /** The events up to the first whose payload exceeds the reader's limit. */
  function Delivered<E>(c: Codec<E>, events: seq<E>): seq<E> {
    if events == [] || !Fits(c, events[0]) then [] else [events[0]] + Delivered(c, events[1..])
  }

  lemma {:induction false} EventBytesFrom<E>(c: Codec<E>, corr: nat, events: seq<E>, i: nat)
    requires i < |events|
    ensures EventBytes(c, corr, events[i..])
            == FrameBytes(Frame(3, corr, c.ser(events[i]))) + EventBytes(c, corr, events[i + 1..])
  {
    assert events[i..][1..] == events[i + 1..];
  }

  lemma {:induction false} Regroup<T>(a: seq<T>, b: seq<T>, d: seq<T>)
    ensures (a + b) + d == a + (b + d)
  {
  }

  method PushEvents<E>(c: Codec<E>, corr: nat, ended: seq<byte>, events: seq<E>) returns (stream: seq<byte>)
    ensures stream == ServerStream(c, corr, ended, events)
  {
    var ack := FrameBytes(Frame(2, corr, ended));
    ghost var body := EventBytes(c, corr, events);
    stream := ack;
    assert events[0..] == events;
    for i := 0 to |events|
      invariant stream + EventBytes(c, corr, events[i..]) == ack + body
    {
      EventBytesFrom(c, corr, events, i);
      var ev := FrameBytes(Frame(3, corr, c.ser(events[i])));
      Regroup(stream, ev, EventBytes(c, corr, events[i + 1..]));
      stream := stream + ev;
    }
    assert stream == ack + body;
    stream := stream + FrameBytes(Frame(2, corr, ended));
    Regroup(ack, body, FrameBytes(Frame(2, corr, ended)));
  }

  lemma {:induction false} CollectOne<E>(c: Codec<E>, s: seq<byte>)
    ensures var r := ReadFrame(s);
            if !r.Got? || r.frame.kind == 2 then Collect(c, s) == []
            else |r.rest| < |s| && Collect(c, s) == Carried(c, r.frame) + Collect(c, r.rest)
  {
  }

  /** The client's loop after the acknowledgement. */
  method ReadEvents<E>(c: Codec<E>, input: seq<byte>) returns (events: seq<E>)
    ensures events == Collect(c, input)
  {
    var stream := input;
    events := [];
    while true
      invariant Collect(c, input) == events + Collect(c, stream)
      decreases |stream|
    {
      CollectOne(c, stream);
      var next := NextFrame(stream);
      if !next.Got? || next.frame.kind == 2 {
        return;
      }
      Regroup(events, Carried(c, next.frame), Collect(c, next.rest));
      events := events + Carried(c, next.frame);
      stream := next.rest;
    }
  }

  method Subscribe<E>(c: Codec<E>, input: seq<byte>) returns (r: Result<seq<E>, DecodeError>)
    ensures r == Received(c, input)
  {
    var ack := NextFrame(input);
    match ack {
      case ShortHeader => return Ok([]);
      case BadHeader(e) => return Err(e);
      case ShortPayload => return Ok([]);
      case Got(_, rest) =>
        var events := ReadEvents(c, rest);
        return Ok(events);
    }
  }

  // ---- A complete exchange --------------------------------------------------------------------

  /** What the client makes of one more frame: an end, an event it can read, or nothing. */
  lemma {:induction false} CollectsFrame<E>(c: Codec<E>, f: Frame, rest: seq<byte>)
    requires f.Legal()
    ensures f.kind == 2 ==> Collect(c, FrameBytes(f) + rest) == []
    ensures f.kind == 3 && c.de(f.payload).Some? ==>
              Collect(c, FrameBytes(f) + rest) == [c.de(f.payload).value] + Collect(c, rest)
    ensures f.kind != 2 && (f.kind == 3 ==> c.de(f.payload).None?) ==>
              Collect(c, FrameBytes(f) + rest) == Collect(c, rest)
  {
    WrittenIsRead(f, rest);
  }

  /** The first frame, of any kind, is taken for the acknowledgement. */
  lemma {:induction false} AnyAck<E>(c: Codec<E>, ack: Frame, rest: seq<byte>)
    requires ack.Legal()
    ensures Received(c, FrameBytes(ack) + rest) == Ok(Collect(c, rest))
  {
    WrittenIsRead(ack, rest);
  }

  /**
   The client fails exactly on a first header it cannot accept: a wrong magic, a wrong version, or a length too large.
   */
  lemma {:induction false} FailsOnBadHeader<E>(c: Codec<E>, s: seq<byte>)
    ensures |s| < 20 ==> Received(c, s) == Ok([])
    ensures |s| >= 20 ==>
              var magic, version, len := FromLe(s[0..4]), FromLe(s[4..6]), FromLe(s[16..20]);
              && (magic != 0x71_75_62_78 ==> Received(c, s) == Err(BadMagic(magic)))
              && (magic == 0x71_75_62_78 && version != 1 ==> Received(c, s) == Err(UnsupportedVersion(version)))
              && (magic == 0x71_75_62_78 && version == 1 ==>
                    if len > 0x10_0000 then Received(c, s) == Err(PayloadTooLarge(len)) else Received(c, s).Ok?)
  {
    if |s| >= 20 {
      RejectsInOrder(s[..20]);
      assert s[..20][0..4] == s[0..4] && s[..20][4..6] == s[4..6] && s[..20][16..20] == s[16..20];
    }
  }

  lemma {:induction false} CollectWritten<E>(c: Codec<E>, f: Frame, rest: seq<byte>)
    requires f.Legal()
    ensures Collect(c, FrameBytes(f) + rest)
            == if f.kind == 2 then [] else Carried(c, f) + Collect(c, rest)
  {
    WrittenIsRead(f, rest);
  }

  lemma {:induction false} CollectOversize<E>(c: Codec<E>, f: Frame, rest: seq<byte>)
    requires f.Typed() && |f.payload| % U32 > IPC_MAX_PAYLOAD
    ensures Collect(c, FrameBytes(f) + rest) == []
  {
    WrittenReadsAs(f, rest);
  }

  lemma {:induction false} CollectsDelivered<E(!new)>(c: Codec<E>, corr: nat, events: seq<E>, terminal: seq<byte>)
    requires RoundTrips(c) && Measurable(c, events) && corr < U64 && Collect(c, terminal) == []
    ensures Collect(c, EventBytes(c, corr, events) + terminal) == Delivered(c, events)
  {
    if events == [] {
      assert EventBytes(c, corr, events) + terminal == terminal;
    } else {
      var f, later := Frame(3, corr, c.ser(events[0])), EventBytes(c, corr, events[1..]);
      Regroup(FrameBytes(f), later, terminal);
      if Fits(c, events[0]) {
        CollectWritten(c, f, later + terminal);
        CollectsDelivered(c, corr, events[1..], terminal);
      } else {
        CollectOversize(c, f, later + terminal);
      }
    }
  }

  /** After a frame of kind 2 nothing is collected. */
  lemma {:induction false} TerminalEnds<E>(c: Codec<E>, ack: Frame)
    requires ack.Legal() && ack.kind == 2
    ensures Collect(c, FrameBytes(ack)) == []
  {
    assert FrameBytes(ack) + [] == FrameBytes(ack);
    CollectWritten(c, ack, []);
  }

  /** The client stops at the terminal response: whatever follows on the connection, it has the handler's events. */
  lemma {:induction false} ClientStopsAtTerminal<E(!new)>(
    c: Codec<E>, corr: nat, ended: seq<byte>, events: seq<E>, more: seq<byte>)
    requires RoundTrips(c) && Measurable(c, events) && corr < U64 && |ended| <= IPC_MAX_PAYLOAD
    ensures Received(c, ServerStream(c, corr, ended, events) + more) == Ok(Delivered(c, events))
  {
    var ack, body := Frame(2, corr, ended), EventBytes(c, corr, events);
    var terminal := FrameBytes(ack) + more;
    StreamGoesOn(FrameBytes(ack), body, FrameBytes(ack), more);
    AnyAck(c, ack, body + terminal);
    CollectWritten(c, ack, more);
    CollectsDelivered(c, corr, events, terminal);
  }

  lemma {:induction false} StreamGoesOn<T>(a: seq<T>, b: seq<T>, d: seq<T>, e: seq<T>)
    ensures (a + (b + d)) + e == a + (b + (d + e))
  {
  }

  /** Read to its end, the handler's stream yields its events, up to the first one too large to frame. */
  lemma {:induction false} ExchangeDelivers<E(!new)>(c: Codec<E>, corr: nat, ended: seq<byte>, events: seq<E>)
    requires RoundTrips(c) && Measurable(c, events) && corr < U64 && |ended| <= IPC_MAX_PAYLOAD
    ensures Received(c, ServerStream(c, corr, ended, events)) == Ok(Delivered(c, events))
  {
    ClientStopsAtTerminal(c, corr, ended, events, []);
    assert ServerStream(c, corr, ended, events) + [] == ServerStream(c, corr, ended, events);
  }

  lemma {:induction false} DeliveredIsPrefix<E>(c: Codec<E>, events: seq<E>)
    ensures Delivered(c, events) <= events
    ensures Delivered(c, events) == events <==> forall i :: 0 <= i < |events| ==> Fits(c, events[i])
  {
    if events != [] {
      DeliveredIsPrefix(c, events[1..]);
      if Fits(c, events[0]) {
        assert events == [events[0]] + events[1..];
        assert (forall i :: 0 <= i < |events| ==> Fits(c, events[i]))
               <==> (forall i :: 0 <= i < |events[1..]| ==> Fits(c, events[1..][i])) by {
          assert forall i :: 0 < i < |events| ==> events[i] == events[1..][i - 1];
        }
      }
    }
  }

  /** The delivered events are the longest front of the list whose payloads stay within 1 MiB. */
  lemma {:induction false} DeliveredIsLongest<E>(c: Codec<E>, events: seq<E>)
    ensures var n := |Delivered(c, events)|;
            && Delivered(c, events) <= events
            && (forall i :: 0 <= i < n ==> |c.ser(events[i])| <= 0x10_0000)
            && (n < |events| ==> |c.ser(events[n])| > 0x10_0000)
  {
    if events != [] && Fits(c, events[0]) {
      DeliveredIsLongest(c, events[1..]);
      var n := |Delivered(c, events[1..])|;
      assert events == [events[0]] + events[1..];
      assert forall i :: 0 < i <= n ==> i < |events| ==> events[i] == events[1..][i - 1];
    }
  }

  /** The handler's stream, frame by frame: the acknowledgement, one frame for each event, the terminal response. */
  lemma {:induction false} StreamIsWire<E>(
    c: Codec<E>, corr: nat, ended: seq<byte>, events: seq<E>, frames: seq<Frame>)
    requires |frames| == |events| + 2
    requires frames[0] == Frame(2, corr, ended) && frames[|events| + 1] == Frame(2, corr, ended)
    requires forall i :: 0 <= i < |events| ==> frames[i + 1] == Frame(3, corr, c.ser(events[i]))
    ensures ServerStream(c, corr, ended, events) == Wire(frames)
  {
    var last := frames[|events| + 1];
    EventBytesIsWire(c, corr, events, frames[1..]);
    assert frames == [frames[0]] + frames[1..];
  }

  lemma {:induction false} EventBytesIsWire<E>(c: Codec<E>, corr: nat, events: seq<E>, frames: seq<Frame>)
    requires |frames| == |events| + 1
    requires forall i :: 0 <= i < |events| ==> frames[i] == Frame(3, corr, c.ser(events[i]))
    ensures Wire(frames) == EventBytes(c, corr, events) + FrameBytes(frames[|events|])
  {
    if events == [] {
      assert frames[1..] == [];
      assert FrameBytes(frames[0]) + [] == FrameBytes(frames[0]);
    } else {
      EventBytesIsWire(c, corr, events[1..], frames[1..]);
      Regroup(FrameBytes(frames[0]), EventBytes(c, corr, events[1..]), FrameBytes(frames[|events|]));
    }
  }

  /** The exchange is lossless exactly when every event fits a frame. */
  lemma {:induction false} ExchangeIsLosslessIff<E(!new)>(c: Codec<E>, corr: nat, ended: seq<byte>, events: seq<E>)
    requires RoundTrips(c) && Measurable(c, events) && corr < U64 && |ended| <= IPC_MAX_PAYLOAD
    ensures Received(c, ServerStream(c, corr, ended, events)) == Ok(events)
            <==> forall i :: 0 <= i < |events| ==> Fits(c, events[i])
  {
    ExchangeDelivers(c, corr, ended, events);
    DeliveredIsPrefix(c, events);
  }

  // ---- A cut connection -----------------------------------------------------------------------

  /** A frame read from the beginning of a stream is read from the whole stream as well. */
  lemma {:induction false} ReadSurvivesMore(s: seq<byte>, more: seq<byte>)
    requires ReadFrame(s).Got?
    ensures ReadFrame(s + more) == Got(ReadFrame(s).frame, ReadFrame(s).rest + more)
  {
    ReadIsWritten(s);
    var r := ReadFrame(s);
    assert s + more == FrameBytes(r.frame) + (r.rest + more);
    WrittenIsRead(r.frame, r.rest + more);
  }

  lemma {:induction false} CollectIsMonotone<E>(c: Codec<E>, s: seq<byte>, more: seq<byte>)
    ensures Collect(c, s) <= Collect(c, s + more)
    decreases |s|
  {
    if ReadFrame(s).Got? {
      ReadSurvivesMore(s, more);
      CollectIsMonotone(c, ReadFrame(s).rest, more);
    }
  }

  lemma {:induction false} HeaderSurvivesMore(s: seq<byte>, more: seq<byte>)
    requires |s| >= IPC_HEADER_SIZE
    ensures ReadFrame(s).BadHeader? ==> ReadFrame(s + more) == ReadFrame(s)
  {
    assert (s + more)[..IPC_HEADER_SIZE] == s[..IPC_HEADER_SIZE];
  }

  /** A proper part of a frame is no frame. */
  lemma {:induction false} PartIsNotRead(f: Frame, rest: seq<byte>, n: nat)
    requires f.Legal() && n < |FrameBytes(f)|
    ensures !ReadFrame((FrameBytes(f) + rest)[..n]).Got?
  {
    var s := FrameBytes(f) + rest;
    var part := s[..n];
    if ReadFrame(part).Got? {
      assert part + s[n..] == s;
      ReadSurvivesMore(part, s[n..]);
      WrittenIsRead(f, rest);
      ReadIsWritten(part);
    }
  }

  /** Where the frame of event `i` ends among the frames of the events. */
  function EventEnd<E>(c: Codec<E>, corr: nat, events: seq<E>, i: nat): nat
    requires i < |events|
  {
    |EventBytes(c, corr, events[..i + 1])|
  }

  lemma {:induction false} EventEndCons<E>(c: Codec<E>, corr: nat, events: seq<E>, i: nat)
    requires i < |events|
    ensures EventEnd(c, corr, events, i)
            == |FrameBytes(Frame(3, corr, c.ser(events[0])))|
               + if i == 0 then 0 else EventEnd(c, corr, events[1..], i - 1)
  {
    assert events[..i + 1][1..] == events[1..][..i];
  }

  /** The collected events are those delivered whose frames are complete within `n` bytes. */
  ghost predicate CompleteWithin<E>(c: Codec<E>, corr: nat, events: seq<E>, got: seq<E>, n: int) {
    && got <= Delivered(c, events) <= events
    && forall i :: 0 <= i < |Delivered(c, events)| ==> (i < |got| <==> EventEnd(c, corr, events, i) <= n)
  }

  lemma {:induction false} NothingWithin<E>(c: Codec<E>, corr: nat, events: seq<E>, n: int)
    requires n < if events == [] then 0 else |FrameBytes(Frame(3, corr, c.ser(events[0])))|
    ensures CompleteWithin(c, corr, events, [], n)
  {
    DeliveredIsPrefix(c, events);
    forall i | 0 <= i < |Delivered(c, events)|
      ensures EventEnd(c, corr, events, i) > n
    {
      EventEndCons(c, corr, events, i);
    }
  }

  lemma {:induction false} OneWithin<E>(c: Codec<E>, corr: nat, events: seq<E>, got: seq<E>, n: int)
    requires events != [] && Fits(c, events[0])
    requires n >= |FrameBytes(Frame(3, corr, c.ser(events[0])))|
    requires CompleteWithin(c, corr, events[1..], got, n - |FrameBytes(Frame(3, corr, c.ser(events[0])))|)
    ensures CompleteWithin(c, corr, events, [events[0]] + got, n)
  {
    DeliveredIsPrefix(c, events);
    var all, more := Delivered(c, events), [events[0]] + got;
    forall i | 0 <= i < |all|
      ensures i < |more| <==> EventEnd(c, corr, events, i) <= n
    {
      EventEndCons(c, corr, events, i);
    }
  }

  lemma {:induction false} CutBehind<T>(a: seq<T>, b: seq<T>, n: nat)
    requires |a| <= n <= |a + b|
    ensures (a + b)[..n] == a + b[..n - |a|]
  {
  }

  lemma {:induction false} NoneCollected<E>(c: Codec<E>, s: seq<byte>, n: nat)
    requires n <= |s| && Collect(c, s) == []
    ensures Collect(c, s[..n]) == []
  {
    assert s == s[..n] + s[n..];
    CollectIsMonotone(c, s[..n], s[n..]);
  }

  lemma {:induction false} CutCollects<E(!new)>(c: Codec<E>, corr: nat, events: seq<E>, terminal: seq<byte>, n: nat)
    requires RoundTrips(c) && Measurable(c, events) && corr < U64 && Collect(c, terminal) == []
    requires n <= |EventBytes(c, corr, events) + terminal|
    ensures CompleteWithin(c, corr, events, Collect(c, (EventBytes(c, corr, events) + terminal)[..n]), n)
  {
    var s := EventBytes(c, corr, events) + terminal;
    if events == [] || !Fits(c, events[0]) {
      CollectsDelivered(c, corr, events, terminal);
      NoneCollected(c, s, n);
      DeliveredIsPrefix(c, events);
    } else {
      var f, tail := Frame(3, corr, c.ser(events[0])), EventBytes(c, corr, events[1..]) + terminal;
      Regroup(FrameBytes(f), EventBytes(c, corr, events[1..]), terminal);
      if n < |FrameBytes(f)| {
        PartIsNotRead(f, tail, n);
        NothingWithin(c, corr, events, n);
      } else {
        var m := n - |FrameBytes(f)|;
        CutBehind(FrameBytes(f), tail, n);
        CollectWritten(c, f, tail[..m]);
        CutCollects(c, corr, events[1..], terminal, m);
        OneWithin(c, corr, events, Collect(c, tail[..m]), n);
      }
    }
  }

  /** A client that has not even the whole acknowledgement yields nothing, and no error. */
  lemma {:induction false} CutInAck<E>(c: Codec<E>, s: seq<byte>, ack: Frame, body: seq<byte>, n: nat)
    requires ack.Legal() && s == FrameBytes(ack) + body && n < |FrameBytes(ack)|
    ensures Received(c, s[..n]) == Ok([])
  {
    PartIsNotRead(ack, body, n);
    if n >= IPC_HEADER_SIZE {
      assert s == s[..n] + s[n..];
      HeaderSurvivesMore(s[..n], s[n..]);
      WrittenIsRead(ack, body);
    }
  }

  lemma {:induction false} CutBehindAck<E>(c: Codec<E>, s: seq<byte>, ack: Frame, body: seq<byte>, n: nat)
    requires ack.Legal() && s == FrameBytes(ack) + body && |FrameBytes(ack)| <= n <= |s|
    ensures n - |FrameBytes(ack)| <= |body|
    ensures Received(c, s[..n]) == Ok(Collect(c, body[..n - |FrameBytes(ack)|]))
  {
    CutBehind(FrameBytes(ack), body, n);
    WrittenIsRead(ack, body[..n - |FrameBytes(ack)|]);
  }

  /** Wherever the client stops reading this stream, it has the delivered events that are complete by then. */
  ghost predicate YieldsComplete<E>(c: Codec<E>, corr: nat, events: seq<E>, body: seq<byte>) {
    forall m :: 0 <= m <= |body| ==> CompleteWithin(c, corr, events, Collect(c, body[..m]), m)
  }

  lemma {:induction false} BodyYieldsComplete<E(!new)>(c: Codec<E>, ack: Frame, events: seq<E>)
    requires RoundTrips(c) && Measurable(c, events) && ack.Legal() && ack.kind == 2
    ensures YieldsComplete(c, ack.correlationId, events, EventBytes(c, ack.correlationId, events) + FrameBytes(ack))
  {
    var body := EventBytes(c, ack.correlationId, events) + FrameBytes(ack);
    TerminalEnds(c, ack);
    forall m | 0 <= m <= |body|
      ensures CompleteWithin(c, ack.correlationId, events, Collect(c, body[..m]), m)
    {
      CutCollects(c, ack.correlationId, events, FrameBytes(ack), m);
    }
  }

  lemma {:induction false} CutExchange<E>(
    c: Codec<E>, s: seq<byte>, ack: Frame, body: seq<byte>, events: seq<E>, size: nat, n: nat)
    requires ack.Legal() && YieldsComplete(c, ack.correlationId, events, body)
    requires s == FrameBytes(ack) + body && size == |FrameBytes(ack)| && n <= |s|
    ensures var r := Received(c, s[..n]);
            r.Ok? && CompleteWithin(c, ack.correlationId, events, r.value, n - size)
  {
    if n < size {
      CutInAck(c, s, ack, body, n);
      NothingWithin(c, ack.correlationId, events, n - size);
    } else {
      CutBehindAck(c, s, ack, body, n);
    }
  }

  /**
   A connection cut anywhere costs the tail of the event list and nothing else, with no error and no wrong event: the
   client has exactly those delivered events whose frames end within the bytes that arrived.
   */
  lemma {:induction false} CutYieldsPrefix<E(!new)>(c: Codec<E>, corr: nat, ended: seq<byte>, events: seq<E>, n: nat)
    requires RoundTrips(c) && Measurable(c, events) && corr < U64 && |ended| <= IPC_MAX_PAYLOAD
    requires n <= |ServerStream(c, corr, ended, events)|
    ensures var r := Received(c, ServerStream(c, corr, ended, events)[..n]);
            r.Ok? && CompleteWithin(c, corr, events, r.value, n - |FrameBytes(Frame(2, corr, ended))|)
  {
    var s, ack := ServerStream(c, corr, ended, events), Frame(2, corr, ended);
    BodyYieldsComplete(c, ack, events);
    CutExchange(c, s, ack, EventBytes(c, corr, events) + FrameBytes(ack), events, |FrameBytes(ack)|, n);
  }
}
