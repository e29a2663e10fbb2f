/**
 The client's outbound input pump.  A run of mouse moves that is already waiting in the channel is
 sent as its last move only; one slot of look-ahead holds the event that ended the run.

 Timing is adversarial: `rest` is everything that will ever be sent into the channel, and `ready`
 says, poll by poll, whether the next event had arrived when `try_recv` asked.
 */
module InputCoalescer {
  import opened Wrappers

  datatype Button = Left | Right | Middle

  datatype Event =
    | MouseMove(x: nat, y: nat)
    | RelativeMouseMove(dx: int, dy: int)
    | MouseButton(button: Button, pressed: bool, atX: Option<nat>, atY: Option<nat>)
    | MouseWheel(wheelX: int, wheelY: int)
    | Keyboard(key: string, down: bool)
    | OtherInput(payload: seq<int>)

  // ---- The pump as a function of the stream and the timing ------------------------------------

  datatype Drained = Drained(event: Event, pending: Option<Event>, rest: seq<Event>, ready: seq<bool>)

  function Tail<T>(s: seq<T>): seq<T> {
    if s == [] then [] else s[1..]
  }

  /** Standing on a mouse move: take later moves as long as they are there, park the first other event. */
  function Drain(event: Event, rest: seq<Event>, ready: seq<bool>): (d: Drained)
    requires event.MouseMove?
    ensures |d.rest| + (if d.pending.Some? then 1 else 0) <= |rest|
    ensures d.pending.Some? ==> !d.pending.value.MouseMove?
    decreases rest
  {
    if ready == [] || !ready[0] || rest == [] then Drained(event, None, rest, Tail(ready))
    else if rest[0].MouseMove? then Drain(rest[0], rest[1..], ready[1..])
    else Drained(event, Some(rest[0]), rest[1..], ready[1..])
  }

  function Next(event: Event, rest: seq<Event>, ready: seq<bool>): Drained {
    if event.MouseMove? then Drain(event, rest, ready) else Drained(event, None, rest, ready)
  }

  /** Everything the pump sends. */
  function SendAll(pending: Option<Event>, rest: seq<Event>, ready: seq<bool>): seq<Event>
    decreases |rest| + if pending.Some? then 1 else 0
  {
    if pending.Some? then
      var d := Next(pending.value, rest, ready);
      [d.event] + SendAll(d.pending, d.rest, d.ready)
    else if rest == [] then []
    else
      var d := Next(rest[0], rest[1..], ready);
      [d.event] + SendAll(d.pending, d.rest, d.ready)
  }

  // ---- The pump as code -----------------------------------------------------------------------

  class InputPump {
    var pendingEvent: Option<Event>
    var rest: seq<Event>
    var ready: seq<bool>

    /** The look-ahead slot never holds a mouse move. */
    predicate Valid()
      reads this
    {
      pendingEvent.Some? ==> !pendingEvent.value.MouseMove?
    }

    constructor (input: seq<Event>, ready: seq<bool>)
      ensures Valid() && pendingEvent == None && rest == input && this.ready == ready
    {
      pendingEvent := None;
      rest := input;
      this.ready := ready;
    }

    /** Waits for an event; none when the channel is closed and empty. */
    method Recv() returns (r: Option<Event>)
      modifies `rest
      ensures if old(rest) == [] then r == None && rest == [] else r == Some(old(rest)[0]) && rest == old(rest)[1..]
    {
      if rest == [] {
        return None;
      }
      r := Some(rest[0]);
      rest := rest[1..];
    }

    /** Polls the channel; none when it is empty or disconnected. */
    method TryRecv() returns (r: Option<Event>)
      modifies `rest, `ready
      ensures ready == Tail(old(ready))
      ensures if old(ready) == [] || !old(ready)[0] || old(rest) == [] then r == None && rest == old(rest)
              else r == Some(old(rest)[0]) && rest == old(rest)[1..]
    {
      if ready == [] || !ready[0] || rest == [] {
        r := None;
      } else {
        r := Some(rest[0]);
        rest := rest[1..];
      }
      ready := Tail(ready);
    }

    method NextOutboundInputEvent() returns (r: Option<Event>)
      requires Valid()
      modifies this
      ensures Valid()
      ensures r == None ==> old(pendingEvent) == None && old(rest) == [] && pendingEvent == None && rest == []
      ensures SendAll(old(pendingEvent), old(rest), old(ready))
              == (if r == None then [] else [r.value] + SendAll(pendingEvent, rest, ready))
      ensures r.Some? ==> |rest| + (if pendingEvent.Some? then 1 else 0)
                          < |old(rest)| + (if old(pendingEvent).Some? then 1 else 0)
    {
      var event: Event;
      if pendingEvent.Some? {
        event := pendingEvent.value;
        pendingEvent := None;
      } else {
        var received := Recv();
        if received == None {
          return None;
        }
        event := received.value;
      }
      if event.MouseMove? {
        ghost var target := Drain(event, rest, ready);
        while true
          invariant event.MouseMove? && pendingEvent == None
          invariant Drain(event, rest, ready) == target
          invariant |rest| <= |old(rest)|
          decreases |rest|
        {
          var polled := TryRecv();
          match polled {
            case Some(next) =>
              if next.MouseMove? {
                event := next;
              } else {
                pendingEvent := Some(next);
                break;
              }
            case None =>
              break;
          }
        }
      }
      return Some(event);
    }

    /** Pumps until the channel closes or a send fails; `sendable` is how many sends succeed. */
    method SendInputEvents(sendable: nat) returns (sent: seq<Event>, ok: bool)
      requires Valid() && pendingEvent == None
      modifies this
      ensures var all := SendAll(None, old(rest), old(ready));
              sent <= all && (ok ==> sent == all) && (!ok ==> |sent| == sendable < |all|)
    {
      ghost var all := SendAll(None, rest, ready);
      sent := [];
      while true
        invariant Valid() && |sent| <= sendable
        invariant all == sent + SendAll(pendingEvent, rest, ready)
        decreases |rest| + if pendingEvent.Some? then 1 else 0
      {
        var r := NextOutboundInputEvent();
        if r == None {
          return sent, true;
        }
        if |sent| == sendable {
          return sent, false;
        }
        ghost var before := sent;
        sent := sent + [r.value];
        assert all == before + ([r.value] + SendAll(pendingEvent, rest, ready));
      }
    }
  }

  // ---- What may be dropped --------------------------------------------------------------------

  /** The part of a stream that a mask keeps. */
  function Select(events: seq<Event>, keep: seq<bool>): seq<Event>
    requires |events| == |keep|
  {
    if events == [] then []
    else (if keep[0] then [events[0]] else []) + Select(events[1..], keep[1..])
  }

  /** The mask drops nothing but mouse moves whose immediate successor is a mouse move too. */
  ghost predicate DropsStaleMoves(events: seq<Event>, keep: seq<bool>) {
    && |events| == |keep|
    && forall i :: 0 <= i < |events| && !keep[i] ==>
         events[i].MouseMove? && i + 1 < |events| && events[i + 1].MouseMove?
  }

  ghost predicate IsCoalescing(input: seq<Event>, output: seq<Event>) {
    exists keep :: DropsStaleMoves(input, keep) && Select(input, keep) == output
  }

  lemma {:induction false} CoalesceKeep(input: seq<Event>, output: seq<Event>)
    requires input != [] && output != [] && output[0] == input[0] && IsCoalescing(input[1..], output[1..])
    ensures IsCoalescing(input, output)
  {
    var keep :| DropsStaleMoves(input[1..], keep) && Select(input[1..], keep) == output[1..];
    var all := [true] + keep;
    assert all[1..] == keep;
    assert DropsStaleMoves(input, all);
    assert Select(input, all) == output;
  }

  lemma {:induction false} CoalesceDrop(input: seq<Event>, output: seq<Event>)
    requires |input| >= 2 && input[0].MouseMove? && input[1].MouseMove? && IsCoalescing(input[1..], output)
    ensures IsCoalescing(input, output)
  {
    var keep :| DropsStaleMoves(input[1..], keep) && Select(input[1..], keep) == output;
    var all := [false] + keep;
    assert all[1..] == keep;
    assert DropsStaleMoves(input, all);
    assert Select(input, all) == output;
  }

  /** Read from the front, a coalescing keeps its first event or drops a stale one. */
  lemma {:induction false} CoalesceCases(input: seq<Event>, output: seq<Event>)
    requires input != [] && IsCoalescing(input, output)
    ensures || (output != [] && output[0] == input[0] && IsCoalescing(input[1..], output[1..]))
            || (|input| >= 2 && input[0].MouseMove? && input[1].MouseMove? && IsCoalescing(input[1..], output))
  {
    var keep :| DropsStaleMoves(input, keep) && Select(input, keep) == output;
    assert DropsStaleMoves(input[1..], keep[1..]) by {
      forall i | 0 <= i < |input| - 1 && !keep[1..][i]
        ensures input[1..][i].MouseMove? && i + 1 < |input| - 1 && input[1..][i + 1].MouseMove?
      {
        assert !keep[i + 1];
      }
    }
    if keep[0] {
      assert output[1..] == Select(input[1..], keep[1..]);
    } else {
      assert output == Select(input[1..], keep[1..]);
    }
  }

  // ---- Every timing gives a coalescing, and every coalescing comes from some timing -----------

  function Waiting(pending: Option<Event>): seq<Event> {
    if pending.Some? then [pending.value] else []
  }

  lemma {:induction false} EmptyCoalesces()
    ensures IsCoalescing([], [])
  {
    assert DropsStaleMoves([], []) && Select([], []) == [];
  }

  /** What follows the event in hand, as sent, coalesces what follows it, as received. */
  lemma {:induction false} NextIsSound(event: Event, rest: seq<Event>, ready: seq<bool>)
    ensures var d := Next(event, rest, ready);
            IsCoalescing([event] + rest, [d.event] + SendAll(d.pending, d.rest, d.ready))
    decreases |rest|, 1
  {
    var d := Next(event, rest, ready);
    var input := [event] + rest;
    assert input[1..] == rest;
    if event.MouseMove? && ready != [] && ready[0] && rest != [] && rest[0].MouseMove? {
      NextIsSound(rest[0], rest[1..], ready[1..]);
      assert [rest[0]] + rest[1..] == rest;
      CoalesceDrop(input, [d.event] + SendAll(d.pending, d.rest, d.ready));
    } else {
      AfterwardsIsSound(d, rest);
      CoalesceKeep(input, [d.event] + SendAll(d.pending, d.rest, d.ready));
    }
  }

  lemma {:induction false} AfterwardsIsSound(d: Drained, rest: seq<Event>)
    requires Waiting(d.pending) + d.rest == rest
    ensures IsCoalescing(rest, SendAll(d.pending, d.rest, d.ready))
    decreases |rest|, 0
  {
    if rest == [] {
      EmptyCoalesces();
    } else if d.pending.Some? {
      NextIsSound(d.pending.value, d.rest, d.ready);
      assert [d.pending.value] + d.rest == rest;
    } else {
      assert d.rest == rest;
      NextIsSound(rest[0], rest[1..], d.ready);
      assert [rest[0]] + rest[1..] == rest;
    }
  }

  /** Soundness: under any timing, the stream sent is the stream typed, less stale mouse moves. */
  lemma {:induction false} SentIsCoalescing(input: seq<Event>, ready: seq<bool>)
    ensures IsCoalescing(input, SendAll(None, input, ready))
  {
    AfterwardsIsSound(Drained(OtherInput([]), None, input, ready), input);
  }

  lemma {:induction false} SendKeeping(input: seq<Event>, later: seq<bool>)
    requires input != []
    ensures var ready := if input[0].MouseMove? then [false] + later else later;
            SendAll(None, input, ready) == [input[0]] + SendAll(None, input[1..], later)
  {
    assert Tail([false] + later) == later;
  }

  lemma {:induction false} SendDropping(input: seq<Event>, later: seq<bool>)
    requires |input| >= 2 && input[0].MouseMove? && input[1].MouseMove?
    ensures SendAll(None, input, [true] + later) == SendAll(None, input[1..], later)
  {
    assert ([true] + later)[1..] == later;
    assert Drain(input[0], input[1..], [true] + later) == Drain(input[1], input[1..][1..], later);
  }

  /** Completeness: any coalescing is what some timing sends, so the soundness statement cannot be sharpened. */
  lemma {:induction false} CoalescingIsSent(input: seq<Event>, output: seq<Event>) returns (ready: seq<bool>)
    requires IsCoalescing(input, output)
    ensures SendAll(None, input, ready) == output
    decreases |input|
  {
    if input == [] {
      var keep :| DropsStaleMoves(input, keep) && Select(input, keep) == output;
      return [];
    }
    CoalesceCases(input, output);
    if output != [] && output[0] == input[0] && IsCoalescing(input[1..], output[1..]) {
      var later := CoalescingIsSent(input[1..], output[1..]);
      SendKeeping(input, later);
      assert output == [input[0]] + output[1..];
      ready := if input[0].MouseMove? then [false] + later else later;
    } else {
      var later := CoalescingIsSent(input[1..], output);
      SendDropping(input, later);
      ready := [true] + later;
    }
  }

  // ---- What the timing decides ----------------------------------------------------------------

  /** If nothing is ever waiting when the pump asks, everything is sent as it was typed. */
  lemma {:induction false} NeverReadySendsAll(pending: Option<Event>, rest: seq<Event>, ready: seq<bool>)
    requires forall i :: 0 <= i < |ready| ==> !ready[i]
    ensures SendAll(pending, rest, ready) == Waiting(pending) + rest
    decreases |rest| + if pending.Some? then 1 else 0
  {
    if pending.Some? {
      var d := Next(pending.value, rest, ready);
      NeverReadySendsAll(d.pending, d.rest, d.ready);
    } else if rest != [] {
      var d := Next(rest[0], rest[1..], ready);
      NeverReadySendsAll(d.pending, d.rest, d.ready);
    }
  }

  ghost predicate NoTwoMoves(events: seq<Event>) {
    forall i :: 0 <= i < |events| - 1 ==> !(events[i].MouseMove? && events[i + 1].MouseMove?)
  }

  /** If every poll finds what there is, a run of moves ends before the first other event. */
  lemma {:induction false} DrainsWholeRun(event: Event, rest: seq<Event>, ready: seq<bool>)
    requires event.MouseMove? && |ready| >= |rest| && forall i :: 0 <= i < |ready| ==> ready[i]
    ensures var d := Drain(event, rest, ready);
            && d.event.MouseMove? && (d.pending.None? ==> d.rest == [])
            && |d.ready| >= |d.rest| && forall i :: 0 <= i < |d.ready| ==> d.ready[i]
    decreases rest
  {
    if rest != [] && rest[0].MouseMove? {
      DrainsWholeRun(rest[0], rest[1..], ready[1..]);
    }
  }

  /** If everything is always waiting, no two moves are sent in a row. */
  lemma {:induction false} AlwaysReadyMerges(pending: Option<Event>, rest: seq<Event>, ready: seq<bool>)
    requires pending.Some? ==> !pending.value.MouseMove?
    requires |ready| >= |rest| && forall i :: 0 <= i < |ready| ==> ready[i]
    ensures NoTwoMoves(SendAll(pending, rest, ready))
    ensures pending.Some? ==> SendAll(pending, rest, ready) != [] && SendAll(pending, rest, ready)[0] == pending.value
    decreases |rest| + if pending.Some? then 1 else 0
  {
    if pending.Some? || rest != [] {
      var event := if pending.Some? then pending.value else rest[0];
      var later := if pending.Some? then rest else rest[1..];
      if event.MouseMove? {
        DrainsWholeRun(event, later, ready);
      }
      var d := Next(event, later, ready);
      AlwaysReadyMerges(d.pending, d.rest, d.ready);
      assert SendAll(pending, rest, ready) == [d.event] + SendAll(d.pending, d.rest, d.ready);
    }
  }

  // ---- Meaning --------------------------------------------------------------------------------

  datatype Cursor = Cursor(x: int, y: int)

  /** Where the cursor is after an event, and so when its button or key takes effect. */
  function Moved(c: Cursor, e: Event): Cursor {
    match e
    case MouseMove(x, y) => Cursor(x, y)
    case RelativeMouseMove(dx, dy) => Cursor(c.x + dx, c.y + dy)
    case MouseButton(_, _, Some(x), Some(y)) => Cursor(x, y)
    case _ => c
  }

  /** What the host does on a stream: each event that is not a plain move, with the cursor it happens at. */
  function Effects(events: seq<Event>, c: Cursor): seq<(Event, Cursor)> {
    if events == [] then []
    else
      var at := Moved(c, events[0]);
      (if events[0].MouseMove? then [] else [(events[0], at)]) + Effects(events[1..], at)
  }

  function FinalCursor(events: seq<Event>, c: Cursor): Cursor {
    if events == [] then c else FinalCursor(events[1..], Moved(c, events[0]))
  }

  /**
   Event by event: a move to a point sets the cursor, a relative one shifts it, a button with a place sets it, nothing
   else moves it; and every event but a move takes effect once, in its turn, where the cursor then is.
   */
  lemma {:induction false} OneEventMore(events: seq<Event>, e: Event, c: Cursor)
    ensures var before, at := FinalCursor(events, c), FinalCursor(events + [e], c);
            && at == (match e
                      case MouseMove(x, y) => Cursor(x, y)
                      case RelativeMouseMove(dx, dy) => Cursor(before.x + dx, before.y + dy)
                      case MouseButton(_, _, px, py) =>
                        if px.Some? && py.Some? then Cursor(px.value, py.value) else before
                      case _ => before)
            && Effects(events + [e], c) == Effects(events, c) + if e.MouseMove? then [] else [(e, at)]
  {
    if events == [] {
      assert [e][1..] == [];
    } else {
      assert (events + [e])[1..] == events[1..] + [e];
      OneEventMore(events[1..], e, Moved(c, events[0]));
    }
  }

  /** Dropping stale moves changes neither any effect, nor its place, nor where the cursor ends up. */
  lemma {:induction false} CoalescingKeepsMeaning(input: seq<Event>, output: seq<Event>, c: Cursor)
    requires IsCoalescing(input, output)
    ensures Effects(output, c) == Effects(input, c) && FinalCursor(output, c) == FinalCursor(input, c)
    decreases |input|
  {
    if input == [] {
      var keep :| DropsStaleMoves(input, keep) && Select(input, keep) == output;
    } else {
      CoalesceCases(input, output);
      var at := Moved(c, input[0]);
      if output != [] && output[0] == input[0] && IsCoalescing(input[1..], output[1..]) {
        CoalescingKeepsMeaning(input[1..], output[1..], at);
      } else {
        CoalescingKeepsMeaning(input[1..], output, c);
        assert Moved(at, input[1]) == Moved(c, input[1]);
      }
    }
  }

  /** The pump preserves what the user did, whatever the timing. */
  lemma {:induction false} PumpKeepsMeaning(input: seq<Event>, ready: seq<bool>, c: Cursor)
    ensures var sent := SendAll(None, input, ready);
            Effects(sent, c) == Effects(input, c) && FinalCursor(sent, c) == FinalCursor(input, c)
  {
    SentIsCoalescing(input, ready);
    CoalescingKeepsMeaning(input, SendAll(None, input, ready), c);
  }
}
