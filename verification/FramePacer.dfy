/** The client's frame pacer: whether to present a decoded frame at a given instant, in nanoseconds. */
module FramePacer {
  import opened Arithmetic
  import opened Wrappers

  const EARLY_TOLERANCE: nat := 500_000
  const MAX_SKIPS_PER_TICK: nat := 2
  const SECOND: nat := 1_000_000_000

  datatype Decision = Present | Skip | CatchUpReset

  /** One second over the frame rate, to the nearest nanosecond, ties to even. */
  function TargetInterval(framerate: nat): nat {
    if framerate == 0 then 16_000_000
    else
      var q, r := SECOND / framerate, SECOND % framerate;
      if 2 * r < framerate || (2 * r == framerate && q % 2 == 0) then q else q + 1
  }

  /** The pacer, and the times of all its presents, which the program does not keep. */
  datatype Pacer = Pacer(interval: nat, last: Option<nat>, presented: nat, skipped: nat, presents: seq<nat>)

  predicate Due(p: Pacer, now: nat) {
    p.last.Some? ==> SaturatingSub(now, p.last.value) + EARLY_TOLERANCE >= p.interval
  }

  function Tick(p: Pacer, now: nat): Pacer {
    if Due(p, now) then p.(last := Some(now), presented := p.presented + 1, presents := p.presents + [now])
    else p.(skipped := p.skipped + 1)
  }

  /** After the first `k` calls, at the given times. */
  function PacerAt(framerate: nat, times: seq<nat>, k: nat): Pacer
    requires k <= |times|
  {
    if k == 0 then Pacer(TargetInterval(framerate), None, 0, 0, [])
    else Tick(PacerAt(framerate, times, k - 1), times[k - 1])
  }

  class FramePacer {
    const targetInterval: nat
    var lastPresent: Option<nat>
    var presented: nat
    var skipped: nat
    ghost var presents: seq<nat>

    ghost predicate Is(p: Pacer)
      reads this
    {
      p == Pacer(targetInterval, lastPresent, presented, skipped, presents)
    }

    constructor (framerate: nat)
      ensures Is(PacerAt(framerate, [], 0))
    {
      targetInterval := TargetInterval(framerate);
      lastPresent := None;
      presented, skipped := 0, 0;
      presents := [];
    }

    method ShouldPresent(now: nat, ghost p: Pacer) returns (d: Decision)
      requires Is(p) && (lastPresent.Some? ==> targetInterval > 0)
      modifies this
      ensures Is(Tick(p, now))
      ensures d == Skip <==> !Due(p, now)
      ensures d == CatchUpReset <==>
              p.last.Some? && Due(p, now)
              && SaturatingSub(now, p.last.value) / p.interval % U32 > MAX_SKIPS_PER_TICK
    {
      if lastPresent.None? {
        MarkPresented(now);
        return Present;
      }
      var elapsed := SaturatingSub(now, lastPresent.value);
      if elapsed + EARLY_TOLERANCE >= targetInterval {
        var missed := elapsed / targetInterval % U32;
        MarkPresented(now);
        return if missed > MAX_SKIPS_PER_TICK then CatchUpReset else Present;
      }
      skipped := skipped + 1;
      return Skip;
    }

    method MarkPresented(now: nat)
      modifies this
      ensures lastPresent == Some(now) && presented == old(presented) + 1 && skipped == old(skipped)
      ensures presents == old(presents) + [now]
    {
      lastPresent := Some(now);
      presented := presented + 1;
      presents := presents + [now];
    }
  }

  /** The pacer divides by its interval, which is positive exactly below two billion frames a second. */
  lemma {:induction false} IntervalPositiveIff(framerate: nat)
    ensures TargetInterval(framerate) > 0 <==> framerate < 2 * SECOND
  {
    if framerate > 0 {
      var q, r := SECOND / framerate, SECOND % framerate;
      assert SECOND == q * framerate + r;
      if framerate <= SECOND {
        assert q >= 1;
      } else {
        DivUnique(SECOND, framerate, 0);
        assert r == SECOND;
      }
    }
  }

  /**
   The interval is the second's share of one frame to the nearest nanosecond, at a tie the even one; without a rate it
   is 16 milliseconds.
   */
  lemma {:induction false} IntervalIsNearest(framerate: nat)
    ensures framerate == 0 ==> TargetInterval(framerate) == 16_000_000
    ensures framerate > 0 ==>
              var interval := TargetInterval(framerate);
              var twice := 2 * (interval * framerate);
              && 2_000_000_000 <= twice + framerate && twice <= 2_000_000_000 + framerate
              && (2_000_000_000 == twice + framerate || twice == 2_000_000_000 + framerate ==> interval % 2 == 0)
  {
    if framerate > 0 {
      var q, r := SECOND / framerate, SECOND % framerate;
      assert SECOND == q * framerate + r;
      assert (q + 1) * framerate == q * framerate + framerate;
    }
  }

  ghost predicate Monotone(times: seq<nat>) {
    forall i, j :: 0 <= i < j < |times| ==> times[i] <= times[j]
  }

  ghost predicate Paced(p: Pacer) {
    && p.presented == |p.presents|
    && (p.last == if p.presents == [] then None else Some(p.presents[|p.presents| - 1]))
    && forall i :: 0 < i < |p.presents| ==> p.presents[i] + EARLY_TOLERANCE >= p.presents[i - 1] + p.interval
                                            && p.presents[i] >= p.presents[i - 1]
  }

  lemma {:induction false} TickKeepsPace(p: Pacer, now: nat)
    requires Paced(p) && (p.presents != [] ==> p.presents[|p.presents| - 1] <= now)
    ensures Paced(Tick(p, now)) && Tick(p, now).presents != []
  {
    var q := Tick(p, now);
    if Due(p, now) {
      forall i | 0 < i < |q.presents|
        ensures q.presents[i] + EARLY_TOLERANCE >= q.presents[i - 1] + q.interval && q.presents[i] >= q.presents[i - 1]
      {
        if i < |p.presents| {
          assert q.presents[i] == p.presents[i] && q.presents[i - 1] == p.presents[i - 1];
        }
      }
    }
  }

  /** The history starts at the first call, and ends no later than the last. */
  ghost predicate Spans(p: Pacer, first: nat, last: nat) {
    p.presents != [] && p.presents[0] == first && p.presents[|p.presents| - 1] <= last
  }

  /**
   Every call presents or skips, the first one presents, and two presents are never closer than the interval less the
   tolerance.
   */
  lemma {:induction false} PresentsAreSpaced(framerate: nat, times: seq<nat>, k: nat)
    requires Monotone(times) && k <= |times|
    ensures var p := PacerAt(framerate, times, k);
            && Paced(p) && p.interval == TargetInterval(framerate) && p.presented + p.skipped == k
            && (if k == 0 then p.presents == [] else Spans(p, times[0], times[k - 1]))
  {
    if k > 0 {
      PresentsAreSpaced(framerate, times, k - 1);
      TickKeepsPace(PacerAt(framerate, times, k - 1), times[k - 1]);
    }
  }

  /** No starvation: after every call, a frame was presented just now or too recently for another one to be due. */
  lemma {:induction false} SkipsOnlyWhenEarly(framerate: nat, times: seq<nat>, k: nat)
    requires Monotone(times) && 1 <= k <= |times|
    ensures var p, now := PacerAt(framerate, times, k), times[k - 1];
            && p.last.Some? && p.last.value <= now
            && (p.last.value == now || now + EARLY_TOLERANCE < p.last.value + p.interval)
  {
    PresentsAreSpaced(framerate, times, k);
    PresentsAreSpaced(framerate, times, k - 1);
  }

  lemma {:induction false} GapsAddUp(p: Pacer, n: nat)
    requires Paced(p) && n < |p.presents| && p.interval >= EARLY_TOLERANCE
    ensures p.presents[0] + n * (p.interval - EARLY_TOLERANCE) <= p.presents[n]
  {
    if n > 0 {
      GapsAddUp(p, n - 1);
      assert n * (p.interval - EARLY_TOLERANCE)
             == (n - 1) * (p.interval - EARLY_TOLERANCE) + (p.interval - EARLY_TOLERANCE);
    }
  }

  /** Rate bound over any run: the frames after the first are at most the elapsed time over the shortened interval. */
  lemma {:induction false} RateIsBounded(framerate: nat, times: seq<nat>, k: nat)
    requires Monotone(times) && 1 <= k <= |times| && TargetInterval(framerate) > EARLY_TOLERANCE
    ensures PacerAt(framerate, times, k).presented >= 1
    ensures PacerAt(framerate, times, k).presented - 1
            <= (times[k - 1] - times[0]) / (TargetInterval(framerate) - EARLY_TOLERANCE)
  {
    PresentsAreSpaced(framerate, times, k);
    var p := PacerAt(framerate, times, k);
    GapsAddUp(p, p.presented - 1);
    QuotientAtLeast(p.presented - 1, p.interval - EARLY_TOLERANCE, times[k - 1] - times[0]);
  }

  lemma {:induction false} QuotientAtLeast(n: nat, gap: nat, elapsed: nat)
    requires gap > 0 && n * gap <= elapsed
    ensures n <= elapsed / gap
  {
    var q := elapsed / gap;
    assert elapsed < q * gap + gap;
    if n > q {
      MulLe(q + 1, n, gap);
    }
  }

  /**
   With an interval no longer than the tolerance there is no pacing: every call presents.  Otherwise two calls at once
   are enough for a skip.
   */
  lemma {:induction false} NeverSkipsIff(framerate: nat)
    ensures (forall times: seq<nat>, k: nat ::
               Monotone(times) && k <= |times| ==> PacerAt(framerate, times, k).presented == k)
            <==> TargetInterval(framerate) <= EARLY_TOLERANCE
  {
    if TargetInterval(framerate) <= EARLY_TOLERANCE {
      forall times: seq<nat>, k: nat | Monotone(times) && k <= |times|
        ensures PacerAt(framerate, times, k).presented == k
      {
        EveryCallPresents(framerate, times, k);
      }
    } else {
      var times := [0, 0];
      assert PacerAt(framerate, times, 0).last == None;
      assert PacerAt(framerate, times, 1).last == Some(0);
      assert PacerAt(framerate, times, 2).presented == 1;
      assert Monotone(times);
    }
  }

  lemma {:induction false} EveryCallPresents(framerate: nat, times: seq<nat>, k: nat)
    requires TargetInterval(framerate) <= EARLY_TOLERANCE && k <= |times|
    ensures var p := PacerAt(framerate, times, k);
            p.presented == k && p.interval == TargetInterval(framerate)
  {
    if k > 0 {
      EveryCallPresents(framerate, times, k - 1);
    }
  }
}
