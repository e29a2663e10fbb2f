/**
 The feedback loop around the bitrate controller: every feedback message is observed, but a new
 bitrate is handed to the encoder at most once a second and only when it differs from the last one.
 */
module RateFeedback {
  import opened Arithmetic
  import opened Wrappers
  import opened RateControl

  /** One second, in nanoseconds. */
  const COALESCE_INTERVAL: nat := 1_000_000_000

  datatype Message = Feedback(observation: Observation) | Other

  datatype Emission = Emission(bps: nat, at: nat)

  /** The loop's own variables, and everything it has emitted. */
  datatype Gate = Gate(lastEmitted: Option<nat>, lastCoalesceAt: Option<nat>, emitted: seq<Emission>)

  predicate Due(g: Gate, now: nat) {
    g.lastCoalesceAt.Some? ==> SaturatingSub(now, g.lastCoalesceAt.value) >= COALESCE_INTERVAL
  }

  function Offer(g: Gate, bps: nat, now: nat): Gate {
    if Due(g, now) && g.lastEmitted != Some(bps) then
      Gate(Some(bps), Some(now), g.emitted + [Emission(bps, now)])
    else g
  }

  /** The gate after the first `k` feedbacks. */
  function GateAt(cfg: GccConfig, obs: seq<Observation>, k: nat): Gate
    requires k <= |obs|
  {
    if k == 0 then Gate(None, None, [])
    else Offer(GateAt(cfg, obs, k - 1), At(cfg, obs, k).target, obs[k - 1].now)
  }

  /** The feedbacks among the messages, in order; everything else is ignored. */
  function Feedbacks(messages: seq<Message>): seq<Observation> {
    if messages == [] then []
    else
      var front, last := messages[..|messages| - 1], messages[|messages| - 1];
      Feedbacks(front) + (match last case Feedback(o) => [o] case Other => [])
  }

  /** Message by message: every feedback is observed, in its place, and nothing else is. */
  lemma {:induction false} FeedbacksInOrder(before: seq<Message>, m: Message, after: seq<Message>)
    ensures Feedbacks([]) == []
    ensures Feedbacks(before + [m] + after)
            == Feedbacks(before) + (if m.Feedback? then [m.observation] else []) + Feedbacks(after)
  {
    var all := before + [m] + after;
    if after == [] {
      assert all[..|all| - 1] == before;
    } else {
      FeedbacksInOrder(before, m, after[..|after| - 1]);
      assert all[..|all| - 1] == before + [m] + after[..|after| - 1];
    }
  }

  lemma {:induction false} GateAtPrefix(cfg: GccConfig, obs: seq<Observation>, more: seq<Observation>, k: nat)
    requires k <= |obs|
    ensures GateAt(cfg, obs + more, k) == GateAt(cfg, obs, k)
  {
    AtPrefix(cfg, obs, more, k);
    if k > 0 {
      GateAtPrefix(cfg, obs, more, k - 1);
    }
  }

  /** Drives a controller from a channel until it closes; the emissions are those of the gate. */
  method RateFeedbackLoop(cfg: GccConfig, messages: seq<Message>) returns (emitted: seq<Emission>)
    ensures var obs := Feedbacks(messages);
            emitted == GateAt(cfg, obs, |obs|).emitted
  {
    var controller := new GccRateController(cfg);
    var lastEmitted: Option<nat> := None;
    var lastCoalesceAt: Option<nat> := None;
    emitted := [];
    for i := 0 to |messages|
      invariant controller.cfg == cfg
      invariant var obs := Feedbacks(messages[..i]);
                controller.Value() == At(cfg, obs, |obs|)
                && Gate(lastEmitted, lastCoalesceAt, emitted) == GateAt(cfg, obs, |obs|)
    {
      ghost var obs := Feedbacks(messages[..i]);
      assert messages[..i + 1][..i] == messages[..i];
      match messages[i] {
        case Other =>
          assert Feedbacks(messages[..i + 1]) == obs;
        case Feedback(o) =>
          assert Feedbacks(messages[..i + 1]) == obs + [o];
          AtPrefix(cfg, obs, [o], |obs|);
          GateAtPrefix(cfg, obs, [o], |obs|);
          var newBps := controller.OnObservation(o);
          var shouldEmit := match lastCoalesceAt
            case Some(t) => SaturatingSub(o.now, t) >= COALESCE_INTERVAL
            case None => true;
          if shouldEmit {
            var emit := match lastEmitted case Some(prev) => prev != newBps case None => true;
            if emit {
              lastEmitted := Some(newBps);
              lastCoalesceAt := Some(o.now);
              emitted := emitted + [Emission(newBps, o.now)];
            }
          }
      }
    }
    assert messages[..|messages|] == messages;
  }

  /** What the gate remembers is its latest emission. */
  lemma {:induction false} GateRemembersLast(cfg: GccConfig, obs: seq<Observation>, k: nat)
    requires k <= |obs|
    ensures var g := GateAt(cfg, obs, k);
            if g.emitted == [] then g.lastEmitted == None && g.lastCoalesceAt == None && k == 0
            else var last := g.emitted[|g.emitted| - 1];
                 g.lastEmitted == Some(last.bps) && g.lastCoalesceAt == Some(last.at)
  {
    if k > 0 {
      GateRemembersLast(cfg, obs, k - 1);
    }
  }

  /** After every feedback the encoder runs at the controller's target, or was changed less than a second ago. */
  lemma {:induction false} SettledOrRecent(cfg: GccConfig, obs: seq<Observation>, k: nat)
    requires Monotone(obs) && 1 <= k <= |obs|
    ensures var g := GateAt(cfg, obs, k);
            || g.lastEmitted == Some(At(cfg, obs, k).target)
            || (g.lastCoalesceAt.Some? && obs[k - 1].now < g.lastCoalesceAt.value + COALESCE_INTERVAL)
  {
    GateRemembersLast(cfg, obs, k - 1);
  }

  /** Consecutive emissions carry different bitrates and are at least a second apart. */
  lemma {:induction false} EmissionsAreSpaced(cfg: GccConfig, obs: seq<Observation>, k: nat, i: nat)
    requires Monotone(obs) && k <= |obs| && i + 1 < |GateAt(cfg, obs, k).emitted|
    ensures var e := GateAt(cfg, obs, k).emitted;
            e[i].bps != e[i + 1].bps && e[i + 1].at >= e[i].at + COALESCE_INTERVAL
  {
    GateRemembersLast(cfg, obs, k - 1);
    if i + 1 < |GateAt(cfg, obs, k - 1).emitted| {
      EmissionsAreSpaced(cfg, obs, k - 1, i);
    }
  }

  /** Every emission is the controller's answer to one feedback, at the time of that feedback. */
  lemma {:induction false} EmissionsAreTargets(cfg: GccConfig, obs: seq<Observation>, k: nat, i: nat)
    requires k <= |obs| && i < |GateAt(cfg, obs, k).emitted|
    ensures exists m :: 1 <= m <= k
                        && GateAt(cfg, obs, k).emitted[i] == Emission(At(cfg, obs, m).target, obs[m - 1].now)
  {
    if i < |GateAt(cfg, obs, k - 1).emitted| {
      EmissionsAreTargets(cfg, obs, k - 1, i);
    }
  }

  /** So the encoder is only ever given bitrates inside the configured bounds. */
  lemma {:induction false} EmissionsStayInRange(cfg: GccConfig, obs: seq<Observation>, k: nat, i: nat)
    requires cfg.Valid() && k <= |obs| && i < |GateAt(cfg, obs, k).emitted|
    ensures cfg.minBps <= GateAt(cfg, obs, k).emitted[i].bps <= cfg.maxBps
  {
    EmissionsAreTargets(cfg, obs, k, i);
    var m :| 1 <= m <= k && GateAt(cfg, obs, k).emitted[i] == Emission(At(cfg, obs, m).target, obs[m - 1].now);
    TargetStaysInRange(cfg, obs, m);
  }

  // ---- From a constant delay to a constant encoder ---------------------------------------------

  /** The second after the gate's last emission is over. */
  predicate SecondOver(g: Gate, now: nat) {
    g.lastCoalesceAt.Some? ==> now >= g.lastCoalesceAt.value + COALESCE_INTERVAL
  }

  /**
   Where a gate stands once only `bps` has been offered since it was `start`: either nothing has happened and no offer
   came a second after the last emission, or the encoder runs at `bps`, after at most one emission more.
   */
  ghost predicate Settling(start: Gate, g: Gate, bps: nat, ripe: bool) {
    || (g == start && !ripe)
    || (g.lastEmitted == Some(bps)
        && (g.emitted == start.emitted || exists at :: g.emitted == start.emitted + [Emission(bps, at)]))
  }

  lemma {:induction false} OfferSettles(start: Gate, g: Gate, bps: nat, ripe: bool, now: nat)
    requires Settling(start, g, bps, ripe)
    ensures Settling(start, Offer(g, bps, now), bps, ripe || SecondOver(start, now))
  {
    if Offer(g, bps, now) != g {
      assert g == start;
      assert Offer(g, bps, now).emitted == start.emitted + [Emission(bps, now)];
    }
  }

  /** Some feedback from the `i`-th to before the `k`-th came a second after the gate's last emission. */
  ghost predicate Ripe(obs: seq<Observation>, g: Gate, i: nat, k: nat)
    requires k <= |obs|
  {
    exists m :: i <= m < k && SecondOver(g, obs[m].now)
  }

  /**
   End to end: once the delay has been constant for 19 samples outside fast start, with tolerable loss, the gate emits
   at most once more, the settled target; and from the first feedback a second after its last emission on, the encoder
   runs at that target forever.
   */
  lemma {:induction false} EncoderSettles(cfg: GccConfig, obs: seq<Observation>, k: nat, j: nat, owd: real)
    requires cfg.Valid() && DelaysWithin(obs, 200.0) && j >= 19 && k + j <= |obs| && ConstantDelay(obs, k, owd)
    requires forall i :: k <= i < |obs| ==> !Panics(cfg, obs[i])
    requires !At(cfg, obs, k + 19).inFastStart
    ensures var start, g, settled := GateAt(cfg, obs, k + 19), GateAt(cfg, obs, k + j), At(cfg, obs, k + 19).target;
            && |g.emitted| <= |start.emitted| + 1
            && Settling(start, g, settled, Ripe(obs, start, k + 19, k + j))
            && (Ripe(obs, start, k + 19, k + j) ==>
                  g.lastEmitted == Some(settled) == Some(At(cfg, obs, k + j).target))
  {
    var start, settled := GateAt(cfg, obs, k + 19), At(cfg, obs, k + 19).target;
    if j > 19 {
      EncoderSettles(cfg, obs, k, j - 1, owd);
      BitrateSettles(cfg, obs, k, j, owd);
      var g, o := GateAt(cfg, obs, k + j - 1), obs[k + j - 1];
      OfferSettles(start, g, settled, Ripe(obs, start, k + 19, k + j - 1), o.now);
      assert Ripe(obs, start, k + 19, k + j)
             <==> Ripe(obs, start, k + 19, k + j - 1) || SecondOver(start, o.now);
    }
  }
}
