/**
 The delay-based bitrate controller.  Delays are exact reals, time is in nanoseconds of a monotone
 clock, bitrates are 32-bit unsigned integers whose addition wraps.
 */
module RateControl {
  import opened Arithmetic
  import opened Wrappers

  datatype OveruseState = Normal | Overuse | Underuse

  datatype GccConfig = GccConfig(
    minBps: nat, maxBps: nat, startBps: nat,
    decreaseFactorQ12: nat, increaseStepBps: nat, fastStartStepBps: nat,
    minReaction: nat, panicOwd: real, panicLoss: real, panicFreeze: nat)
  {
    /** The fields are `u32`s, and `clamp` demands ordered bounds. */
    predicate Valid() {
      minBps <= maxBps < U32 && startBps < U32
      && decreaseFactorQ12 < U32 && increaseStepBps < U32 && fastStartStepBps < U32
    }
  }

  datatype Observation = Observation(owd: real, lossX1000: nat, now: nat)

  datatype State = State(
    target: nat, lastOwd: Option<real>, lastChange: Option<nat>, inFastStart: bool,
    panicUntil: Option<nat>, lastState: OveruseState, ewma: real, prevEwma: real)

  function Initial(cfg: GccConfig): State {
    State(cfg.startBps, None, None, true, None, Normal, 0.0, 0.0)
  }

  function AddU32(a: nat, b: nat): nat { (a + b) % U32 }

  function Clamp(cfg: GccConfig, bps: nat): nat { Max(cfg.minBps, Min(bps, cfg.maxBps)) }

  /** Multiplicative decrease by a 12-bit fixed-point factor; the cast back to `u32` saturates. */
  function Decrease(cfg: GccConfig, bps: nat): nat { Min(bps * cfg.decreaseFactorQ12 / 4096, U32 - 1) }

  function AbsReal(x: real): real { if x < 0.0 then -x else x }

  predicate Panics(cfg: GccConfig, o: Observation) {
    o.owd > cfg.panicOwd || o.lossX1000 as real / 1000.0 > cfg.panicLoss
  }

  function Classify(ewma: real, prevEwma: real): OveruseState {
    if AbsReal(ewma) < 0.000000001 && AbsReal(prevEwma) < 0.000000001 then Normal
    else if ewma - prevEwma > 3.0 then Overuse
    else if ewma - prevEwma < -3.0 then Underuse
    else Normal
  }

  predicate Frozen(s: State, now: nat) {
    s.panicUntil.Some? && now < s.panicUntil.value
  }

  predicate MayReact(cfg: GccConfig, s: State, now: nat) {
    s.lastChange.Some? ==> SaturatingSub(now, s.lastChange.value) >= cfg.minReaction
  }

  /** The new target before clamping, once a change is allowed. */
  function React(cfg: GccConfig, s: State, verdict: OveruseState): nat {
    if verdict == Overuse then Decrease(cfg, s.target)
    else if s.inFastStart then Min(AddU32(s.target, cfg.fastStartStepBps), cfg.maxBps)
    else if verdict == Underuse then Min(AddU32(s.target, cfg.increaseStepBps), cfg.maxBps)
    else s.target
  }

  /** One observation. */
  function Observe(cfg: GccConfig, s: State, o: Observation): State {
    var e := s.(prevEwma := s.ewma, ewma := 0.9 * s.ewma + 0.1 * o.owd, lastOwd := Some(o.owd));
    if Panics(cfg, o) then
      e.(target := cfg.minBps, panicUntil := Some(o.now + cfg.panicFreeze), inFastStart := false,
         lastState := Overuse, lastChange := Some(o.now))
    else if Frozen(s, o.now) then e
    else
      var verdict := Classify(e.ewma, e.prevEwma);
      var v := e.(panicUntil := None, lastState := verdict);
      if !MayReact(cfg, s, o.now) then v
      else v.(target := Clamp(cfg, React(cfg, s, verdict)), lastChange := Some(o.now),
              inFastStart := s.inFastStart && verdict != Overuse)
  }

  /** The state after the first `k` observations of a session. */
  function At(cfg: GccConfig, obs: seq<Observation>, k: nat): State
    requires k <= |obs|
  {
    if k == 0 then Initial(cfg) else Observe(cfg, At(cfg, obs, k - 1), obs[k - 1])
  }

  ghost predicate Monotone(obs: seq<Observation>) {
    forall i, j :: 0 <= i < j < |obs| ==> obs[i].now <= obs[j].now
  }

  class GccRateController {
    const cfg: GccConfig
    var lastOwdMs: Option<real>
    var lastChange: Option<nat>
    var targetBitrateBps: nat
    var inFastStart: bool
    var panicUntil: Option<nat>
    var lastState: OveruseState
    var owdEwmaMs: real
    var prevOwdEwmaMs: real

    function Value(): State
      reads this
    {
      State(targetBitrateBps, lastOwdMs, lastChange, inFastStart, panicUntil, lastState, owdEwmaMs, prevOwdEwmaMs)
    }

    constructor (cfg: GccConfig)
      ensures this.cfg == cfg && Value() == Initial(cfg)
    {
      this.cfg := cfg;
      targetBitrateBps := cfg.startBps;
      lastOwdMs, lastChange, panicUntil := None, None, None;
      inFastStart := true;
      lastState := Normal;
      owdEwmaMs, prevOwdEwmaMs := 0.0, 0.0;
    }

    method OnObservation(o: Observation) returns (bps: nat)
      modifies this
      ensures Value() == Observe(cfg, old(Value()), o)
      ensures bps == targetBitrateBps
    {
      prevOwdEwmaMs := owdEwmaMs;
      owdEwmaMs := 0.9 * owdEwmaMs + 0.1 * o.owd;
      if o.owd > cfg.panicOwd || o.lossX1000 as real / 1000.0 > cfg.panicLoss {
        targetBitrateBps := cfg.minBps;
        panicUntil := Some(o.now + cfg.panicFreeze);
        inFastStart := false;
        lastState := Overuse;
        lastChange := Some(o.now);
        lastOwdMs := Some(o.owd);
        return targetBitrateBps;
      }
      if panicUntil.Some? {
        if o.now < panicUntil.value {
          lastOwdMs := Some(o.owd);
          return targetBitrateBps;
        }
        panicUntil := None;
      }
      var allowChange := match lastChange
        case Some(last) => SaturatingSub(o.now, last) >= cfg.minReaction
        case None => true;
      var newState := Classify(owdEwmaMs, prevOwdEwmaMs);
      lastState := newState;
      if !allowChange {
        lastOwdMs := Some(o.owd);
        return targetBitrateBps;
      }
      if inFastStart {
        match newState {
          case Overuse =>
            inFastStart := false;
            targetBitrateBps := Decrease(cfg, targetBitrateBps);
          case _ =>
            targetBitrateBps := Min(AddU32(targetBitrateBps, cfg.fastStartStepBps), cfg.maxBps);
        }
      } else {
        match newState {
          case Overuse =>
            targetBitrateBps := Decrease(cfg, targetBitrateBps);
          case Underuse =>
            targetBitrateBps := Min(AddU32(targetBitrateBps, cfg.increaseStepBps), cfg.maxBps);
          case Normal =>
        }
      }
      targetBitrateBps := Clamp(cfg, targetBitrateBps);
      lastChange := Some(o.now);
      lastOwdMs := Some(o.owd);
      return targetBitrateBps;
    }
  }

  // ---- Safety over whole sessions -------------------------------------------------------------

  /** From the first observation on, the target never leaves the configured bounds. */
  lemma {:induction false} TargetStaysInRange(cfg: GccConfig, obs: seq<Observation>, k: nat)
    requires cfg.Valid() && 1 <= k <= |obs|
    ensures var s := At(cfg, obs, k);
            s.lastChange.Some? && cfg.minBps <= s.target <= cfg.maxBps
  {
    if k > 1 {
      TargetStaysInRange(cfg, obs, k - 1);
    } else {
      assert At(cfg, obs, 0) == Initial(cfg);
    }
  }

  /** A panic at observation `i` pins the target to the minimum for every observation inside the freeze. */
  lemma {:induction false} PanicHoldsMinimum(cfg: GccConfig, obs: seq<Observation>, i: nat, k: nat)
    requires Monotone(obs) && i < k <= |obs| && Panics(cfg, obs[i])
    requires forall m :: i < m < k ==> obs[m].now < obs[i].now + cfg.panicFreeze
    ensures var s := At(cfg, obs, k);
            && s.target == cfg.minBps && !s.inFastStart
            && s.panicUntil.Some? && s.panicUntil.value >= obs[i].now + cfg.panicFreeze
  {
    if k > i + 1 {
      PanicHoldsMinimum(cfg, obs, i, k - 1);
    }
  }

  /** With no later panic the freeze lasts exactly its length from the panic on. */
  lemma {:induction false} FreezeIsExact(cfg: GccConfig, obs: seq<Observation>, i: nat, k: nat)
    requires Monotone(obs) && i < k <= |obs| && Panics(cfg, obs[i])
    requires forall m :: i < m < k ==> !Panics(cfg, obs[m]) && obs[m].now < obs[i].now + cfg.panicFreeze
    ensures var s := At(cfg, obs, k);
            && s.target == cfg.minBps && !s.inFastStart && s.lastState == Overuse
            && s.panicUntil == Some(obs[i].now + cfg.panicFreeze) && s.lastChange == Some(obs[i].now)
  {
    if k > i + 1 {
      FreezeIsExact(cfg, obs, i, k - 1);
    }
  }

  predicate Changed(cfg: GccConfig, obs: seq<Observation>, i: nat)
    requires i < |obs|
  {
    At(cfg, obs, i).target != At(cfg, obs, i + 1).target
  }

  lemma {:induction false} LastChangeKeepsUp(cfg: GccConfig, obs: seq<Observation>, i: nat, k: nat)
    requires Monotone(obs) && i < k <= |obs| && Changed(cfg, obs, i)
    ensures var s := At(cfg, obs, k);
            s.lastChange.Some? && obs[i].now <= s.lastChange.value <= obs[k - 1].now
  {
    if k == i + 1 {
      var s := At(cfg, obs, i);
      assert At(cfg, obs, k) == Observe(cfg, s, obs[i]);
    } else {
      LastChangeKeepsUp(cfg, obs, i, k - 1);
    }
  }

  /** Apart from panics, two changes of the target are never closer than the reaction interval. */
  lemma {:induction false} ChangesAreSpaced(cfg: GccConfig, obs: seq<Observation>, i: nat, j: nat)
    requires Monotone(obs) && i < j < |obs|
    requires Changed(cfg, obs, i) && Changed(cfg, obs, j) && !Panics(cfg, obs[j])
    ensures obs[j].now - obs[i].now >= cfg.minReaction
  {
    LastChangeKeepsUp(cfg, obs, i, j);
    assert At(cfg, obs, j + 1) == Observe(cfg, At(cfg, obs, j), obs[j]);
  }

  // ---- The smoothed delay ---------------------------------------------------------------------

  /** The smoothed delay after `k` samples, on its own. */
  function Ewma(obs: seq<Observation>, k: nat): real
    requires k <= |obs|
  {
    if k == 0 then 0.0 else 0.9 * Ewma(obs, k - 1) + 0.1 * obs[k - 1].owd
  }

  /** Nothing the controller decides, freezes or skips disturbs the smoothing: every sample enters it once. */
  lemma {:induction false} SmoothingIgnoresDecisions(cfg: GccConfig, obs: seq<Observation>, k: nat)
    requires k <= |obs|
    ensures At(cfg, obs, k).ewma == Ewma(obs, k)
    ensures k > 0 ==> At(cfg, obs, k).prevEwma == Ewma(obs, k - 1)
  {
    if k > 0 {
      SmoothingIgnoresDecisions(cfg, obs, k - 1);
    }
  }

  // ---- What each observation is answered with -------------------------------------------------

  /** The delay is over its limit, or the loss, in thousandths, over its own. */
  lemma {:induction false} PanicsIff(cfg: GccConfig, o: Observation)
    ensures Panics(cfg, o) <==> o.owd > cfg.panicOwd || o.lossX1000 as real > 1000.0 * cfg.panicLoss
  {
  }

  /** Only the gradient of the smoothed delay counts; the test for a vanishing average changes nothing. */
  lemma {:induction false} VerdictIsGradient(ewma: real, prevEwma: real)
    ensures Classify(ewma, prevEwma)
            == if ewma - prevEwma > 3.0 then Overuse else if ewma - prevEwma < -3.0 then Underuse else Normal
  {
  }

  lemma {:induction false} PanicAnswer(cfg: GccConfig, s: State, o: Observation)
    requires Panics(cfg, o)
    ensures var s' := Observe(cfg, s, o);
            && s'.target == cfg.minBps && !s'.inFastStart && s'.lastState == Overuse
            && s'.panicUntil == Some(o.now + cfg.panicFreeze) && s'.lastChange == Some(o.now)
  {
  }

  /**
   While frozen, and while the last change is too recent, nothing is decided; the freeze is left as soon as it is over.
   */
  lemma {:induction false} UndueAnswer(cfg: GccConfig, s: State, o: Observation)
    requires !Panics(cfg, o)
    ensures var s' := Observe(cfg, s, o);
            && (s.panicUntil.Some? && o.now < s.panicUntil.value ==>
                  && s'.target == s.target && s'.inFastStart == s.inFastStart && s'.lastState == s.lastState
                  && s'.panicUntil == s.panicUntil && s'.lastChange == s.lastChange)
            && ((s.panicUntil.Some? ==> o.now >= s.panicUntil.value)
                && s.lastChange.Some? && s.lastChange.value <= o.now < s.lastChange.value + cfg.minReaction ==>
                  && s'.target == s.target && s'.inFastStart == s.inFastStart
                  && s'.panicUntil == None && s'.lastChange == s.lastChange
                  && (s'.lastState == Overuse <==> 0.1 * (o.owd - s.ewma) > 3.0)
                  && (s'.lastState == Underuse <==> 0.1 * (o.owd - s.ewma) < -3.0))
  {
    var e := 0.9 * s.ewma + 0.1 * o.owd;
    assert e - s.ewma == 0.1 * (o.owd - s.ewma);
    VerdictIsGradient(e, s.ewma);
  }

  /** Neither frozen nor too soon after the last change. */
  predicate ReactionIsDue(cfg: GccConfig, s: State, now: nat) {
    && (s.panicUntil.Some? ==> now >= s.panicUntil.value)
    && (s.lastChange.Some? ==> now >= s.lastChange.value + cfg.minReaction)
  }

  /** `target` is `bps`, cut off at the maximum and then raised to the minimum. */
  predicate IsBounded(cfg: GccConfig, target: nat, bps: nat) {
    target == if bps < cfg.minBps then cfg.minBps else if bps > cfg.maxBps then cfg.maxBps else bps
  }

  /** What `bps` becomes for a gradient of the smoothed delay, before it is bounded. */
  function Moved(cfg: GccConfig, fast: bool, bps: nat, gradient: real): nat {
    if gradient > 3.0 then bps * cfg.decreaseFactorQ12 / 4096
    else if fast then (bps + cfg.fastStartStepBps) % 0x1_0000_0000
    else if gradient < -3.0 then (bps + cfg.increaseStepBps) % 0x1_0000_0000
    else bps
  }

  lemma {:induction false} ReactMoves(cfg: GccConfig, s: State, verdict: OveruseState, gradient: real)
    requires cfg.Valid()
    requires verdict == if gradient > 3.0 then Overuse else if gradient < -3.0 then Underuse else Normal
    ensures IsBounded(cfg, Clamp(cfg, React(cfg, s, verdict)), Moved(cfg, s.inFastStart, s.target, gradient))
  {
  }

  lemma {:induction false} DueReacts(cfg: GccConfig, s: State, o: Observation, verdict: OveruseState)
    requires !Panics(cfg, o) && ReactionIsDue(cfg, s, o.now)
    requires verdict == Classify(0.9 * s.ewma + 0.1 * o.owd, s.ewma)
    ensures var s' := Observe(cfg, s, o);
            && s'.panicUntil == None && s'.lastChange == Some(o.now) && s'.lastState == verdict
            && s'.inFastStart == (s.inFastStart && verdict != Overuse)
            && s'.target == Clamp(cfg, React(cfg, s, verdict))
  {
  }

  /** A reaction that is due: by how much the target moves, for each gradient of the smoothed delay. */
  lemma {:induction false} DueAnswer(cfg: GccConfig, s: State, o: Observation)
    requires cfg.Valid() && !Panics(cfg, o) && ReactionIsDue(cfg, s, o.now)
    ensures var s', gradient := Observe(cfg, s, o), 0.1 * (o.owd - s.ewma);
            && s'.panicUntil == None && s'.lastChange == Some(o.now)
            && s'.lastState == (if gradient > 3.0 then Overuse else if gradient < -3.0 then Underuse else Normal)
            && s'.inFastStart == (s.inFastStart && gradient <= 3.0)
            && IsBounded(cfg, s'.target, Moved(cfg, s.inFastStart, s.target, gradient))
  {
    var e, gradient := 0.9 * s.ewma + 0.1 * o.owd, 0.1 * (o.owd - s.ewma);
    assert e - s.ewma == gradient;
    VerdictIsGradient(e, s.ewma);
    DueReacts(cfg, s, o, Classify(e, s.ewma));
    ReactMoves(cfg, s, Classify(e, s.ewma), gradient);
  }

  /** Sample `i` neither panics nor steepens, and leaves time to react to. */
  ghost predicate CalmAt(cfg: GccConfig, obs: seq<Observation>, i: nat)
    requires i < |obs|
  {
    && !Panics(cfg, obs[i]) && 0.1 * (obs[i].owd - Ewma(obs, i)) <= 3.0
    && (i > 0 ==> obs[i].now >= obs[i - 1].now + cfg.minReaction)
  }

  ghost predicate CalmSpaced(cfg: GccConfig, obs: seq<Observation>, n: nat)
    requires n <= |obs|
  {
    forall i :: 0 <= i < n ==> CalmAt(cfg, obs, i)
  }

  /** The target after a climb to `ramp`, cut off at the maximum. */
  ghost predicate Ramped(cfg: GccConfig, s: State, ramp: nat) {
    && s.inFastStart && s.panicUntil == None
    && s.target == if ramp <= cfg.maxBps then ramp else cfg.maxBps
  }

  /** No step of a climb to `ramp` wraps. */
  predicate NoStepWraps(cfg: GccConfig, ramp: nat) {
    ramp < U32 || cfg.maxBps + cfg.fastStartStepBps < U32
  }

  function Ramp(cfg: GccConfig, n: nat): nat {
    if n == 0 then cfg.startBps else Ramp(cfg, n - 1) + cfg.fastStartStepBps
  }

  lemma {:induction false} RampIsLinear(cfg: GccConfig, n: nat)
    ensures Ramp(cfg, n) == cfg.startBps + n * cfg.fastStartStepBps
  {
    if n > 0 {
      RampIsLinear(cfg, n - 1);
      OneTimesMore(n, cfg.fastStartStepBps);
    }
  }

  lemma {:induction false} RampsTo(cfg: GccConfig, obs: seq<Observation>, n: nat)
    requires cfg.Valid() && cfg.minBps <= cfg.startBps <= cfg.maxBps && n <= |obs| && CalmSpaced(cfg, obs, n)
    requires NoStepWraps(cfg, Ramp(cfg, n))
    ensures Ramped(cfg, At(cfg, obs, n), Ramp(cfg, n)) && Ramp(cfg, n) >= cfg.minBps
    ensures At(cfg, obs, n).lastChange == if n == 0 then None else Some(obs[n - 1].now)
  {
    if n > 0 {
      RampsTo(cfg, obs, n - 1);
      SmoothingIgnoresDecisions(cfg, obs, n - 1);
      assert CalmAt(cfg, obs, n - 1);
      RampStep(cfg, At(cfg, obs, n - 1), At(cfg, obs, n), obs, n - 1, Ramp(cfg, n - 1));
    }
  }

  /** The ramp: `n` calm samples raise the target by `n` steps from its start, up to the maximum. */
  lemma {:induction false} FastStartRamps(cfg: GccConfig, obs: seq<Observation>, n: nat)
    requires cfg.Valid() && cfg.minBps <= cfg.startBps <= cfg.maxBps && n <= |obs| && CalmSpaced(cfg, obs, n)
    requires NoStepWraps(cfg, cfg.startBps + n * cfg.fastStartStepBps)
    ensures var s, ramp := At(cfg, obs, n), cfg.startBps + n * cfg.fastStartStepBps;
            s.inFastStart && s.target == if ramp <= cfg.maxBps then ramp else cfg.maxBps
  {
    RampIsLinear(cfg, n);
    RampsTo(cfg, obs, n);
  }

  lemma {:induction false} RampStep(
    cfg: GccConfig, s: State, s': State, obs: seq<Observation>, i: nat, ramp: nat)
    requires cfg.Valid() && i < |obs| && CalmAt(cfg, obs, i) && s' == Observe(cfg, s, obs[i])
    requires s.ewma == Ewma(obs, i) && s.lastChange == if i == 0 then None else Some(obs[i - 1].now)
    requires cfg.minBps <= ramp && Ramped(cfg, s, ramp) && NoStepWraps(cfg, ramp + cfg.fastStartStepBps)
    ensures Ramped(cfg, s', ramp + cfg.fastStartStepBps) && s'.lastChange == Some(obs[i].now)
  {
    DueAnswer(cfg, s, obs[i]);
    UnwrappedStep(cfg, s.target, ramp);
  }

  lemma {:induction false} UnwrappedStep(cfg: GccConfig, bps: nat, ramp: nat)
    requires cfg.Valid() && cfg.minBps <= ramp && bps == (if ramp <= cfg.maxBps then ramp else cfg.maxBps)
    requires NoStepWraps(cfg, ramp + cfg.fastStartStepBps)
    ensures (bps + cfg.fastStartStepBps) % 0x1_0000_0000 == bps + cfg.fastStartStepBps
  {
  }

  /**
   Once the freeze is over, and a reaction interval has passed since the panic, a steep fall of the delay raises the
   target.
   */
  lemma {:induction false} ThawedTargetRises(cfg: GccConfig, obs: seq<Observation>, i: nat, k: nat)
    requires cfg.Valid() && Monotone(obs) && i < k < |obs| && Panics(cfg, obs[i]) && !Panics(cfg, obs[k])
    requires forall m :: i < m < k ==> !Panics(cfg, obs[m]) && obs[m].now < obs[i].now + cfg.panicFreeze
    requires obs[k].now >= obs[i].now + cfg.panicFreeze && obs[k].now >= obs[i].now + cfg.minReaction
    requires 0.1 * (obs[k].owd - Ewma(obs, k)) < -3.0
    ensures IsBounded(cfg, At(cfg, obs, k + 1).target, (cfg.minBps + cfg.increaseStepBps) % 0x1_0000_0000)
  {
    FreezeIsExact(cfg, obs, i, k);
    SmoothingIgnoresDecisions(cfg, obs, k);
    DueAnswer(cfg, At(cfg, obs, k), obs[k]);
  }

  /** Fast start, once left, is never entered again. */
  lemma {:induction false} FastStartNeverReturns(cfg: GccConfig, obs: seq<Observation>, i: nat, k: nat)
    requires i <= k <= |obs| && !At(cfg, obs, i).inFastStart
    ensures !At(cfg, obs, k).inFastStart
  {
    if i < k {
      FastStartNeverReturns(cfg, obs, i, k - 1);
    }
  }

  /** One additive step. */
  function Stepped(cfg: GccConfig, bps: nat, step: nat): nat { Clamp(cfg, Min(AddU32(bps, step), cfg.maxBps)) }

  /** One step of fast start. */
  function Probe(cfg: GccConfig, bps: nat): nat { Stepped(cfg, bps, cfg.fastStartStepBps) }

  /** The start lies at or below the minimum, the first step lands on it, and every further step wraps back to it. */
  predicate StuckAtMinimum(cfg: GccConfig) {
    cfg.startBps <= cfg.minBps && AddU32(cfg.startBps, cfg.fastStartStepBps) <= cfg.minBps
    && cfg.minBps + cfg.fastStartStepBps >= U32
  }

  /**
   When fast start is safe: a negative loss limit makes every observation a panic; otherwise the start is not above
   the maximum, and no step can wrap, or there is nothing to fall to.
   */
  predicate FastStartSafe(cfg: GccConfig) {
    || cfg.panicLoss < 0.0
    || (cfg.startBps <= cfg.maxBps
        && (cfg.maxBps + cfg.fastStartStepBps < U32 || cfg.minBps == cfg.maxBps || StuckAtMinimum(cfg)))
  }

  /** No session lowers the target while fast start lasts. */
  ghost predicate FastStartNeverFalls(cfg: GccConfig) {
    forall obs: seq<Observation>, k: nat ::
      Monotone(obs) && k < |obs| && At(cfg, obs, k + 1).inFastStart ==>
        At(cfg, obs, k).target <= At(cfg, obs, k + 1).target
  }

  /** An observation that stays in fast start does nothing to the target but probe. */
  lemma {:induction false} FastStartProbes(cfg: GccConfig, s: State, o: Observation)
    requires Observe(cfg, s, o).inFastStart
    ensures s.inFastStart && cfg.panicLoss >= 0.0
    ensures Observe(cfg, s, o).target == s.target || Observe(cfg, s, o).target == Probe(cfg, s.target)
  {
    assert !Panics(cfg, o);
  }

  /** The highest target a safe fast start comes to. */
  function Top(cfg: GccConfig): nat {
    if StuckAtMinimum(cfg) then cfg.minBps
    else if cfg.fastStartStepBps > 0 then cfg.maxBps
    else Max(cfg.minBps, cfg.startBps)
  }

  /** A target that a safe fast start may have. */
  predicate Probable(cfg: GccConfig, bps: nat) {
    || bps == cfg.startBps
    || bps == Top(cfg)
    || (cfg.fastStartStepBps > 0 && cfg.minBps <= bps <= Top(cfg))
  }

  lemma {:induction false} SafeProbe(cfg: GccConfig, bps: nat)
    requires cfg.Valid() && FastStartSafe(cfg) && cfg.panicLoss >= 0.0 && Probable(cfg, bps)
    ensures bps <= Probe(cfg, bps) <= Top(cfg) <= cfg.maxBps && Probable(cfg, Probe(cfg, bps))
    ensures Probe(cfg, bps) == Top(cfg) || Probe(cfg, bps) > bps
  {
  }

  /** One observation of a safe fast start, on its two states. */
  lemma {:induction false} SafeStep(cfg: GccConfig, s: State, s': State, o: Observation)
    requires cfg.Valid() && FastStartSafe(cfg)
    requires Probable(cfg, s.target) && s' == Observe(cfg, s, o) && s'.inFastStart
    ensures s.inFastStart && s.target <= s'.target && Probable(cfg, s'.target)
  {
    FastStartProbes(cfg, s, o);
    SafeProbe(cfg, s.target);
  }

  /** While a safe fast start lasts, every target is one it may have. */
  lemma {:induction false} SafeFastStart(cfg: GccConfig, obs: seq<Observation>, k: nat)
    requires cfg.Valid() && FastStartSafe(cfg) && k <= |obs| && At(cfg, obs, k).inFastStart
    ensures Probable(cfg, At(cfg, obs, k).target)
  {
    if k > 0 {
      FastStartProbes(cfg, At(cfg, obs, k - 1), obs[k - 1]);
      SafeFastStart(cfg, obs, k - 1);
      SafeStep(cfg, At(cfg, obs, k - 1), At(cfg, obs, k), obs[k - 1]);
    }
  }

  lemma {:induction false} SafeStepNeverFalls(cfg: GccConfig, obs: seq<Observation>, k: nat)
    requires cfg.Valid() && FastStartSafe(cfg) && k < |obs| && At(cfg, obs, k + 1).inFastStart
    ensures At(cfg, obs, k).inFastStart && At(cfg, obs, k).target <= At(cfg, obs, k + 1).target
  {
    FastStartProbes(cfg, At(cfg, obs, k), obs[k]);
    SafeFastStart(cfg, obs, k);
    SafeStep(cfg, At(cfg, obs, k), At(cfg, obs, k + 1), obs[k]);
  }

  // ---- Sessions that reach a state ------------------------------------------------------------

  lemma {:induction false} AtPrefix(cfg: GccConfig, obs: seq<Observation>, more: seq<Observation>, k: nat)
    requires k <= |obs|
    ensures At(cfg, obs + more, k) == At(cfg, obs, k)
  {
    if k > 0 {
      AtPrefix(cfg, obs, more, k - 1);
    }
  }

  /** The session leads to this state, and its last observation is no later than `now`. */
  ghost predicate LeadsTo(cfg: GccConfig, obs: seq<Observation>, s: State, now: nat) {
    Monotone(obs) && At(cfg, obs, |obs|) == s && forall i :: 0 <= i < |obs| ==> obs[i].now <= now
  }

  /** Some session has led to this state, and an observation at `now` is reacted to. */
  ghost predicate Poised(cfg: GccConfig, s: State, now: nat) {
    && (exists obs :: LeadsTo(cfg, obs, s, now))
    && !Frozen(s, now) && MayReact(cfg, s, now)
  }

  /** One observation more. */
  lemma {:induction false} OneObservationMore(cfg: GccConfig, s: State, now: nat, o: Observation)
    returns (obs: seq<Observation>)
    requires Poised(cfg, s, now) && o.now >= now
    ensures Monotone(obs) && obs != [] && obs[|obs| - 1] == o
    ensures At(cfg, obs, |obs| - 1) == s && LeadsTo(cfg, obs, Observe(cfg, s, o), o.now)
  {
    var before :| LeadsTo(cfg, before, s, now);
    obs := before + [o];
    AtPrefix(cfg, before, [o], |before|);
  }

  lemma {:induction false} PoisedAtStart(cfg: GccConfig)
    ensures Poised(cfg, Initial(cfg), 0)
  {
    assert LeadsTo(cfg, [], Initial(cfg), 0);
  }

  function MinReal(a: real, b: real): real { if a < b then a else b }

  /** The observation, free of panic, that takes the average down to 40 ms below itself and the panic limit. */
  function Plunge(cfg: GccConfig, s: State, now: nat): Observation {
    Observation(10.0 * (MinReal(s.ewma, cfg.panicOwd) - 40.0) - 9.0 * s.ewma, 0, now)
  }

  /** The observation that takes the average up by 4 ms. */
  function Surge(s: State, now: nat): Observation { Observation(s.ewma + 40.0, 0, now) }

  /** The step of fast start, or the one after it. */
  function StepOf(cfg: GccConfig, s: State): nat {
    if s.inFastStart then cfg.fastStartStepBps else cfg.increaseStepBps
  }

  /** What an additive step makes of a state's target. */
  function Raised(cfg: GccConfig, s: State): nat { Stepped(cfg, s.target, StepOf(cfg, s)) }

  lemma {:induction false} PlungeRaises(cfg: GccConfig, s: State, now: nat)
    requires cfg.panicLoss >= 0.0 && !Frozen(s, now) && MayReact(cfg, s, now)
    ensures var o, s' := Plunge(cfg, s, now), Observe(cfg, s, Plunge(cfg, s, now));
            && !Panics(cfg, o) && s'.ewma - s.ewma < -3.0 && s'.ewma <= cfg.panicOwd - 40.0
            && s'.target == Raised(cfg, s) && s'.inFastStart == s.inFastStart
            && s'.panicUntil == None && s'.lastChange == Some(now)
  {
    var o := Plunge(cfg, s, now);
    var e := MinReal(s.ewma, cfg.panicOwd) - 40.0;
    assert o.owd == e + 9.0 * (e - s.ewma);
    assert 0.9 * s.ewma + 0.1 * o.owd == e;
    assert Classify(e, s.ewma) == Underuse;
  }

  lemma {:induction false} Plunges(cfg: GccConfig, s: State, now: nat) returns (s': State, now': nat)
    requires Poised(cfg, s, now) && cfg.panicLoss >= 0.0
    ensures Poised(cfg, s', now') && s' == Observe(cfg, s, Plunge(cfg, s, now))
    ensures s'.target == Raised(cfg, s) && s'.inFastStart == s.inFastStart && s'.ewma <= cfg.panicOwd - 40.0
  {
    PlungeRaises(cfg, s, now);
    var obs := OneObservationMore(cfg, s, now, Plunge(cfg, s, now));
    s', now' := Observe(cfg, s, Plunge(cfg, s, now)), now + cfg.minReaction;
    assert LeadsTo(cfg, obs, s', now');
  }

  lemma {:induction false} SurgeLowers(cfg: GccConfig, s: State, now: nat)
    requires cfg.panicLoss >= 0.0 && !Frozen(s, now) && MayReact(cfg, s, now) && s.ewma <= cfg.panicOwd - 40.0
    ensures var o, s' := Surge(s, now), Observe(cfg, s, Surge(s, now));
            && !Panics(cfg, o) && s'.ewma - s.ewma > 3.0 && s'.ewma <= cfg.panicOwd
            && s'.target == Clamp(cfg, Decrease(cfg, s.target)) && !s'.inFastStart
            && s'.panicUntil == None && s'.lastChange == Some(now)
  {
    assert 0.9 * s.ewma + 0.1 * Surge(s, now).owd == s.ewma + 4.0;
    assert Classify(s.ewma + 4.0, s.ewma) == Overuse;
  }

  lemma {:induction false} Surges(cfg: GccConfig, s: State, now: nat) returns (s': State, now': nat)
    requires Poised(cfg, s, now) && cfg.panicLoss >= 0.0 && s.ewma <= cfg.panicOwd - 40.0
    ensures Poised(cfg, s', now')
    ensures s'.target == Clamp(cfg, Decrease(cfg, s.target)) && !s'.inFastStart
  {
    SurgeLowers(cfg, s, now);
    var obs := OneObservationMore(cfg, s, now, Surge(s, now));
    s', now' := Observe(cfg, s, Surge(s, now)), now + cfg.minReaction;
    assert LeadsTo(cfg, obs, s', now');
  }

  /** A plunge and then a panic: the target is the minimum, and the average is low enough for a surge without panic. */
  lemma {:induction false} PanicsLow(cfg: GccConfig) returns (s: State, now: nat)
    requires cfg.Valid()
    ensures Poised(cfg, s, now) && s.target == cfg.minBps && !s.inFastStart
    ensures s.ewma <= cfg.panicOwd - 40.0
  {
    PoisedAtStart(cfg);
    var low := Observation(-1000.0 - 100.0 * AbsReal(cfg.panicOwd), 0, 0);
    var high := Observation(cfg.panicOwd + 1.0, 0, cfg.minReaction + cfg.panicFreeze);
    var s0 := Observe(cfg, Initial(cfg), low);
    var obs0 := OneObservationMore(cfg, Initial(cfg), 0, low);
    assert LeadsTo(cfg, obs0, s0, high.now);
    assert s0.ewma == -100.0 - 10.0 * AbsReal(cfg.panicOwd);
    var obs := OneObservationMore(cfg, s0, high.now, high);
    s, now := Observe(cfg, s0, high), high.now + cfg.panicFreeze + cfg.minReaction;
    assert LeadsTo(cfg, obs, s, now);
  }

  // ---- Fast start, exactly --------------------------------------------------------------------

  /** Above the minimum, a step either wraps and falls, or grows towards the maximum. */
  lemma {:induction false} StepWrapsOrGrows(cfg: GccConfig, bps: nat, step: nat)
    requires cfg.Valid() && cfg.minBps < bps <= cfg.maxBps && step < U32 && cfg.maxBps + step >= U32
    ensures if bps + step >= U32 then Stepped(cfg, bps, step) < bps else bps < Stepped(cfg, bps, step) <= cfg.maxBps
  {
  }

  /** From a start at or below the minimum, an unsafe fast start is above it after two probes. */
  lemma {:induction false} UnsafeStart(cfg: GccConfig)
    requires cfg.Valid() && !FastStartSafe(cfg) && cfg.startBps <= cfg.minBps
    ensures cfg.minBps < cfg.maxBps && cfg.maxBps + cfg.fastStartStepBps >= U32
    ensures var first := Probe(cfg, cfg.startBps);
            && cfg.minBps <= first <= cfg.maxBps
            && (first == cfg.minBps ==> cfg.minBps < Probe(cfg, first) <= cfg.maxBps)
  {
  }

  /** Above the minimum, a range whose top step wraps is climbed until the next additive step falls. */
  lemma {:induction false} ClimbsToAFall(cfg: GccConfig, s: State, now: nat) returns (s': State, now': nat)
    requires cfg.Valid() && Poised(cfg, s, now) && cfg.panicLoss >= 0.0 && cfg.minBps < s.target <= cfg.maxBps
    requires cfg.maxBps + StepOf(cfg, s) >= U32
    ensures Poised(cfg, s', now') && s'.inFastStart == s.inFastStart && Raised(cfg, s') < s'.target
    decreases cfg.maxBps - s.target
  {
    StepWrapsOrGrows(cfg, s.target, StepOf(cfg, s));
    if s.target + StepOf(cfg, s) >= U32 {
      return s, now;
    }
    s', now' := Plunges(cfg, s, now);
    s', now' := ClimbsToAFall(cfg, s', now');
  }

  /** In every configuration that is not safe, some session comes to a state where the next probe falls. */
  lemma {:induction false} UnsafeProbeFalls(cfg: GccConfig) returns (s: State, now: nat)
    requires cfg.Valid() && !FastStartSafe(cfg)
    ensures Poised(cfg, s, now) && s.inFastStart && Raised(cfg, s) < s.target
  {
    PoisedAtStart(cfg);
    s, now := Initial(cfg), 0;
    if cfg.startBps > cfg.maxBps {
      return;
    }
    if s.target <= cfg.minBps {
      UnsafeStart(cfg);
      s, now := Plunges(cfg, s, now);
      if s.target == cfg.minBps {
        s, now := Plunges(cfg, s, now);
      }
    }
    s, now := ClimbsToAFall(cfg, s, now);
  }

  /**
   The exact condition, on the configuration alone, under which no session lowers the target while fast start lasts.
   */
  lemma {:induction false} FastStartNeverFallsIff(cfg: GccConfig)
    requires cfg.Valid()
    ensures FastStartNeverFalls(cfg) <==> FastStartSafe(cfg)
  {
    if FastStartSafe(cfg) {
      forall obs: seq<Observation>, k: nat | Monotone(obs) && k < |obs| && At(cfg, obs, k + 1).inFastStart
        ensures At(cfg, obs, k).target <= At(cfg, obs, k + 1).target
      {
        SafeStepNeverFalls(cfg, obs, k);
      }
    } else {
      var s, now := UnsafeProbeFalls(cfg);
      PlungeRaises(cfg, s, now);
      var obs := OneObservationMore(cfg, s, now, Plunge(cfg, s, now));
      assert At(cfg, obs, |obs| - 1 + 1).inFastStart;
    }
  }

  /** So over any stretch of a safe session's fast start, the target only grows. */
  lemma {:induction false} FastStartOnlyGrows(cfg: GccConfig, obs: seq<Observation>, i: nat, k: nat)
    requires cfg.Valid() && FastStartSafe(cfg) && i <= k <= |obs| && At(cfg, obs, k).inFastStart
    ensures At(cfg, obs, i).target <= At(cfg, obs, k).target
  {
    if i < k {
      SafeStepNeverFalls(cfg, obs, k - 1);
      FastStartOnlyGrows(cfg, obs, i, k - 1);
    }
  }

  // ---- Changes follow the delay ---------------------------------------------------------------

  /** The smoothed delay has risen, or fallen, by more than 3 ms. */
  predicate Steepens(s: State, s': State) { s'.ewma - s.ewma > 3.0 }

  predicate Flattens(s: State, s': State) { s'.ewma - s.ewma < -3.0 }

  /** On every session the target falls only in a panic or after a steep rise of the smoothed delay. */
  ghost predicate FallsFollowDelay(cfg: GccConfig) {
    forall obs: seq<Observation>, k: nat ::
      Monotone(obs) && k < |obs| && At(cfg, obs, k + 1).target < At(cfg, obs, k).target ==>
        Panics(cfg, obs[k]) || Steepens(At(cfg, obs, k), At(cfg, obs, k + 1))
  }

  /** On every session the target rises only in fast start or after a steep fall of the smoothed delay. */
  ghost predicate RisesFollowDelay(cfg: GccConfig) {
    forall obs: seq<Observation>, k: nat ::
      Monotone(obs) && k < |obs| && At(cfg, obs, k + 1).target > At(cfg, obs, k).target ==>
        At(cfg, obs, k).inFastStart || Flattens(At(cfg, obs, k), At(cfg, obs, k + 1))
  }

  /**
   Beyond a safe fast start: the increase never wraps, or there is nothing to fall to, or the minimum is never left
   once fast start is over, because the increase wraps there and even the highest decrease lands on it.
   */
  predicate FallSafe(cfg: GccConfig) {
    && FastStartSafe(cfg)
    && (|| cfg.panicLoss < 0.0
        || cfg.maxBps + cfg.increaseStepBps < U32
        || cfg.minBps == cfg.maxBps
        || (cfg.minBps + cfg.increaseStepBps >= U32 && Decrease(cfg, Top(cfg)) <= cfg.minBps))
  }

  /** The last of the four cases. */
  predicate Pinned(cfg: GccConfig) {
    cfg.panicLoss >= 0.0 && cfg.minBps + cfg.increaseStepBps >= U32 && Decrease(cfg, Top(cfg)) <= cfg.minBps
  }

  lemma {:induction false} DecreaseIsMonotone(cfg: GccConfig, a: nat, b: nat)
    requires a <= b
    ensures Decrease(cfg, a) <= Decrease(cfg, b)
  {
    MulLe(a, b, cfg.decreaseFactorQ12);
    DivMonotone(a * cfg.decreaseFactorQ12, b * cfg.decreaseFactorQ12, 4096);
  }

  /** Where a target outside fast start can come from. */
  lemma {:induction false} OutsideTargets(cfg: GccConfig, s: State, s': State, o: Observation)
    requires s' == Observe(cfg, s, o) && !s'.inFastStart
    ensures || s'.target == cfg.minBps
            || s'.target == Clamp(cfg, Decrease(cfg, s.target))
            || (!s.inFastStart && s'.target in {s.target, Clamp(cfg, s.target), Raised(cfg, s)})
  {
  }

  /** None of them is above the minimum if the decrease is not. */
  lemma {:induction false} PinnedTargets(cfg: GccConfig, decreased: nat, bps: nat)
    requires cfg.Valid() && decreased <= cfg.minBps && bps == cfg.minBps && bps + cfg.increaseStepBps >= U32
    ensures Clamp(cfg, decreased) == Clamp(cfg, bps) == Stepped(cfg, bps, cfg.increaseStepBps) == cfg.minBps
  {
  }

  lemma {:induction false} PinnedStep(cfg: GccConfig, s: State, o: Observation)
    requires cfg.Valid() && FastStartSafe(cfg) && Pinned(cfg)
    requires if s.inFastStart then Probable(cfg, s.target) else s.target == cfg.minBps
    ensures !Observe(cfg, s, o).inFastStart ==> Observe(cfg, s, o).target == cfg.minBps
  {
    SafeProbe(cfg, if s.inFastStart then s.target else cfg.startBps);
    DecreaseIsMonotone(cfg, s.target, Top(cfg));
    if !Observe(cfg, s, o).inFastStart {
      OutsideTargets(cfg, s, Observe(cfg, s, o), o);
      PinnedTargets(cfg, Decrease(cfg, s.target), cfg.minBps);
    }
  }

  /** Outside fast start a pinned controller's target is the minimum. */
  lemma {:induction false} PinnedAtMinimum(cfg: GccConfig, obs: seq<Observation>, k: nat)
    requires cfg.Valid() && FastStartSafe(cfg) && Pinned(cfg) && k <= |obs| && !At(cfg, obs, k).inFastStart
    ensures At(cfg, obs, k).target == cfg.minBps
  {
    if k > 0 {
      if At(cfg, obs, k - 1).inFastStart {
        SafeFastStart(cfg, obs, k - 1);
      } else {
        PinnedAtMinimum(cfg, obs, k - 1);
      }
      PinnedStep(cfg, At(cfg, obs, k - 1), obs[k - 1]);
    }
  }

  /** A fall without panic and without a steep rise is a fall of fast start, or an increase that wrapped. */
  lemma {:induction false} OtherFalls(cfg: GccConfig, s: State, o: Observation)
    requires cfg.Valid() && !Panics(cfg, o) && !Steepens(s, Observe(cfg, s, o))
    requires Observe(cfg, s, o).target < s.target
    requires s.inFastStart || cfg.minBps <= s.target <= cfg.maxBps
    ensures Observe(cfg, s, o).inFastStart || (s.target > cfg.minBps && s.target + cfg.increaseStepBps >= U32)
  {
  }

  lemma {:induction false} SafeFallsFollowDelay(cfg: GccConfig, obs: seq<Observation>, k: nat)
    requires cfg.Valid() && FallSafe(cfg) && k < |obs|
    requires At(cfg, obs, k + 1).target < At(cfg, obs, k).target && !Panics(cfg, obs[k])
    ensures Steepens(At(cfg, obs, k), At(cfg, obs, k + 1))
  {
    var s := At(cfg, obs, k);
    assert obs[k].lossX1000 as real / 1000.0 >= 0.0;
    if At(cfg, obs, k + 1).inFastStart {
      SafeStepNeverFalls(cfg, obs, k);
    } else if !Steepens(s, At(cfg, obs, k + 1)) {
      if !s.inFastStart {
        TargetStaysInRange(cfg, obs, k);
        if Pinned(cfg) {
          PinnedAtMinimum(cfg, obs, k);
        }
      }
      OtherFalls(cfg, s, obs[k]);
    }
  }

  /** Fast start can be driven to its highest target. */
  lemma {:induction false} ReachesTop(cfg: GccConfig, s: State, now: nat) returns (s': State, now': nat)
    requires cfg.Valid() && FastStartSafe(cfg) && cfg.panicLoss >= 0.0 && cfg.minBps < cfg.maxBps
    requires Poised(cfg, s, now) && s.inFastStart && Probable(cfg, s.target)
    ensures Poised(cfg, s', now') && s'.inFastStart && s'.target == Top(cfg) && s'.ewma <= cfg.panicOwd - 40.0
    decreases cfg.maxBps - s.target
  {
    SafeProbe(cfg, s.target);
    s', now' := Plunges(cfg, s, now);
    if s'.target != Top(cfg) {
      s', now' := ReachesTop(cfg, s', now');
    }
  }

  /** Where falls are not safe, some session comes to a state where an increase, or a probe, falls. */
  lemma {:induction false} UnsafeIncreaseFalls(cfg: GccConfig) returns (s: State, now: nat)
    requires cfg.Valid() && !FallSafe(cfg)
    ensures Poised(cfg, s, now) && cfg.panicLoss >= 0.0 && Raised(cfg, s) < s.target
  {
    if !FastStartSafe(cfg) {
      s, now := UnsafeProbeFalls(cfg);
      return;
    }
    if cfg.minBps + cfg.increaseStepBps < U32 {
      s, now := PanicsLow(cfg);
      s, now := Plunges(cfg, s, now);
    } else {
      PoisedAtStart(cfg);
      s, now := ReachesTop(cfg, Initial(cfg), 0);
      s, now := Surges(cfg, s, now);
    }
    s, now := ClimbsToAFall(cfg, s, now);
  }

  /** The exact condition, on the configuration alone, under which on every session falls follow the delay. */
  lemma {:induction false} FallsFollowDelayIff(cfg: GccConfig)
    requires cfg.Valid()
    ensures FallsFollowDelay(cfg) <==> FallSafe(cfg)
  {
    if FallSafe(cfg) {
      forall obs: seq<Observation>, k: nat
        | Monotone(obs) && k < |obs| && At(cfg, obs, k + 1).target < At(cfg, obs, k).target
        ensures Panics(cfg, obs[k]) || Steepens(At(cfg, obs, k), At(cfg, obs, k + 1))
      {
        if !Panics(cfg, obs[k]) {
          SafeFallsFollowDelay(cfg, obs, k);
        }
      }
    } else {
      var s, now := UnsafeIncreaseFalls(cfg);
      PlungeRaises(cfg, s, now);
      var obs := OneObservationMore(cfg, s, now, Plunge(cfg, s, now));
      assert At(cfg, obs, |obs| - 1 + 1).target < At(cfg, obs, |obs| - 1).target;
    }
  }

  lemma {:induction false} FixedPointFalls(product: nat, bps: nat)
    requires product <= 4096 * bps
    ensures product / 4096 <= bps
    ensures product <= 4095 * bps && bps > 0 ==> product / 4096 < bps
  {
  }

  lemma {:induction false} DecreaseFalls(cfg: GccConfig, bps: nat)
    requires cfg.decreaseFactorQ12 <= 4096
    ensures Decrease(cfg, bps) <= bps
    ensures cfg.decreaseFactorQ12 < 4096 && bps > 0 ==> Decrease(cfg, bps) < bps
  {
    var q := cfg.decreaseFactorQ12;
    assert bps * q == q * bps;
    MulLe(q, if q < 4096 then 4095 else 4096, bps);
    FixedPointFalls(q * bps, bps);
  }

  /** From 4096 bits per second on, a factor above one raises every bitrate. */
  lemma {:induction false} FactorAboveOneRaises(cfg: GccConfig, bps: nat)
    requires cfg.decreaseFactorQ12 > 4096 && 4096 <= bps < U32 - 1
    ensures Decrease(cfg, bps) > bps
  {
    MulLe(4097, cfg.decreaseFactorQ12, bps);
    assert bps * cfg.decreaseFactorQ12 == cfg.decreaseFactorQ12 * bps >= 4096 * (bps + 1);
    DivMonotone(4096 * (bps + 1), bps * cfg.decreaseFactorQ12, 4096);
  }

  /** No target below the maximum is raised by a decrease. */
  ghost predicate DecreaseNeverRaises(cfg: GccConfig) {
    forall bps: nat :: cfg.minBps <= bps < cfg.maxBps ==> Decrease(cfg, bps) <= bps
  }

  lemma {:induction false} RiseIsFlattening(cfg: GccConfig, s: State, o: Observation)
    requires cfg.Valid() && cfg.minBps <= s.target <= cfg.maxBps && Observe(cfg, s, o).target > s.target
    requires Panics(cfg, o) || s.target == cfg.maxBps || Decrease(cfg, s.target) <= s.target
    ensures s.inFastStart || Flattens(s, Observe(cfg, s, o))
  {
  }

  /** Both halves: with nothing that wraps into a fall or decreases into a rise, every change follows the delay. */
  lemma {:induction false} ChangesFollowDelay(cfg: GccConfig, obs: seq<Observation>, k: nat)
    requires cfg.Valid() && FallSafe(cfg) && DecreaseNeverRaises(cfg) && k < |obs|
    ensures var s, s' := At(cfg, obs, k), At(cfg, obs, k + 1);
            && (s'.target > s.target ==> s.inFastStart || Flattens(s, s'))
            && (s'.target < s.target ==> Panics(cfg, obs[k]) || Steepens(s, s'))
  {
    if At(cfg, obs, k + 1).target > At(cfg, obs, k).target {
      if k > 0 {
        TargetStaysInRange(cfg, obs, k);
        RiseIsFlattening(cfg, At(cfg, obs, k), obs[k]);
      }
    } else if At(cfg, obs, k + 1).target < At(cfg, obs, k).target && !Panics(cfg, obs[k]) {
      SafeFallsFollowDelay(cfg, obs, k);
    }
  }

  /** The rising half, exactly, for every minimum of at least 4096 bits per second. */
  lemma {:induction false} RisesFollowDelayIff(cfg: GccConfig)
    requires cfg.Valid() && cfg.minBps >= 4096
    ensures RisesFollowDelay(cfg)
            <==> cfg.panicLoss < 0.0 || cfg.minBps == cfg.maxBps || cfg.decreaseFactorQ12 <= 4096
  {
    if cfg.panicLoss < 0.0 || cfg.minBps == cfg.maxBps || cfg.decreaseFactorQ12 <= 4096 {
      forall obs: seq<Observation>, k: nat
        | Monotone(obs) && k < |obs| && At(cfg, obs, k + 1).target > At(cfg, obs, k).target
        ensures At(cfg, obs, k).inFastStart || Flattens(At(cfg, obs, k), At(cfg, obs, k + 1))
      {
        SafeRise(cfg, obs, k);
      }
    } else {
      var s, now := PanicsLow(cfg);
      SurgeLowers(cfg, s, now);
      FactorAboveOneRaises(cfg, cfg.minBps);
      var obs := OneObservationMore(cfg, s, now, Surge(s, now));
      assert At(cfg, obs, |obs| - 1 + 1).target > At(cfg, obs, |obs| - 1).target;
    }
  }

  lemma {:induction false} SafeRise(cfg: GccConfig, obs: seq<Observation>, k: nat)
    requires cfg.Valid() && k < |obs| && At(cfg, obs, k + 1).target > At(cfg, obs, k).target
    requires cfg.panicLoss < 0.0 || cfg.minBps == cfg.maxBps || cfg.decreaseFactorQ12 <= 4096
    ensures At(cfg, obs, k).inFastStart || Flattens(At(cfg, obs, k), At(cfg, obs, k + 1))
  {
    if k > 0 {
      TargetStaysInRange(cfg, obs, k);
      assert obs[k].lossX1000 as real / 1000.0 >= 0.0;
      if cfg.decreaseFactorQ12 <= 4096 {
        DecreaseFalls(cfg, At(cfg, obs, k).target);
      }
      RiseIsFlattening(cfg, At(cfg, obs, k), obs[k]);
    }
  }

  /**
   And when a reaction is due, outside panic and freeze: a steep rise ends fast start and lowers the target exactly
   when it is above the minimum and the factor lowers it; a steep fall raises it exactly when it is below the maximum
   and the step is positive and does not wrap.
   */
  lemma {:induction false} SteepDelayMovesTarget(cfg: GccConfig, s: State, o: Observation)
    requires cfg.Valid() && cfg.minBps <= s.target <= cfg.maxBps
    requires !Panics(cfg, o) && !Frozen(s, o.now) && MayReact(cfg, s, o.now)
    ensures var s' := Observe(cfg, s, o);
            && (Steepens(s, s') ==>
                  && !s'.inFastStart
                  && (s'.target < s.target <==> s.target > cfg.minBps && Decrease(cfg, s.target) < s.target)
                  && (cfg.decreaseFactorQ12 < 4096 ==> s'.target < s.target || s.target == cfg.minBps))
            && (Flattens(s, s') && !s.inFastStart ==>
                  (s'.target > s.target
                   <==> && s.target < cfg.maxBps && cfg.increaseStepBps > 0
                        && s.target + cfg.increaseStepBps < U32))
  {
    if cfg.decreaseFactorQ12 < 4096 {
      DecreaseFalls(cfg, s.target);
    }
  }

  // ---- Convergence under a constant delay -----------------------------------------------------

  function Pow(x: real, k: nat): real {
    if k == 0 then 1.0 else x * Pow(x, k - 1)
  }

  lemma {:induction false} PowAdd(x: real, a: nat, b: nat)
    ensures Pow(x, a + b) == Pow(x, a) * Pow(x, b)
  {
    if a > 0 {
      PowAdd(x, a - 1, b);
      assert Pow(x, a + b) == x * Pow(x, a - 1 + b);
      assert x * (Pow(x, a - 1) * Pow(x, b)) == (x * Pow(x, a - 1)) * Pow(x, b);
    }
  }

  lemma {:induction false} PowInUnit(k: nat)
    ensures 0.0 < Pow(0.9, k) <= 1.0
  {
    if k > 0 {
      PowInUnit(k - 1);
    }
  }

  predicate ConstantDelay(obs: seq<Observation>, k: nat, owd: real)
    requires k <= |obs|
  {
    forall i :: k <= i < |obs| ==> obs[i].owd == owd
  }

  lemma {:induction false} OneSampleMore(obs: seq<Observation>, n: nat)
    requires n < |obs|
    ensures Ewma(obs, n + 1) == 0.9 * Ewma(obs, n) + 0.1 * obs[n].owd
  {
  }

  lemma {:induction false} OneTenthCloser(before: real, after: real, p: real, d: real, owd: real)
    requires before - owd == p * d && after == 0.9 * before + 0.1 * owd
    ensures after - owd == (0.9 * p) * d
  {
    assert after - owd == 0.9 * (p * d);
  }

  /** Closed form: the distance of the smoothed delay from a constant one shrinks by a tenth a sample. */
  lemma {:induction false} EwmaClosedForm(obs: seq<Observation>, k: nat, j: nat, owd: real)
    requires k + j <= |obs| && ConstantDelay(obs, k, owd)
    ensures Ewma(obs, k + j) - owd == Pow(0.9, j) * (Ewma(obs, k) - owd)
  {
    if j > 0 {
      EwmaClosedForm(obs, k, j - 1, owd);
      OneSampleMore(obs, k + j - 1);
      assert obs[k + j - 1].owd == owd;
      OneTenthCloser(Ewma(obs, k + j - 1), Ewma(obs, k + j), Pow(0.9, j - 1), Ewma(obs, k) - owd, owd);
    }
  }

  predicate DelaysWithin(obs: seq<Observation>, bound: real) {
    forall i :: 0 <= i < |obs| ==> 0.0 <= obs[i].owd <= bound
  }

  lemma {:induction false} EwmaStaysWithin(obs: seq<Observation>, k: nat, bound: real)
    requires DelaysWithin(obs, bound) && k <= |obs| && bound >= 0.0
    ensures 0.0 <= Ewma(obs, k) <= bound
  {
    if k > 0 {
      EwmaStaysWithin(obs, k - 1, bound);
    }
  }

  /** `0.9^18` lies just above, and `0.9^19` below, the 3/20 that separates Overuse and Underuse from Normal. */
  lemma {:induction false} PowAroundThreshold(j: nat)
    requires j >= 19
    ensures Pow(0.9, 18) > 0.15009 && Pow(0.9, j) < 0.15
  {
    assert Pow(0.9, 3) == 0.729;
    PowAdd(0.9, 3, 3);
    PowAdd(0.9, 6, 6);
    PowAdd(0.9, 12, 6);
    if j == 19 {
      assert Pow(0.9, 19) == 0.9 * Pow(0.9, 18);
    } else {
      PowAroundThreshold(j - 1);
      PowInUnit(j - 1);
    }
  }

  lemma {:induction false} GradientShrinks(obs: seq<Observation>, k: nat, j: nat, owd: real)
    requires DelaysWithin(obs, 200.0) && j >= 20 && k + j <= |obs| && ConstantDelay(obs, k, owd)
    ensures -3.0 <= Ewma(obs, k + j) - Ewma(obs, k + j - 1) <= 3.0
  {
    EwmaClosedForm(obs, k, j - 1, owd);
    EwmaStaysWithin(obs, k, 200.0);
    PowAroundThreshold(j - 1);
    PowInUnit(j - 1);
    assert obs[k].owd == owd == obs[k + j - 1].owd;
    var p, d := Pow(0.9, j - 1), Ewma(obs, k) - owd;
    ProductBound(p, d);
    var before := Ewma(obs, k + j - 1);
    assert before - owd == p * d;
    assert Ewma(obs, k + j) == 0.9 * before + 0.1 * owd;
  }

  /** After the first 19 samples of a constant delay, every sample classifies as Normal. */
  lemma {:induction false} NormalAfterNineteen(cfg: GccConfig, obs: seq<Observation>, k: nat, j: nat, owd: real)
    requires DelaysWithin(obs, 200.0) && j >= 20 && k + j <= |obs| && ConstantDelay(obs, k, owd)
    ensures var s := At(cfg, obs, k + j);
            s.prevEwma == At(cfg, obs, k + j - 1).ewma && Classify(s.ewma, s.prevEwma) == Normal
  {
    GradientShrinks(obs, k, j, owd);
    SmoothingIgnoresDecisions(cfg, obs, k + j - 1);
    SmoothingIgnoresDecisions(cfg, obs, k + j);
  }

  lemma {:induction false} ProductBound(p: real, d: real)
    requires 0.0 <= p < 0.15 && -200.0 <= d <= 200.0
    ensures -30.0 <= p * d <= 30.0
  {
    assert p * d <= p * 200.0;
    assert p * d >= p * -200.0;
  }

  lemma {:induction false} NormalHolds(cfg: GccConfig, s: State, o: Observation)
    requires !Panics(cfg, o) && !s.inFastStart && cfg.minBps <= s.target <= cfg.maxBps
    requires Classify(Observe(cfg, s, o).ewma, s.ewma) == Normal
    ensures Observe(cfg, s, o).target == s.target
  {
  }

  lemma {:induction false} TargetHolds(cfg: GccConfig, obs: seq<Observation>, n: nat)
    requires n < |obs| && !Panics(cfg, obs[n])
    requires var s := At(cfg, obs, n); !s.inFastStart && cfg.minBps <= s.target <= cfg.maxBps
    requires Classify(At(cfg, obs, n + 1).ewma, At(cfg, obs, n + 1).prevEwma) == Normal
    ensures At(cfg, obs, n + 1).target == At(cfg, obs, n).target
  {
    NormalHolds(cfg, At(cfg, obs, n), obs[n]);
  }

  lemma {:induction false} SettledStep(cfg: GccConfig, obs: seq<Observation>, k: nat, j: nat, owd: real)
    requires cfg.Valid() && DelaysWithin(obs, 200.0) && j >= 20 && k + j <= |obs| && ConstantDelay(obs, k, owd)
    requires !Panics(cfg, obs[k + j - 1]) && !At(cfg, obs, k + j - 1).inFastStart
    ensures At(cfg, obs, k + j).target == At(cfg, obs, k + j - 1).target
  {
    NormalAfterNineteen(cfg, obs, k, j, owd);
    TargetStaysInRange(cfg, obs, k + j - 1);
    TargetHolds(cfg, obs, k + j - 1);
  }

  /**
   A constant delay with tolerable loss settles the bitrate: outside fast start it is the same forever after 19
   samples.
   */
  lemma {:induction false} BitrateSettles(cfg: GccConfig, obs: seq<Observation>, k: nat, j: nat, owd: real)
    requires cfg.Valid() && DelaysWithin(obs, 200.0) && j >= 19 && k + j <= |obs| && ConstantDelay(obs, k, owd)
    requires forall i :: k <= i < |obs| ==> !Panics(cfg, obs[i])
    requires !At(cfg, obs, k + 19).inFastStart
    ensures At(cfg, obs, k + j).target == At(cfg, obs, k + 19).target
  {
    if j > 19 {
      BitrateSettles(cfg, obs, k, j - 1, owd);
      FastStartNeverReturns(cfg, obs, k + 19, k + j - 1);
      SettledStep(cfg, obs, k, j, owd);
    }
  }

  /** Seventy-three samples at the top of the range, then silence. */
  function Cliff(): seq<Observation> {
    seq(92, i requires 0 <= i < 92 => Observation(if i < 73 then 200.0 else 0.0, 0, i))
  }

  lemma {:induction false} RampUp(k: nat)
    requires k <= 73
    ensures Ewma(Cliff(), k) == 200.0 - 200.0 * Pow(0.9, k)
  {
    if k > 0 {
      RampUp(k - 1);
    }
  }

  /** Nineteen is the best bound: a reachable session still reads Underuse at the 19th constant sample. */
  lemma {:induction false} NineteenIsTight(cfg: GccConfig)
    ensures DelaysWithin(Cliff(), 200.0) && ConstantDelay(Cliff(), 73, 0.0)
    ensures var s := At(cfg, Cliff(), 73 + 19);
            Classify(s.ewma, s.prevEwma) == Underuse
  {
    CliffEdge();
    SmoothingIgnoresDecisions(cfg, Cliff(), 92);
    StillFalling(Ewma(Cliff(), 91), Ewma(Cliff(), 92));
  }

  lemma {:induction false} CliffEdge()
    ensures Ewma(Cliff(), 91) > 30.0 && Ewma(Cliff(), 92) == 0.9 * Ewma(Cliff(), 91)
  {
    RampUp(73);
    EwmaClosedForm(Cliff(), 73, 18, 0.0);
    PowAroundThreshold(19);
    PowIsTiny();
    ProductAbove(Pow(0.9, 18), Ewma(Cliff(), 73));
    assert Cliff()[91].owd == 0.0;
  }

  lemma {:induction false} StillFalling(before: real, after: real)
    requires before > 30.0 && after == 0.9 * before
    ensures Classify(after, before) == Underuse
  {
  }

  lemma {:induction false} ProductAbove(p: real, e: real)
    requires p > 0.15009 && e > 199.9
    ensures p * e > 30.0
  {
    assert p * e > 0.15009 * e;
  }

  lemma {:induction false} PowIsTiny()
    ensures Pow(0.9, 73) < 0.0005
  {
    assert Pow(0.9, 4) < 0.6562;
    PowAdd(0.9, 4, 4);
    PowInUnit(4);
    Squares(8);
    Squares(16);
    Squares(32);
    PowAdd(0.9, 64, 8);
    PowAdd(0.9, 1, 72);
  }

  lemma {:induction false} Squares(k: nat)
    ensures Pow(0.9, k + k) == Pow(0.9, k) * Pow(0.9, k) && Pow(0.9, k) > 0.0
  {
    PowAdd(0.9, k, k);
    PowInUnit(k);
  }
}
