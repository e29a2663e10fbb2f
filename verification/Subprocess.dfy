/**
 The lifecycle of a managed subprocess: wait, report, count the exits inside a sliding window, back
 off, respawn.  The child, the scheduler and the operator are adversaries: a `Round` says how long
 the child lived, how it ended, how late the next step ran and whether the respawn worked.
 */
module Subprocess {
  import opened Arithmetic
  import opened Wrappers

  /** `restartWindow` is in nanoseconds. */
  datatype Config = Config(maxRestarts: nat, restartWindow: nat)

  datatype Reason = ExitedSuccessfully | ExitedWithCode(code: int) | TerminatedBySignal

  datatype Event =
    | Spawned(pid: nat)
    | Exited(code: Option<int>, reason: Reason)
    | Restarting(attempt: nat, backoffMs: nat)
    | GiveUp(lastCode: Option<int>, lastReason: Reason)
    | Stopped

  /** What the world does while one child is being waited for. */
  datatype Round =
    | StopRequested
    | ChildExit(uptime: nat, code: Option<int>, lag: nat, respawn: Option<nat>)

  datatype Ending = StoppedByOperator | GaveUp | RespawnFailed

  /** A lifecycle so far; `exits` is the full history of exit times, which the program does not keep. */
  datatype Life = Life(child: Option<nat>, currentPid: nat, history: seq<nat>, events: seq<Event>,
                       clock: nat, ended: Option<Ending>, exits: seq<nat>)

  function ReasonFor(code: Option<int>): Reason {
    match code
    case Some(c) => if c == 0 then ExitedSuccessfully else ExitedWithCode(c)
    case None => TerminatedBySignal
  }

  function Pow2(n: nat): nat { if n == 0 then 1 else 2 * Pow2(n - 1) }

  /** `u64` left shift: the shift count is taken modulo 64 and high bits are lost. */
  function Shl64(v: nat, s: nat): nat { v * Pow2(s % 64) % U64 }

  function BackoffMs(attempt: nat): nat {
    Min(Shl64(1000, if attempt == 0 then 0 else attempt - 1), 30_000)
  }

  /**
   Milliseconds to wait before each attempt.  The program's schedule is `BackoffMs`; the window and the trace do not
   depend on it.
   */
  type Schedule = nat -> nat

  const NANOS_PER_MS: nat := 1_000_000

  function Pruned(history: seq<nat>, now: nat, window: nat): seq<nat> {
    if history != [] && SaturatingSub(now, history[0]) > window then Pruned(history[1..], now, window) else history
  }

  function Begin(pid: nat): Life {
    Life(Some(pid), pid, [], [Spawned(pid)], 0, None, [])
  }

  function Step(cfg: Config, backoff: Schedule, s: Life, r: Round): Life {
    match r
    case StopRequested =>
      s.(child := None, events := s.events + [Stopped], ended := Some(StoppedByOperator))
    case ChildExit(uptime, code, lag, respawn) =>
      var now := s.clock + uptime;
      var reason := ReasonFor(code);
      var history := Pruned(s.history, now, cfg.restartWindow) + [now];
      var attempt := |history|;
      var exited := s.(child := None, currentPid := 0, history := history, clock := now, exits := s.exits + [now]);
      if attempt > cfg.maxRestarts then
        exited.(events := s.events + [Exited(code, reason), GiveUp(code, reason)], ended := Some(GaveUp))
      else
        var wait := backoff(attempt);
        var waited := exited.(events := s.events + [Exited(code, reason), Restarting(attempt, wait)],
                              clock := now + wait * NANOS_PER_MS + lag);
        match respawn
        case Some(pid) => waited.(child := Some(pid), currentPid := pid, events := waited.events + [Spawned(pid)])
        case None => waited.(ended := Some(RespawnFailed))
  }

  /** The lifecycle after `k` rounds; a lifecycle that has ended ignores the rest. */
  function LifeAt(cfg: Config, backoff: Schedule, pid: nat, rounds: seq<Round>, k: nat): Life
    requires k <= |rounds|
  {
    if k == 0 then Begin(pid)
    else
      var s := LifeAt(cfg, backoff, pid, rounds, k - 1);
      if s.ended.Some? then s else Step(cfg, backoff, s, rounds[k - 1])
  }

  class ManagedSubprocess {
    const config: Config
    var child: Option<nat>
    var currentPid: nat
    var restartHistory: seq<nat>
    var events: seq<Event>
    /** The time of the world, in nanoseconds since the first spawn. */
    var clock: nat
    ghost var exits: seq<nat>

    ghost predicate Is(s: Life)
      reads this
    {
      child == s.child && currentPid == s.currentPid && restartHistory == s.history && events == s.events
      && clock == s.clock && exits == s.exits
    }

    constructor (config: Config, pid: nat)
      ensures this.config == config && Is(Begin(pid))
    {
      this.config := config;
      child := Some(pid);
      currentPid := pid;
      restartHistory := [];
      events := [Spawned(pid)];
      clock := 0;
      exits := [];
    }

    /** Drops the exits that have left the window, records the one at `clock`, and counts what is left. */
    method RecordExit() returns (attempt: nat)
      modifies `restartHistory, `exits
      ensures restartHistory == Pruned(old(restartHistory), clock, config.restartWindow) + [clock]
      ensures attempt == |restartHistory| && exits == old(exits) + [clock]
    {
      while restartHistory != [] && SaturatingSub(clock, restartHistory[0]) > config.restartWindow
        invariant Pruned(restartHistory, clock, config.restartWindow)
                  == Pruned(old(restartHistory), clock, config.restartWindow)
        invariant exits == old(exits)
        decreases |restartHistory|
      {
        restartHistory := restartHistory[1..];
      }
      restartHistory := restartHistory + [clock];
      exits := exits + [clock];
      attempt := |restartHistory|;
    }

    /** One turn of the driving loop: wait for the child or a stop signal, then restart or give up. */
    method Turn(r: Round, ghost s: Life) returns (over: bool)
      requires Is(s) && s.ended.None?
      modifies this
      ensures Is(Step(config, BackoffMs, s, r))
      ensures over <==> Step(config, BackoffMs, s, r).ended.Some?
    {
      match r {
        case StopRequested =>
          child := None;
          events := events + [Stopped];
          return true;
        case ChildExit(uptime, code, lag, respawn) =>
          clock := clock + uptime;
          child := None;
          currentPid := 0;
          var reason := ReasonFor(code);
          events := events + [Exited(code, reason)];
          var attempt := RecordExit();
          if attempt > config.maxRestarts {
            events := events + [GiveUp(code, reason)];
            assert events == s.events + [Exited(code, reason), GiveUp(code, reason)];
            return true;
          }
          var backoff := BackoffMs(attempt);
          events := events + [Restarting(attempt, backoff)];
          assert events == s.events + [Exited(code, reason), Restarting(attempt, backoff)];
          clock := clock + backoff * NANOS_PER_MS + lag;
          if respawn.None? {
            return true;
          }
          currentPid := respawn.value;
          child := respawn;
          events := events + [Spawned(respawn.value)];
          return false;
      }
    }

    /** The driving loop, against any sequence of rounds. */
    method RunToCompletion(ghost pid: nat, rounds: seq<Round>)
      requires Is(Begin(pid))
      modifies this
      ensures Is(LifeAt(config, BackoffMs, pid, rounds, |rounds|))
    {
      ghost var s := Begin(pid);
      for k := 0 to |rounds|
        invariant Is(s) && s.ended.None? && s == LifeAt(config, BackoffMs, pid, rounds, k)
      {
        NextLife(config, BackoffMs, pid, rounds, k);
        var over := Turn(rounds[k], s);
        s := Step(config, BackoffMs, s, rounds[k]);
        if over {
          EndedStays(config, BackoffMs, pid, rounds, k + 1, |rounds|);
          return;
        }
      }
    }
  }

  /** Unless it has ended, the next life is one step from this one. */
  lemma {:induction false} NextLife(cfg: Config, backoff: Schedule, pid: nat, rounds: seq<Round>, k: nat)
    requires k < |rounds|
    ensures var s := LifeAt(cfg, backoff, pid, rounds, k);
            LifeAt(cfg, backoff, pid, rounds, k + 1) == if s.ended.Some? then s else Step(cfg, backoff, s, rounds[k])
  {
  }

  lemma {:induction false} EndedStays(cfg: Config, backoff: Schedule, pid: nat, rounds: seq<Round>, i: nat, k: nat)
    requires i <= k <= |rounds| && LifeAt(cfg, backoff, pid, rounds, i).ended.Some?
    ensures LifeAt(cfg, backoff, pid, rounds, k) == LifeAt(cfg, backoff, pid, rounds, i)
  {
    if i < k {
      EndedStays(cfg, backoff, pid, rounds, i, k - 1);
      NextLife(cfg, backoff, pid, rounds, k - 1);
    }
  }

  // ---- The sliding window ---------------------------------------------------------------------

  /** How many of the exits lie no further than `window` before `now`. */
  function Recent(exits: seq<nat>, now: nat, window: nat): nat {
    if exits == [] then 0
    else Recent(exits[1..], now, window) + (if SaturatingSub(now, exits[0]) <= window then 1 else 0)
  }

  ghost predicate Sorted(s: seq<nat>) {
    forall i, j :: 0 <= i < j < |s| ==> s[i] <= s[j]
  }

  lemma {:induction false} RecentAppend(exits: seq<nat>, x: nat, now: nat, window: nat)
    ensures Recent(exits + [x], now, window) == Recent(exits, now, window) + if now - x <= window then 1 else 0
  {
    if exits == [] {
      assert [x][1..] == [];
    } else {
      assert (exits + [x])[1..] == exits[1..] + [x];
      RecentAppend(exits[1..], x, now, window);
    }
  }

  /** It is the number of positions whose exit is that recent. */
  lemma {:induction false} RecentCounts(exits: seq<nat>, now: nat, window: nat)
    ensures Recent(exits, now, window) == |set i | 0 <= i < |exits| && now - exits[i] <= window|
  {
    if exits != [] {
      var n := |exits| - 1;
      RecentCounts(exits[..n], now, window);
      RecentAppend(exits[..n], exits[n], now, window);
      assert exits == exits[..n] + [exits[n]];
      var before := set i | 0 <= i < |exits[..n]| && now - exits[..n][i] <= window;
      var recent := set i | 0 <= i < |exits| && now - exits[i] <= window;
      assert recent == before + if now - exits[n] <= window then {n} else {};
    }
  }

  lemma {:induction false} RecentOfRecent(exits: seq<nat>, now: nat, window: nat)
    requires forall i :: 0 <= i < |exits| ==> SaturatingSub(now, exits[i]) <= window
    ensures Recent(exits, now, window) == |exits|
  {
    if exits != [] {
      RecentOfRecent(exits[1..], now, window);
    }
  }

  /** Pruning a sorted history from the front is counting the recent entries, whatever was pruned before. */
  lemma {:induction false} PrunedCountsRecent(exits: seq<nat>, now: nat, window: nat)
    requires Sorted(exits)
    ensures |Pruned(exits, now, window)| == Recent(exits, now, window)
  {
    if exits == [] {
    } else if SaturatingSub(now, exits[0]) > window {
      PrunedCountsRecent(exits[1..], now, window);
    } else {
      RecentOfRecent(exits, now, window);
    }
  }

  /** Pruning for an earlier time first loses nothing that pruning for a later time would keep. */
  lemma {:induction false} PruneTwice(exits: seq<nat>, earlier: nat, now: nat, window: nat)
    requires earlier <= now
    ensures Pruned(Pruned(exits, earlier, window), now, window) == Pruned(exits, now, window)
  {
    if exits != [] && SaturatingSub(earlier, exits[0]) > window {
      PruneTwice(exits[1..], earlier, now, window);
    }
  }

  lemma {:induction false} PrunedAppend(exits: seq<nat>, now: nat, window: nat)
    ensures Pruned(exits + [now], now, window) == Pruned(exits, now, window) + [now]
  {
    if exits != [] && SaturatingSub(now, exits[0]) > window {
      assert (exits + [now])[1..] == exits[1..] + [now];
      PrunedAppend(exits[1..], now, window);
    }
  }

  /** The deque is the full history of exits, pruned for the time of the last one. */
  ghost predicate WindowInv(cfg: Config, s: Life) {
    && Sorted(s.exits) && (forall i :: 0 <= i < |s.exits| ==> s.exits[i] <= s.clock)
    && s.history == if s.exits == [] then [] else Pruned(s.exits, s.exits[|s.exits| - 1], cfg.restartWindow)
  }

  lemma {:induction false} PruneOnExit(cfg: Config, s: Life, now: nat)
    requires WindowInv(cfg, s) && now >= s.clock
    ensures var exits := s.exits + [now];
            && Sorted(exits)
            && Pruned(s.history, now, cfg.restartWindow) + [now] == Pruned(exits, now, cfg.restartWindow)
            && |Pruned(exits, now, cfg.restartWindow)| == Recent(exits, now, cfg.restartWindow) >= 1
  {
    PrunedAppend(s.exits, now, cfg.restartWindow);
    if s.exits != [] {
      PruneTwice(s.exits, s.exits[|s.exits| - 1], now, cfg.restartWindow);
    }
    PrunedCountsRecent(s.exits + [now], now, cfg.restartWindow);
  }

  /** An exit of `s` at round `r` is judged by the number of exits of the whole lifecycle inside the window. */
  ghost predicate WindowDecides(cfg: Config, backoff: Schedule, s: Life, s': Life, r: Round)
    requires r.ChildExit?
  {
    var now := s.clock + r.uptime;
    var attempt := Recent(s.exits + [now], now, cfg.restartWindow);
    && s'.exits == s.exits + [now]
    && |s'.history| == attempt >= 1
    && (s'.ended == Some(GaveUp) <==> attempt > cfg.maxRestarts)
    && (attempt <= cfg.maxRestarts ==>
          && s'.clock == now + backoff(attempt) * NANOS_PER_MS + r.lag
          && s.events + [Exited(r.code, ReasonFor(r.code)), Restarting(attempt, backoff(attempt))] <= s'.events
          && (s'.ended == None <==> r.respawn.Some?))
  }

  /** What an exit does to a lifecycle, as far as the deque itself tells. */
  ghost predicate ExitShape(cfg: Config, backoff: Schedule, s: Life, s': Life, r: Round)
    requires r.ChildExit?
  {
    var now := s.clock + r.uptime;
    var attempt := |s'.history|;
    && s'.exits == s.exits + [now] && s'.clock >= now
    && s'.history == Pruned(s.history, now, cfg.restartWindow) + [now]
    && (s'.ended == Some(GaveUp) <==> attempt > cfg.maxRestarts)
    && (attempt <= cfg.maxRestarts ==>
          && s'.clock == now + backoff(attempt) * NANOS_PER_MS + r.lag
          && s.events + [Exited(r.code, ReasonFor(r.code)), Restarting(attempt, backoff(attempt))] <= s'.events
          && (s'.ended == None <==> r.respawn.Some?))
  }

  lemma {:induction false} StepExits(cfg: Config, backoff: Schedule, s: Life, r: Round)
    requires s.ended.None? && r.ChildExit?
    ensures ExitShape(cfg, backoff, s, Step(cfg, backoff, s, r), r)
  {
  }

  /** An exit at `now` that is recorded in the history of exits and in the deque keeps the two together. */
  lemma {:induction false} RecordedExit(cfg: Config, s: Life, s': Life, now: nat)
    requires WindowInv(cfg, s) && s.clock <= now <= s'.clock && s'.exits == s.exits + [now]
    requires s'.history == Pruned(s.history, now, cfg.restartWindow) + [now]
    ensures s'.history == Pruned(s'.exits, now, cfg.restartWindow)
    ensures Sorted(s'.exits) && |s'.history| == Recent(s'.exits, now, cfg.restartWindow) >= 1
  {
    PruneOnExit(cfg, s, now);
  }

  lemma {:induction false} ShapeKeepsWindow(cfg: Config, backoff: Schedule, s: Life, s': Life, r: Round)
    requires WindowInv(cfg, s) && r.ChildExit? && ExitShape(cfg, backoff, s, s', r)
    ensures WindowInv(cfg, s')
    ensures |s'.history| == Recent(s'.exits, s.clock + r.uptime, cfg.restartWindow) >= 1
  {
    RecordedExit(cfg, s, s', s.clock + r.uptime);
    assert s'.exits[|s'.exits| - 1] == s.clock + r.uptime;
  }

  lemma {:induction false} ShapeCountsWindow(cfg: Config, backoff: Schedule, s: Life, s': Life, r: Round)
    requires WindowInv(cfg, s) && r.ChildExit? && ExitShape(cfg, backoff, s, s', r)
    ensures WindowInv(cfg, s') && WindowDecides(cfg, backoff, s, s', r)
  {
    ShapeKeepsWindow(cfg, backoff, s, s', r);
  }

  lemma {:induction false} ExitCountsWindow(cfg: Config, backoff: Schedule, s: Life, r: Round)
    requires WindowInv(cfg, s) && s.ended.None? && r.ChildExit?
    ensures WindowInv(cfg, Step(cfg, backoff, s, r)) && WindowDecides(cfg, backoff, s, Step(cfg, backoff, s, r), r)
  {
    StepExits(cfg, backoff, s, r);
    ShapeCountsWindow(cfg, backoff, s, Step(cfg, backoff, s, r), r);
  }

  lemma {:induction false} StepKeepsWindow(cfg: Config, backoff: Schedule, s: Life, r: Round)
    requires WindowInv(cfg, s)
    ensures s.ended.None? ==> WindowInv(cfg, Step(cfg, backoff, s, r))
  {
    if s.ended.None? && r.ChildExit? {
      ExitCountsWindow(cfg, backoff, s, r);
    }
  }

  lemma {:induction false} WindowInvHolds(cfg: Config, backoff: Schedule, pid: nat, rounds: seq<Round>, k: nat)
    requires k <= |rounds|
    ensures WindowInv(cfg, LifeAt(cfg, backoff, pid, rounds, k))
  {
    if k > 0 {
      WindowInvHolds(cfg, backoff, pid, rounds, k - 1);
      NextLife(cfg, backoff, pid, rounds, k - 1);
      StepKeepsWindow(cfg, backoff, LifeAt(cfg, backoff, pid, rounds, k - 1), rounds[k - 1]);
    }
  }

  /**
   Over any run: the attempt counted from the pruned deque is the number of exits of the full history inside the
   window.
   */
  lemma {:induction false} AttemptIsWindowCount(cfg: Config, backoff: Schedule, pid: nat, rounds: seq<Round>, k: nat)
    requires k < |rounds| && LifeAt(cfg, backoff, pid, rounds, k).ended.None? && rounds[k].ChildExit?
    ensures WindowDecides(cfg, backoff, LifeAt(cfg, backoff, pid, rounds, k),
                          LifeAt(cfg, backoff, pid, rounds, k + 1), rounds[k])
  {
    WindowInvHolds(cfg, backoff, pid, rounds, k);
    ExitCountsWindow(cfg, backoff, LifeAt(cfg, backoff, pid, rounds, k), rounds[k]);
  }

  /** What one round means to the window, whatever else the lifecycle does. */
  ghost predicate WindowRound(cfg: Config, backoff: Schedule, s: Life, r: Round, s': Life) {
    if s.ended.Some? then s' == s
    else if r.StopRequested? then s'.exits == s.exits && s'.history == s.history && s'.ended == Some(StoppedByOperator)
    else WindowDecides(cfg, backoff, s, s', r) && Sorted(s'.exits)
  }

  /** The successive states of one lifecycle, as far as the window is concerned. */
  ghost predicate WindowRun(cfg: Config, backoff: Schedule, rounds: seq<Round>, lives: seq<Life>) {
    && |lives| == |rounds| + 1 && lives[0].ended.None? && lives[0].exits == []
    && forall k :: 0 <= k < |rounds| ==> RoundAt(cfg, backoff, rounds, lives, k)
  }

  ghost predicate RoundAt(cfg: Config, backoff: Schedule, rounds: seq<Round>, lives: seq<Life>, k: nat)
    requires k < |rounds| < |lives|
  {
    WindowRound(cfg, backoff, lives[k], rounds[k], lives[k + 1])
  }

  /** The `k`-th round of such a run. */
  lemma {:induction false} RoundOf(cfg: Config, backoff: Schedule, rounds: seq<Round>, lives: seq<Life>, k: nat)
    requires WindowRun(cfg, backoff, rounds, lives) && k < |rounds|
    ensures WindowRound(cfg, backoff, lives[k], rounds[k], lives[k + 1])
  {
    assert RoundAt(cfg, backoff, rounds, lives, k);
  }

  lemma {:induction false} RoundCountsWindow(cfg: Config, backoff: Schedule, pid: nat, rounds: seq<Round>, k: nat)
    requires k < |rounds|
    ensures WindowRound(cfg, backoff, LifeAt(cfg, backoff, pid, rounds, k), rounds[k],
                        LifeAt(cfg, backoff, pid, rounds, k + 1))
  {
    if LifeAt(cfg, backoff, pid, rounds, k).ended.None? && rounds[k].ChildExit? {
      AttemptIsWindowCount(cfg, backoff, pid, rounds, k);
      WindowInvHolds(cfg, backoff, pid, rounds, k + 1);
    }
  }

  /** All the states of a lifecycle. */
  function Lives(cfg: Config, backoff: Schedule, pid: nat, rounds: seq<Round>): (lives: seq<Life>)
    ensures |lives| == |rounds| + 1
    ensures forall k :: 0 <= k <= |rounds| ==> lives[k] == LifeAt(cfg, backoff, pid, rounds, k)
  {
    seq(|rounds| + 1, k requires 0 <= k <= |rounds| => LifeAt(cfg, backoff, pid, rounds, k))
  }

  lemma {:induction false} LivesAreWindowRun(cfg: Config, backoff: Schedule, pid: nat, rounds: seq<Round>)
    ensures WindowRun(cfg, backoff, rounds, Lives(cfg, backoff, pid, rounds))
  {
    forall k | 0 <= k < |rounds|
      ensures RoundAt(cfg, backoff, rounds, Lives(cfg, backoff, pid, rounds), k)
    {
      RoundCountsWindow(cfg, backoff, pid, rounds, k);
    }
  }

  lemma {:induction false} RecentSuffix(exits: seq<nat>, a: nat, now: nat, window: nat)
    requires Sorted(exits) && a < |exits| && now >= exits[|exits| - 1] && now - exits[a] <= window
    ensures Recent(exits, now, window) >= |exits| - a
  {
    if a == 0 {
      RecentOfRecent(exits, now, window);
    } else {
      RecentSuffix(exits[1..], a - 1, now, window);
    }
  }

  ghost predicate RateLimited(cfg: Config, exits: seq<nat>) {
    forall a, b :: 0 <= a <= b < |exits| && exits[b] - exits[a] <= cfg.restartWindow ==> b - a + 1 <= cfg.maxRestarts
  }

  /** The exits that led to a restart: all of them, but for the one the lifecycle was given up at. */
  function RestartExits(s: Life): seq<nat> {
    if s.ended == Some(GaveUp) && s.exits != [] then s.exits[..|s.exits| - 1] else s.exits
  }

  lemma {:induction false} RoundKeepsRate(cfg: Config, backoff: Schedule, s: Life, r: Round, s': Life)
    requires WindowRound(cfg, backoff, s, r, s') && RateLimited(cfg, RestartExits(s))
    ensures RateLimited(cfg, RestartExits(s'))
  {
    if s.ended.None? && r.ChildExit? {
      var exits := s'.exits;
      if s'.ended == Some(GaveUp) {
        assert RestartExits(s') == s.exits;
      } else {
        forall a, b | 0 <= a <= b < |exits| && exits[b] - exits[a] <= cfg.restartWindow
          ensures b - a + 1 <= cfg.maxRestarts
        {
          if b == |exits| - 1 {
            RecentSuffix(exits, a, exits[b], cfg.restartWindow);
          }
        }
      }
    }
  }

  lemma {:induction false} RunIsRateLimited(
    cfg: Config, backoff: Schedule, rounds: seq<Round>, lives: seq<Life>, k: nat)
    requires WindowRun(cfg, backoff, rounds, lives) && k < |lives|
    ensures RateLimited(cfg, RestartExits(lives[k]))
  {
    if k > 0 {
      RunIsRateLimited(cfg, backoff, rounds, lives, k - 1);
      RoundOf(cfg, backoff, rounds, lives, k - 1);
      RoundKeepsRate(cfg, backoff, lives[k - 1], rounds[k - 1], lives[k]);
    }
  }

  /** Rate limit: no closed interval as long as the window holds more than `maxRestarts` exits that led to a restart. */
  lemma {:induction false} RestartsAreRateLimited(cfg: Config, backoff: Schedule, pid: nat, rounds: seq<Round>, k: nat)
    requires k <= |rounds|
    ensures RateLimited(cfg, RestartExits(LifeAt(cfg, backoff, pid, rounds, k)))
  {
    LivesAreWindowRun(cfg, backoff, pid, rounds);
    RunIsRateLimited(cfg, backoff, rounds, Lives(cfg, backoff, pid, rounds), k);
  }

  // ---- Crash loops and long-lived children ----------------------------------------------------

  predicate CrashLoop(rounds: seq<Round>) {
    forall i :: 0 <= i < |rounds| ==> rounds[i].ChildExit? && rounds[i].respawn.Some?
  }

  /** The time from the first exit to exit `n`: lifetimes, backoffs and scheduling delays. */
  function Spread(backoff: Schedule, rounds: seq<Round>, n: nat): nat
    requires n < |rounds| && CrashLoop(rounds)
  {
    if n == 0 then 0
    else Spread(backoff, rounds, n - 1) + backoff(n) * NANOS_PER_MS + rounds[n - 1].lag + rounds[n].uptime
  }

  lemma {:induction false} RecentAll(exits: seq<nat>, now: nat, window: nat)
    requires Sorted(exits) && exits != [] && SaturatingSub(now, exits[0]) <= window
    ensures Recent(exits, now, window) == |exits|
  {
    RecentOfRecent(exits, now, window);
  }

  lemma {:induction false} SpreadMonotone(backoff: Schedule, rounds: seq<Round>, m: nat, n: nat)
    requires m <= n < |rounds| && CrashLoop(rounds)
    ensures Spread(backoff, rounds, m) <= Spread(backoff, rounds, n)
  {
    if m < n {
      SpreadMonotone(backoff, rounds, m, n - 1);
    }
  }

  /** A crash loop after `k` rounds, none of them given up: all exits are still in the window. */
  ghost predicate Looping(backoff: Schedule, rounds: seq<Round>, s: Life, k: nat)
    requires CrashLoop(rounds) && k <= |rounds|
  {
    && s.ended.None? && |s.exits| == k
    && (k > 0 ==>
          && s.exits[k - 1] == s.exits[0] + Spread(backoff, rounds, k - 1)
          && s.clock == s.exits[k - 1] + backoff(k) * NANOS_PER_MS + rounds[k - 1].lag)
  }

  lemma {:induction false} LoopingExit(cfg: Config, backoff: Schedule, rounds: seq<Round>, s: Life, s': Life, k: nat)
    requires CrashLoop(rounds) && k < |rounds| && Looping(backoff, rounds, s, k) && Sorted(s'.exits)
    requires WindowDecides(cfg, backoff, s, s', rounds[k])
    requires Spread(backoff, rounds, k) <= cfg.restartWindow
    ensures if k < cfg.maxRestarts then Looping(backoff, rounds, s', k + 1)
            else s'.ended == Some(GaveUp) && |s'.exits| == k + 1
  {
    var exits := s'.exits;
    assert exits[k] == exits[0] + Spread(backoff, rounds, k);
    RecentAll(exits, exits[k], cfg.restartWindow);
  }

  lemma {:induction false} LoopGoesOn(cfg: Config, backoff: Schedule, rounds: seq<Round>, lives: seq<Life>, k: nat)
    requires CrashLoop(rounds) && WindowRun(cfg, backoff, rounds, lives) && k < |rounds|
    requires Looping(backoff, rounds, lives[k], k) && Spread(backoff, rounds, k) <= cfg.restartWindow
    ensures if k < cfg.maxRestarts then Looping(backoff, rounds, lives[k + 1], k + 1)
            else lives[k + 1].ended == Some(GaveUp) && |lives[k + 1].exits| == k + 1
  {
    RoundOf(cfg, backoff, rounds, lives, k);
    LoopingExit(cfg, backoff, rounds, lives[k], lives[k + 1], k);
  }

  /** As long as the spread fits the window, a crash loop goes on. */
  lemma {:induction false} CrashLoopUpTo(cfg: Config, backoff: Schedule, rounds: seq<Round>, lives: seq<Life>, k: nat)
    requires CrashLoop(rounds) && WindowRun(cfg, backoff, rounds, lives) && k <= cfg.maxRestarts < |rounds|
    requires k > 0 ==> Spread(backoff, rounds, k - 1) <= cfg.restartWindow
    ensures Looping(backoff, rounds, lives[k], k)
  {
    if k > 0 {
      if k > 1 {
        SpreadMonotone(backoff, rounds, k - 2, k - 1);
      }
      CrashLoopUpTo(cfg, backoff, rounds, lives, k - 1);
      LoopGoesOn(cfg, backoff, rounds, lives, k - 1);
    }
  }

  lemma {:induction false} RecentAtMost(exits: seq<nat>, now: nat, window: nat)
    ensures Recent(exits, now, window) <= |exits|
    ensures exits != [] && SaturatingSub(now, exits[0]) > window ==> Recent(exits, now, window) <= |exits| - 1
  {
    if exits != [] {
      RecentAtMost(exits[1..], now, window);
    }
  }

  /** A lifecycle that goes on although its first exit has left the window. */
  ghost predicate Outlived(cfg: Config, s: Life, k: nat) {
    s.ended.None? && |s.exits| == k && s.exits != [] && s.clock > s.exits[0] + cfg.restartWindow
  }

  /** The exit that takes the first one out of the window, and every later one, counts one exit too few to give up. */
  lemma {:induction false} OutlivedGoesOn(cfg: Config, backoff: Schedule, s: Life, s': Life, r: Round, k: nat)
    requires r.ChildExit? && r.respawn.Some? && WindowDecides(cfg, backoff, s, s', r)
    requires |s.exits| == k <= cfg.maxRestarts && s.exits != []
    requires s.clock + r.uptime > s.exits[0] + cfg.restartWindow
    ensures Outlived(cfg, s', k + 1)
  {
    RecentAtMost(s.exits + [s.clock + r.uptime], s.clock + r.uptime, cfg.restartWindow);
  }

  /**
   Once the spread up to exit `n` has left the window, the loop survives the rest of the first `maxRestarts + 1` exits.
   */
  lemma {:induction false} CrashLoopOutlives(
    cfg: Config, backoff: Schedule, rounds: seq<Round>, lives: seq<Life>, n: nat, k: nat)
    requires CrashLoop(rounds) && WindowRun(cfg, backoff, rounds, lives)
    requires 1 <= n < k <= cfg.maxRestarts + 1 <= |rounds|
    requires Spread(backoff, rounds, n - 1) <= cfg.restartWindow < Spread(backoff, rounds, n)
    ensures Outlived(cfg, lives[k], k)
  {
    if k - 1 == n {
      CrashLoopUpTo(cfg, backoff, rounds, lives, n);
    } else {
      CrashLoopOutlives(cfg, backoff, rounds, lives, n, k - 1);
    }
    RoundOf(cfg, backoff, rounds, lives, k - 1);
    OutlivedGoesOn(cfg, backoff, lives[k - 1], lives[k], rounds[k - 1], k - 1);
  }

  lemma {:induction false} FirstOutside(backoff: Schedule, rounds: seq<Round>, window: nat, m: nat) returns (n: nat)
    requires CrashLoop(rounds) && m < |rounds| && Spread(backoff, rounds, m) > window
    ensures 1 <= n <= m && Spread(backoff, rounds, n - 1) <= window < Spread(backoff, rounds, n)
  {
    if Spread(backoff, rounds, m - 1) <= window {
      n := m;
    } else {
      n := FirstOutside(backoff, rounds, window, m - 1);
    }
  }

  lemma {:induction false} CrashLoopSurvives(
    cfg: Config, backoff: Schedule, rounds: seq<Round>, lives: seq<Life>, n: nat, k: nat)
    requires CrashLoop(rounds) && WindowRun(cfg, backoff, rounds, lives)
    requires 1 <= n <= cfg.maxRestarts && k <= cfg.maxRestarts < |rounds|
    requires Spread(backoff, rounds, n - 1) <= cfg.restartWindow < Spread(backoff, rounds, n)
    ensures lives[k].ended.None?
  {
    if k > n {
      CrashLoopOutlives(cfg, backoff, rounds, lives, n, k);
    } else {
      if k > 0 {
        SpreadMonotone(backoff, rounds, k - 1, n - 1);
      }
      CrashLoopUpTo(cfg, backoff, rounds, lives, k);
    }
  }

  lemma {:induction false} RunGivesUp(cfg: Config, backoff: Schedule, rounds: seq<Round>, lives: seq<Life>)
    requires CrashLoop(rounds) && WindowRun(cfg, backoff, rounds, lives) && cfg.maxRestarts < |rounds|
    ensures forall k :: 0 <= k <= cfg.maxRestarts ==> lives[k].ended.None?
    ensures |lives[cfg.maxRestarts + 1].exits| == cfg.maxRestarts + 1
    ensures lives[cfg.maxRestarts + 1].ended == Some(GaveUp)
            <==> Spread(backoff, rounds, cfg.maxRestarts) <= cfg.restartWindow
  {
    var m := cfg.maxRestarts;
    if Spread(backoff, rounds, m) <= cfg.restartWindow {
      forall k | 0 <= k <= m
        ensures Looping(backoff, rounds, lives[k], k)
      {
        if k > 0 {
          SpreadMonotone(backoff, rounds, k - 1, m);
        }
        CrashLoopUpTo(cfg, backoff, rounds, lives, k);
      }
      LoopGoesOn(cfg, backoff, rounds, lives, m);
    } else {
      var n := FirstOutside(backoff, rounds, cfg.restartWindow, m);
      forall k | 0 <= k <= m
        ensures lives[k].ended.None?
      {
        CrashLoopSurvives(cfg, backoff, rounds, lives, n, k);
      }
      CrashLoopOutlives(cfg, backoff, rounds, lives, n, m + 1);
    }
  }

  /**
   A crash loop is given up at the exit after `maxRestarts` restarts, and not before, exactly when that many exits fit
   the window.
   */
  lemma {:induction false} CrashLoopGivesUp(cfg: Config, backoff: Schedule, pid: nat, rounds: seq<Round>)
    requires CrashLoop(rounds) && cfg.maxRestarts < |rounds|
    ensures forall k :: 0 <= k <= cfg.maxRestarts ==> LifeAt(cfg, backoff, pid, rounds, k).ended.None?
    ensures |LifeAt(cfg, backoff, pid, rounds, cfg.maxRestarts + 1).exits| == cfg.maxRestarts + 1
    ensures LifeAt(cfg, backoff, pid, rounds, cfg.maxRestarts + 1).ended == Some(GaveUp)
            <==> Spread(backoff, rounds, cfg.maxRestarts) <= cfg.restartWindow
  {
    LivesAreWindowRun(cfg, backoff, pid, rounds);
    RunGivesUp(cfg, backoff, rounds, Lives(cfg, backoff, pid, rounds));
  }

  lemma {:induction false} RecentNone(exits: seq<nat>, now: nat, window: nat)
    requires forall i :: 0 <= i < |exits| ==> SaturatingSub(now, exits[i]) > window
    ensures Recent(exits + [now], now, window) == 1
  {
    if exits == [] {
      assert Recent([now][1..], now, window) == 0;
    } else {
      assert (exits + [now])[1..] == exits[1..] + [now];
      RecentNone(exits[1..], now, window);
    }
  }

  lemma {:induction false} RunOutlasts(cfg: Config, backoff: Schedule, rounds: seq<Round>, lives: seq<Life>, k: nat)
    requires WindowRun(cfg, backoff, rounds, lives) && 1 <= k < |lives| && rounds[0].ChildExit?
    requires forall i :: 0 <= i < |rounds| ==> rounds[i].ChildExit? ==> rounds[i].uptime > cfg.restartWindow
    requires forall i, j :: 0 <= i < |lives| && 0 <= j < |lives[i].exits| ==> lives[i].exits[j] <= lives[i].clock
    ensures lives[k].ended != Some(GaveUp) <==> cfg.maxRestarts >= 1
    ensures |lives[k].history| == 1
  {
    if k > 1 {
      RunOutlasts(cfg, backoff, rounds, lives, k - 1);
    }
    var s, r := lives[k - 1], rounds[k - 1];
    RoundOf(cfg, backoff, rounds, lives, k - 1);
    if s.ended.None? && r.ChildExit? {
      RecentNone(s.exits, s.clock + r.uptime, cfg.restartWindow);
    }
  }

  /** Children that each outlive the window are restarted forever exactly when restarts are allowed at all. */
  lemma {:induction false} LongLivedNeverGivesUp(cfg: Config, backoff: Schedule, pid: nat, rounds: seq<Round>, k: nat)
    requires forall i :: 0 <= i < |rounds| ==> rounds[i].ChildExit? ==> rounds[i].uptime > cfg.restartWindow
    requires 1 <= k <= |rounds| && rounds[0].ChildExit?
    ensures LifeAt(cfg, backoff, pid, rounds, k).ended != Some(GaveUp) <==> cfg.maxRestarts >= 1
    ensures |LifeAt(cfg, backoff, pid, rounds, k).history| == 1
  {
    LivesAreWindowRun(cfg, backoff, pid, rounds);
    var lives := Lives(cfg, backoff, pid, rounds);
    forall i | 0 <= i < |lives|
      ensures forall j :: 0 <= j < |lives[i].exits| ==> lives[i].exits[j] <= lives[i].clock
    {
      WindowInvHolds(cfg, backoff, pid, rounds, i);
    }
    RunOutlasts(cfg, backoff, rounds, lives, k);
  }

  // ---- Backoff --------------------------------------------------------------------------------

  lemma {:induction false} Pow2Add(a: nat, b: nat)
    ensures Pow2(a + b) == Pow2(a) * Pow2(b)
  {
    if a > 0 {
      Pow2Add(a - 1, b);
    }
  }

  lemma {:induction false} Pow2Monotone(a: nat, b: nat)
    requires a <= b
    ensures 1 <= Pow2(a) <= Pow2(b)
  {
    if b > 0 {
      Pow2Monotone(if a == b then a - 1 else a, b - 1);
    }
  }

  lemma {:induction false} Pow2At54(n: nat)
    requires n == 54
    ensures Pow2(n) == 0x40_0000_0000_0000
  {
    assert Pow2(6) == 0x40;
    Pow2Add(6, 6);
    Pow2Add(12, 12);
    Pow2Add(24, 24);
    Pow2Add(48, 6);
  }

  lemma {:induction false} Pow2Above54(n: nat, j: nat)
    requires n == 54
    ensures Pow2(n + j) == 0x40_0000_0000_0000 * Pow2(j)
  {
    Pow2At54(n);
    Pow2Add(n, j);
  }

  lemma {:induction false} Pow2UpTo54(n: nat, s: nat)
    requires s <= n == 54
    ensures Pow2(s) <= 0x40_0000_0000_0000
  {
    Pow2At54(n);
    Pow2Monotone(s, n);
  }

  lemma {:induction false} Pow2Small(j: nat)
    requires 1 <= j <= 9
    ensures Pow2(j) == [2, 4, 8, 16, 32, 64, 128, 256, 512][j - 1]
  {
    if j > 1 {
      Pow2Small(j - 1);
    }
  }

  /** Shifts that lose bits: up to 60 a large number is left, beyond that nothing. */
  lemma {:induction false} LossyShift(s: nat)
    requires 55 <= s <= 63
    ensures s <= 60 ==> Shl64(1000, s) >= 30_000
    ensures s > 60 ==> Shl64(1000, s) == 0
  {
    var p := Pow2(s - 54);
    Pow2Above54(54, s - 54);
    ShiftedBy(s, 0x40_0000_0000_0000 * p);
    Pow2Small(s - 54);
    LossyProduct(p);
  }

  lemma {:induction false} ShiftedBy(s: nat, p: nat)
    requires s < 64 && Pow2(s) == p
    ensures Shl64(1000, s) == 1000 * p % U64
  {
  }

  lemma {:induction false} LossyProduct(p: nat)
    requires p in {2, 4, 8, 16, 32, 64, 128, 256, 512}
    ensures 1000 * (0x40_0000_0000_0000 * p) % U64 >= 30_000 || p in {128, 256, 512}
    ensures p in {128, 256, 512} ==> 1000 * (0x40_0000_0000_0000 * p) % U64 == 0
  {
  }

  lemma {:induction false} NoBitsLost(v: nat)
    requires v < U64
    ensures v % U64 == v
  {
  }

  lemma {:induction false} LosslessShift(s: nat)
    requires s <= 54
    ensures Shl64(1000, s) == 1000 * Pow2(s)
  {
    Pow2UpTo54(54, s);
    NoBitsLost(1000 * Pow2(s));
  }

  /** Thirty-two seconds are reached at the sixth attempt. */
  lemma {:induction false} CapReachedIff(s: nat)
    ensures 1000 * Pow2(s) >= 30_000 <==> s >= 5
  {
    if s >= 5 {
      Pow2Monotone(5, s);
      assert Pow2(5) == 32;
    } else {
      Pow2Monotone(s, 4);
      assert Pow2(4) == 16;
    }
  }

  lemma {:induction false} BackoffUnlessLost(attempt: nat)
    requires 1 <= attempt <= 61
    ensures BackoffMs(attempt) == Min(1000 * Pow2(attempt - 1), 30_000)
  {
    var s := attempt - 1;
    if s <= 54 {
      LosslessShift(s);
    } else {
      LossyShift(s);
      CapReachedIff(s);
    }
  }

  lemma {:induction false} ModTwice(n: nat)
    ensures n % 64 % 64 == n % 64
  {
  }

  lemma {:induction false} BackoffPeriodic(attempt: nat)
    requires attempt >= 1
    ensures BackoffMs(attempt) == BackoffMs((attempt - 1) % 64 + 1)
  {
    ModTwice(attempt - 1);
  }

  lemma {:induction false} CappedIff(s: nat)
    requires s <= 63
    ensures BackoffMs(s + 1) == 30_000 <==> 5 <= s <= 60
  {
    CapReachedIff(s);
    if s <= 60 {
      BackoffUnlessLost(s + 1);
    } else {
      LossyShift(s);
    }
  }

  /**
   The backoff is the capped doubling it was meant to be exactly up to the 61st attempt, and later where shift and
   doubling are both capped.
   */
  lemma {:induction false} BackoffDoubles(attempt: nat)
    requires attempt >= 1
    ensures BackoffMs(attempt) == Min(1000 * Pow2(attempt - 1), 30_000)
            <==> attempt <= 61 || 5 <= (attempt - 1) % 64 <= 60
  {
    if attempt <= 61 {
      BackoffUnlessLost(attempt);
    } else {
      CapReachedIff(attempt - 1);
      BackoffPeriodic(attempt);
      CappedIff((attempt - 1) % 64);
    }
  }

  /** The backoff stays within one and thirty seconds exactly while the shift has not lost every bit of 1000. */
  lemma {:induction false} BackoffInRangeIff(attempt: nat)
    requires attempt >= 1
    ensures 1000 <= BackoffMs(attempt) <= 30_000 <==> (attempt - 1) % 64 <= 60
    ensures (attempt - 1) % 64 > 60 ==> BackoffMs(attempt) == 0
  {
    var s := (attempt - 1) % 64;
    BackoffPeriodic(attempt);
    if s <= 60 {
      BackoffUnlessLost(s + 1);
      Pow2Monotone(0, s);
    } else {
      LossyShift(s);
    }
  }

  // ---- The event trace ------------------------------------------------------------------------

  /**
   Spawned (Exited Restarting Spawned)*, with Stopped for an Exited or GiveUp for a Restarting as the last event only.
   */
  ghost predicate WellFormedTrace(events: seq<Event>) {
    && events != []
    && forall i :: 0 <= i < |events| ==>
         match events[i]
         case Spawned(_) => i % 3 == 0
         case Exited(_, _) => i % 3 == 1
         case Stopped => i % 3 == 1 && i == |events| - 1
         case Restarting(_, _) => i % 3 == 2
         case GiveUp(_, _) => i % 3 == 2 && i == |events| - 1
  }

  function SpawnedCount(events: seq<Event>): nat {
    if events == [] then 0
    else SpawnedCount(events[..|events| - 1]) + (if events[|events| - 1].Spawned? then 1 else 0)
  }

  function ExitedCount(events: seq<Event>): nat {
    if events == [] then 0
    else ExitedCount(events[..|events| - 1]) + (if events[|events| - 1].Exited? then 1 else 0)
  }

  lemma {:induction false} CountsAppend(events: seq<Event>, e: Event)
    ensures SpawnedCount(events + [e]) == SpawnedCount(events) + if e.Spawned? then 1 else 0
    ensures ExitedCount(events + [e]) == ExitedCount(events) + if e.Exited? then 1 else 0
  {
    assert (events + [e])[..|events|] == events;
  }

  /** How a lifecycle and its trace belong together: a held child, and each way of ending, shows in the last event. */
  ghost predicate TraceInv(s: Life) {
    && WellFormedTrace(s.events)
    && (s.child.Some? <==> s.ended.None?)
    && TraceEnds(s)
    && SpawnedCount(s.events) - ExitedCount(s.events)
       == if s.child.Some? || s.ended == Some(StoppedByOperator) then 1 else 0
  }

  /** The last event of each ending.  After a stop, `currentPid` still names the child that was killed. */
  ghost predicate TraceEnds(s: Life)
    requires s.events != []
  {
    var n := |s.events|;
    var last := s.events[n - 1];
    match s.ended
    case None => s.child.Some? && last == Spawned(s.child.value) && s.currentPid == s.child.value
    case Some(StoppedByOperator) => last.Stopped? && n >= 2 && s.events[n - 2] == Spawned(s.currentPid)
    case Some(GaveUp) => last.GiveUp? && s.currentPid == 0
    case Some(RespawnFailed) => last.Restarting? && s.currentPid == 0
  }

  /** After a Spawned, one exit adds an Exited and its consequence, and evens the counts out. */
  lemma {:induction false} TraceTakesExit(events: seq<Event>, exited: Event, next: Event)
    requires WellFormedTrace(events) && events[|events| - 1].Spawned?
    requires exited.Exited? && (next.Restarting? || next.GiveUp?)
    ensures var more := events + [exited, next];
            && WellFormedTrace(more)
            && SpawnedCount(more) == SpawnedCount(events) && ExitedCount(more) == ExitedCount(events) + 1
  {
    CountsAppend(events, exited);
    CountsAppend(events + [exited], next);
    assert events + [exited] + [next] == events + [exited, next];
  }

  lemma {:induction false} TraceTakesOne(events: seq<Event>, e: Event)
    requires WellFormedTrace(events)
    requires if e.Spawned? then events[|events| - 1].Restarting? else e.Stopped? && events[|events| - 1].Spawned?
    ensures var more := events + [e];
            && WellFormedTrace(more) && more[|more| - 1] == e
            && SpawnedCount(more) - ExitedCount(more)
               == SpawnedCount(events) - ExitedCount(events) + if e.Spawned? then 1 else 0
  {
    CountsAppend(events, e);
  }

  lemma {:induction false} StepKeepsTrace(cfg: Config, backoff: Schedule, s: Life, r: Round)
    requires TraceInv(s) && s.ended.None?
    ensures TraceInv(Step(cfg, backoff, s, r)) && s.events < Step(cfg, backoff, s, r).events
  {
    match r
    case StopRequested =>
      TraceTakesOne(s.events, Stopped);
    case ChildExit(_, code, _, respawn) =>
      var s' := Step(cfg, backoff, s, r);
      var e1, e2 := Exited(code, ReasonFor(code)), s'.events[|s.events| + 1];
      TraceTakesExit(s.events, e1, e2);
      if s'.ended.None? {
        TraceTakesOne(s.events + [e1, e2], Spawned(respawn.value));
      }
  }

  /** Every lifecycle's trace has the shape above, and a child is held exactly when the trace says one is alive. */
  lemma {:induction false} TraceIsWellFormed(cfg: Config, backoff: Schedule, pid: nat, rounds: seq<Round>, k: nat)
    requires k <= |rounds|
    ensures TraceInv(LifeAt(cfg, backoff, pid, rounds, k))
  {
    if k > 0 {
      TraceIsWellFormed(cfg, backoff, pid, rounds, k - 1);
      var s := LifeAt(cfg, backoff, pid, rounds, k - 1);
      if s.ended.None? {
        StepKeepsTrace(cfg, backoff, s, rounds[k - 1]);
      }
    } else {
      CountsAppend([], Spawned(pid));
      assert [] + [Spawned(pid)] == [Spawned(pid)];
    }
  }

  /** The reason that is reported with an exit code, or without one. */
  predicate IsReason(code: Option<int>, reason: Reason) {
    reason == if code == None then TerminatedBySignal
              else if code == Some(0) then ExitedSuccessfully
              else ExitedWithCode(code.value)
  }

  /**
   What one round reports, on a lifecycle in which `attempt` exits are in the window with this one: a stop, a surrender
   with the code and reason of the exit, or a restart with its attempt and backoff, and the child that came of it.
   */
  lemma {:induction false} RoundReports(cfg: Config, backoff: Schedule, s: Life, r: Round, attempt: nat)
    requires WindowInv(cfg, s) && s.ended.None?
    requires r.ChildExit? ==>
               attempt == Recent(s.exits + [s.clock + r.uptime], s.clock + r.uptime, cfg.restartWindow)
    ensures var s' := Step(cfg, backoff, s, r);
            match r
            case StopRequested =>
              s'.events == s.events + [Stopped] && s'.child == None && s'.ended == Some(StoppedByOperator)
            case ChildExit(_, code, _, respawn) =>
              exists reason :: IsReason(code, reason)
                && if attempt > cfg.maxRestarts then
                     && s'.events == s.events + [Exited(code, reason), GiveUp(code, reason)]
                     && s'.child == None && s'.currentPid == 0 && s'.ended == Some(GaveUp)
                   else
                     var restarted := s.events + [Exited(code, reason), Restarting(attempt, backoff(attempt))];
                     match respawn
                     case Some(pid) =>
                       s'.events == restarted + [Spawned(pid)]
                       && s'.child == Some(pid) && s'.currentPid == pid && s'.ended == None
                     case None =>
                       s'.events == restarted
                       && s'.child == None && s'.currentPid == 0 && s'.ended == Some(RespawnFailed)
  {
    if r.ChildExit? {
      ExitCountsWindow(cfg, backoff, s, r);
      assert IsReason(r.code, ReasonFor(r.code));
    }
  }

  /** Before the first round there is the child just spawned. */
  lemma {:induction false} FirstSpawn(cfg: Config, backoff: Schedule, pid: nat, rounds: seq<Round>)
    ensures var s := LifeAt(cfg, backoff, pid, rounds, 0);
            && s.events == [Spawned(pid)] && s.child == Some(pid) && s.currentPid == pid
            && s.ended == None && s.exits == []
  {
  }

  /** Nothing follows a terminal event. */
  lemma {:induction false} NothingAfterTheEnd(
    cfg: Config, backoff: Schedule, pid: nat, rounds: seq<Round>, i: nat, k: nat)
    requires i <= k <= |rounds| && LifeAt(cfg, backoff, pid, rounds, i).ended.Some?
    ensures LifeAt(cfg, backoff, pid, rounds, k).events == LifeAt(cfg, backoff, pid, rounds, i).events
  {
    EndedStays(cfg, backoff, pid, rounds, i, k);
  }

  /** The pids the system hands out are positive. */
  predicate PositivePids(pid: nat, rounds: seq<Round>) {
    pid > 0
    && forall i :: 0 <= i < |rounds| && rounds[i].ChildExit? && rounds[i].respawn.Some? ==>
         rounds[i].respawn.value > 0
  }

  lemma {:induction false} PidHeldOrStopped(cfg: Config, backoff: Schedule, pid: nat, rounds: seq<Round>, k: nat)
    requires k <= |rounds| && PositivePids(pid, rounds)
    ensures var s := LifeAt(cfg, backoff, pid, rounds, k);
            s.currentPid > 0 <==> s.ended.None? || s.ended == Some(StoppedByOperator)
  {
    if k > 0 {
      PidHeldOrStopped(cfg, backoff, pid, rounds, k - 1);
    }
  }

  /**
   The recorded pid tells the truth (the child's pid, or zero for none) on every run exactly until the operator stops
   it.
   */
  lemma {:induction false} PidIsTrueUnlessStopped(cfg: Config, backoff: Schedule, pid: nat, rounds: seq<Round>, k: nat)
    requires k <= |rounds| && PositivePids(pid, rounds)
    ensures var s := LifeAt(cfg, backoff, pid, rounds, k);
            s.currentPid == (if s.child.Some? then s.child.value else 0) <==> s.ended != Some(StoppedByOperator)
  {
    TraceIsWellFormed(cfg, backoff, pid, rounds, k);
    PidHeldOrStopped(cfg, backoff, pid, rounds, k);
  }
}
