/**
 The file-sync tables of the daemon: tracked files with their vector clocks, and the outbox of jobs.
 Every request handler is a short sequence of database transactions, each atomic on its own; handlers
 of different connections interleave between transactions.
 */
module FileSync {
  import opened Wrappers

  type FileId = nat
  type JobId = nat
  type Node = nat
  type Peer = nat
  type Hash = nat
  type PathName = nat

  const U32_MAX: nat := 0xFFFF_FFFF

  type Clock = map<Node, nat>

  datatype SyncState = Synced | LockedByProcess | Pending | Conflict | Disabled

  datatype OutboxStatus = Queued | InFlight | Failed | Done

  datatype TrackedFile = TrackedFile(fileId: FileId, localPath: PathName, clock: Clock, hash: Hash, state: SyncState)

  datatype OutboxJob = OutboxJob(jobId: JobId, fileId: FileId, peer: Peer, status: OutboxStatus, retryCount: nat)

  datatype Store = Store(tracked: map<FileId, TrackedFile>, outbox: map<JobId, OutboxJob>)

  function Reading(c: Clock, n: Node): nat { if n in c then c[n] else 0 }

  function Bump(c: Clock, n: Node): Clock { c[n := Reading(c, n) + 1] }

  ghost predicate NoLater(a: Clock, b: Clock) {
    forall n :: Reading(a, n) <= Reading(b, n)
  }

  lemma {:induction false} NoLaterTransitive(a: Clock, b: Clock, c: Clock)
    requires NoLater(a, b) && NoLater(b, c)
    ensures NoLater(a, c)
  {
  }

  // ---- Handlers as sequences of transactions --------------------------------------------------

  /** A content change as the handler sees it: `hash` is absent when the file cannot be read; the ids are fresh. */
  datatype Change = Change(path: PathName, node: Node, peer: Peer, ignored: bool, hash: Option<Hash>,
                           newFile: FileId, newJob: JobId)

  /**
   The transaction a handler performs next, with what it remembers from the ones before; `bumped` is the node whose
   bump is in the clock to be written, if the write is an accepted change.
   */
  datatype Handler =
    | ListForChange(change: Change)
    | GetForState(file: FileId, newState: SyncState)
    | GetForUpdate(job: JobId, newStatus: OutboxStatus)
    | GetForRetry(job: JobId)
    | PutTracked(tracked: TrackedFile, after: Option<OutboxJob>, bumped: Option<Node>)
    | PutJob(queued: OutboxJob)
    | DeleteJob(job: JobId)

  predicate TracksPath(s: Store, f: FileId, p: PathName) {
    f in s.tracked && s.tracked[f].localPath == p
  }

  /** The first tracked file with this path, in key order. */
  ghost function FindByPath(s: Store, p: PathName): Option<FileId> {
    if exists f :: TracksPath(s, f, p) then
      LeastTracked(s, p);
      var f :| TracksPath(s, f, p) && forall g :: TracksPath(s, g, p) ==> f <= g;
      Some(f)
    else None
  }

  lemma {:induction false} LeastTracked(s: Store, p: PathName)
    requires exists f :: TracksPath(s, f, p)
    ensures exists f :: TracksPath(s, f, p) && forall g :: TracksPath(s, g, p) ==> f <= g
  {
    var f :| TracksPath(s, f, p);
    LeastTrackedUpTo(s, p, f);
  }

  lemma {:induction false} LeastTrackedUpTo(s: Store, p: PathName, f: FileId)
    requires TracksPath(s, f, p)
    ensures exists g :: TracksPath(s, g, p) && forall h :: TracksPath(s, h, p) ==> g <= h
  {
    if h: FileId :| TracksPath(s, h, p) && h < f {
      LeastTrackedUpTo(s, p, h);
    }
  }

  /** The first tracked file with this path: no other has a smaller id. */
  ghost predicate IsFirst(s: Store, p: PathName, f: FileId) {
    TracksPath(s, f, p) && forall g :: TracksPath(s, g, p) ==> f <= g
  }

  lemma {:induction false} FindsTheFirst(s: Store, p: PathName, f: FileId)
    ensures FindByPath(s, p) == Some(f) <==> IsFirst(s, p, f)
    ensures FindByPath(s, p) == None <==> forall g :: !TracksPath(s, g, p)
  {
    if IsFirst(s, p, f) {
      LeastTracked(s, p);
    }
  }

  function NewJob(c: Change, f: FileId): OutboxJob {
    OutboxJob(c.newJob, f, c.peer, Queued, 0)
  }

  /** What a change handler decides from the files it has listed. */
  ghost function Decide(s: Store, c: Change): Option<Handler> {
    if c.ignored || c.hash.None? then None
    else
      match FindByPath(s, c.path)
      case None =>
        Some(PutTracked(TrackedFile(c.newFile, c.path, Bump(map[], c.node), c.hash.value, Pending),
                        Some(NewJob(c, c.newFile)), Some(c.node)))
      case Some(f) =>
        var tf := s.tracked[f];
        if tf.state == LockedByProcess || tf.hash == c.hash.value then None
        else Some(PutTracked(tf.(clock := Bump(tf.clock, c.node), hash := c.hash.value, state := Pending),
                             Some(NewJob(c, tf.fileId)), Some(c.node)))
  }

  /** `u32` addition of one, which stays at the largest value. */
  function SaturatingInc(n: nat): nat { if n >= U32_MAX then n else n + 1 }

  /** One transaction: the store after it, and what the handler does next, if anything. */
  ghost function Exec(s: Store, h: Handler): (Store, Option<Handler>) {
    match h
    case ListForChange(c) => (s, Decide(s, c))
    case GetForState(f, st) =>
      (s, if f in s.tracked then Some(PutTracked(s.tracked[f].(state := st), None, None)) else None)
    case GetForUpdate(j, st) =>
      (s, if j !in s.outbox then None
          else
            var job := s.outbox[j];
            var retries := if st == Failed then SaturatingInc(job.retryCount) else job.retryCount;
            Some(PutJob(job.(status := st, retryCount := retries))))
    case GetForRetry(j) =>
      (s, if j !in s.outbox then None
          else Some(PutJob(s.outbox[j].(status := Queued, retryCount := SaturatingInc(s.outbox[j].retryCount)))))
    case PutTracked(tf, after, _) =>
      (s.(tracked := s.tracked[tf.fileId := tf]), if after.Some? then Some(PutJob(after.value)) else None)
    case PutJob(job) => (s.(outbox := s.outbox[job.jobId := job]), None)
    case DeleteJob(j) => (s.(outbox := s.outbox - {j}), None)
  }

  // ---- All interleavings ----------------------------------------------------------------------

  /** The store and the handlers under way, by connection. */
  datatype World = World(store: Store, handlers: map<nat, Handler>)

  /**
   A request starts with its first read, or as a manual push that writes a file of its own at once, or as a dismissal.
   */
  predicate IsRequest(h: Handler) {
    match h
    case PutTracked(tf, after, bumped) => after.Some? && after.value.fileId == tf.fileId && bumped.None?
    case PutJob(_) => false
    case _ => true
  }

  /** A request arrives, a handler performs its next transaction, or a handler fails and is gone. */
  datatype Step = Arrive(conn: nat, request: Handler) | Proceed(conn: nat) | Fail(conn: nat)

  predicate Enabled(w: World, step: Step) {
    match step
    case Arrive(c, h) => c !in w.handlers && IsRequest(h)
    case Proceed(c) => c in w.handlers
    case Fail(c) => c in w.handlers
  }

  ghost function After(w: World, step: Step): World
    requires Enabled(w, step)
  {
    match step
    case Arrive(c, h) => w.(handlers := w.handlers[c := h])
    case Proceed(c) => Advance(w, c)
    case Fail(c) => w.(handlers := w.handlers - {c})
  }

  ghost function Advance(w: World, c: nat): World
    requires c in w.handlers
  {
    var (s, next) := Exec(w.store, w.handlers[c]);
    World(s, if next.Some? then w.handlers[c := next.value] else w.handlers - {c})
  }

  ghost predicate Grounded(s: Store) {
    && (forall f :: f in s.tracked ==> s.tracked[f].fileId == f)
    && forall j :: j in s.outbox ==> s.outbox[j].fileId in s.tracked
  }

  /** What a handler holds in its hands never outruns the tracked files either. */
  ghost predicate HandlerGrounded(s: Store, h: Handler) {
    match h
    case PutTracked(tf, after, _) => after.Some? ==> after.value.fileId == tf.fileId
    case PutJob(job) => job.fileId in s.tracked
    case _ => true
  }

  ghost predicate WorldGrounded(w: World) {
    Grounded(w.store) && forall c :: c in w.handlers ==> HandlerGrounded(w.store, w.handlers[c])
  }

  lemma {:induction false} FoundIsTracked(s: Store, p: PathName)
    ensures FindByPath(s, p).Some? ==> TracksPath(s, FindByPath(s, p).value, p)
  {
  }

  lemma {:induction false} ExecStaysGrounded(s: Store, h: Handler)
    requires Grounded(s) && HandlerGrounded(s, h)
    ensures var (s', next) := Exec(s, h);
            && Grounded(s') && s.tracked.Keys <= s'.tracked.Keys
            && (next.Some? ==> HandlerGrounded(s', next.value))
  {
    if h.ListForChange? {
      FoundIsTracked(s, h.change.path);
    }
  }

  lemma {:induction false} StepStaysGrounded(w: World, step: Step)
    requires WorldGrounded(w) && Enabled(w, step)
    ensures WorldGrounded(After(w, step)) && w.store.tracked.Keys <= After(w, step).store.tracked.Keys
  {
    if step.Proceed? {
      ExecStaysGrounded(w.store, w.handlers[step.conn]);
    }
  }

  /** The worlds a sequence of steps goes through, from an empty store. */
  ghost predicate IsRun(run: seq<World>, steps: seq<Step>) {
    && |run| == |steps| + 1 && run[0] == World(Store(map[], map[]), map[])
    && forall i :: 0 <= i < |steps| ==> Enabled(run[i], steps[i]) && run[i + 1] == After(run[i], steps[i])
  }

  /** Over every interleaving, at every moment: the file of every outbox job is tracked. */
  lemma {:induction false} JobsNameTrackedFiles(run: seq<World>, steps: seq<Step>, k: nat)
    requires IsRun(run, steps) && k < |run|
    ensures WorldGrounded(run[k])
    ensures forall j :: j in run[k].store.outbox ==> run[k].store.outbox[j].fileId in run[k].store.tracked
  {
    if k > 0 {
      JobsNameTrackedFiles(run, steps, k - 1);
      StepStaysGrounded(run[k - 1], steps[k - 1]);
    }
  }

  // ---- Handlers taken as atomic ---------------------------------------------------------------

  /** A handler run to its end with nothing in between. */
  ghost function Complete(s: Store, h: Handler): Store
    decreases Remaining(h)
  {
    var (s', next) := Exec(s, h);
    if next.Some? then Complete(s', next.value) else s'
  }

  /** How many more transactions a handler can need. */
  function Remaining(h: Handler): nat {
    match h
    case ListForChange(_) => 3
    case GetForState(_, _) => 3
    case PutTracked(_, _, _) => 2
    case GetForUpdate(_, _) => 2
    case GetForRetry(_) => 2
    case PutJob(_) => 1
    case DeleteJob(_) => 1
  }

  /** New files get ids that name no tracked file. */
  ghost predicate FreshFile(s: Store, h: Handler) {
    match h
    case ListForChange(c) => c.newFile !in s.tracked
    case PutTracked(tf, _, _) => tf.fileId !in s.tracked
    case _ => true
  }

  lemma {:induction false} CompletePut(s: Store, tf: TrackedFile, after: Option<OutboxJob>, bumped: Option<Node>)
    ensures Complete(s, PutTracked(tf, after, bumped))
            == Store(s.tracked[tf.fileId := tf],
                     if after.Some? then s.outbox[after.value.jobId := after.value] else s.outbox)
  {
    var s' := s.(tracked := s.tracked[tf.fileId := tf]);
    if after.Some? {
      assert Exec(s', PutJob(after.value)).1 == None;
      assert Complete(s', PutJob(after.value)) == Exec(s', PutJob(after.value)).0;
    }
  }

  lemma {:induction false} CompleteRead(s: Store, h: Handler)
    requires h.ListForChange? || h.GetForState? || h.GetForUpdate? || h.GetForRetry?
    ensures var next := Exec(s, h).1;
            Complete(s, h) == if next.Some? then Complete(s, next.value) else s
  {
  }

  /** The handler is a content change that, on this store, is accepted for this file. */
  ghost predicate AcceptedFor(s: Store, h: Handler, f: FileId) {
    && h.ListForChange? && Decide(s, h.change).Some?
    && Decide(s, h.change).value.PutTracked? && Decide(s, h.change).value.tracked.fileId == f
  }

  /**
   What a request does to a tracked file's clock when it runs as a whole: an accepted change bumps it, nothing else
   moves it.
   */
  lemma {:induction false} CompleteMovesClock(s: Store, h: Handler, f: FileId)
    requires Grounded(s) && IsRequest(h) && FreshFile(s, h) && f in s.tracked
    ensures f in Complete(s, h).tracked
    ensures Complete(s, h).tracked[f].clock
            == if AcceptedFor(s, h, f) then Bump(s.tracked[f].clock, h.change.node) else s.tracked[f].clock
  {
    if h.PutTracked? {
      CompletePut(s, h.tracked, h.after, h.bumped);
    } else if !h.DeleteJob? {
      CompleteRead(s, h);
      if h.ListForChange? {
        FoundIsTracked(s, h.change.path);
      }
      var next := Exec(s, h).1;
      if next.Some? && next.value.PutTracked? {
        CompletePut(s, next.value.tracked, next.value.after, next.value.bumped);
      }
    }
  }

  /** Taken as a whole, no handler sets a file's vector clock back or forgets a file. */
  lemma {:induction false} ClocksNeverGoBack(s: Store, h: Handler, f: FileId)
    requires Grounded(s) && IsRequest(h) && FreshFile(s, h) && f in s.tracked
    ensures f in Complete(s, h).tracked && NoLater(s.tracked[f].clock, Complete(s, h).tracked[f].clock)
  {
    CompleteMovesClock(s, h, f);
  }

  lemma {:induction false} CompleteStaysGrounded(s: Store, h: Handler)
    requires Grounded(s) && HandlerGrounded(s, h)
    ensures Grounded(Complete(s, h))
    decreases Remaining(h)
  {
    ExecStaysGrounded(s, h);
    var (s', next) := Exec(s, h);
    if next.Some? {
      CompleteStaysGrounded(s', next.value);
    }
  }

  /** The stores between handlers that run one after the other, from an empty store. */
  ghost predicate SerialRun(stores: seq<Store>, handlers: seq<Handler>) {
    && |stores| == |handlers| + 1 && stores[0] == Store(map[], map[])
    && forall i :: 0 <= i < |handlers| ==>
         && IsRequest(handlers[i]) && FreshFile(stores[i], handlers[i])
         && stores[i + 1] == Complete(stores[i], handlers[i])
  }

  lemma {:induction false} OneRequestMore(start: Store, s: Store, h: Handler, f: FileId)
    requires Grounded(s) && IsRequest(h) && FreshFile(s, h) && f in start.tracked && f in s.tracked
    requires NoLater(start.tracked[f].clock, s.tracked[f].clock)
    ensures f in Complete(s, h).tracked && NoLater(start.tracked[f].clock, Complete(s, h).tracked[f].clock)
  {
    ClocksNeverGoBack(s, h, f);
    NoLaterTransitive(start.tracked[f].clock, s.tracked[f].clock, Complete(s, h).tracked[f].clock);
  }

  /** Over any serial run, a file once tracked stays tracked and its vector clock only grows. */
  lemma {:induction false} ClocksOnlyGrow(stores: seq<Store>, handlers: seq<Handler>, i: nat, k: nat, f: FileId)
    requires SerialRun(stores, handlers) && i <= k < |stores| && f in stores[i].tracked
    ensures f in stores[k].tracked && NoLater(stores[i].tracked[f].clock, stores[k].tracked[f].clock)
  {
    if i < k {
      ClocksOnlyGrow(stores, handlers, i, k - 1, f);
      SerialGrounded(stores, handlers, k - 1);
      OneRequestMore(stores[i], stores[k - 1], handlers[k - 1], f);
    }
  }

  lemma {:induction false} SerialGrounded(stores: seq<Store>, handlers: seq<Handler>, k: nat)
    requires SerialRun(stores, handlers) && k < |stores|
    ensures Grounded(stores[k])
  {
    if k > 0 {
      SerialGrounded(stores, handlers, k - 1);
      CompleteStaysGrounded(stores[k - 1], handlers[k - 1]);
    }
  }

  /** File `f` is tracked before and after, and its clock has gone back. */
  ghost predicate SetBack(s: Store, s': Store, f: FileId) {
    f in s.tracked && f in s'.tracked && !NoLater(s.tracked[f].clock, s'.tracked[f].clock)
  }

  /**
   Two handlers of which the first has read its file when the second starts, and writes it when the second is done.
   */
  ghost predicate Overtaken(s: Store, first: Handler, second: Handler, f: FileId) {
    && Grounded(s) && IsRequest(first) && IsRequest(second) && FreshFile(s, second) && Exec(s, first).1.Some?
    && SetBack(Complete(s, second), Complete(Complete(s, second), Exec(s, first).1.value), f)
  }

  lemma {:induction false} BumpIsLater(c: Clock, m: Node, n: Node)
    ensures !NoLater(Bump(c, m), c)
    ensures NoLater(Bump(c, m), Bump(c, n)) <==> m == n
  {
    assert Reading(Bump(c, m), m) == Reading(c, m) + 1;
    assert m != n ==> Reading(Bump(c, n), m) == Reading(c, m);
  }

  lemma {:induction false} StillFresh(s: Store, h: Handler, other: Handler)
    requires Grounded(s) && IsRequest(h) && FreshFile(s, h) && FreshFile(Complete(s, h), other)
    ensures FreshFile(s, other)
  {
    var id := match other
      case ListForChange(c) => c.newFile
      case PutTracked(tf, _, _) => tf.fileId
      case _ => 0;
    if id in s.tracked {
      CompleteMovesClock(s, h, id);
    }
  }

  /** What a request holds in its hands after its first transaction, if it is about to write a file that is tracked. */
  lemma {:induction false} HeldWrite(s: Store, h: Handler, f: FileId)
    requires Grounded(s) && IsRequest(h) && f in s.tracked && Exec(s, h).1.Some? && FreshFile(s, h)
    ensures var next := Exec(s, h).1.value;
            next.PutTracked? && next.tracked.fileId == f
            <==> AcceptedFor(s, h, f) || (h.GetForState? && h.file == f)
    ensures AcceptedFor(s, h, f) ==> Exec(s, h).1.value.tracked.clock == Bump(s.tracked[f].clock, h.change.node)
    ensures h.GetForState? && h.file == f ==> Exec(s, h).1.value.tracked.clock == s.tracked[f].clock
  {
    if h.ListForChange? {
      FoundIsTracked(s, h.change.path);
    }
  }

  /** The rest of a handler writes at most the file it holds. */
  lemma {:induction false} CompleteRest(s: Store, h: Handler)
    requires h.PutTracked? || h.PutJob?
    ensures Complete(s, h).tracked == if h.PutTracked? then s.tracked[h.tracked.fileId := h.tracked] else s.tracked
  {
    if h.PutTracked? {
      CompletePut(s, h.tracked, h.after, h.bumped);
    }
  }

  /**
   The exact condition, for every store and any two requests: the overtaken one sets a file's clock back exactly when
   the other was a change accepted for that file, and it was itself a state change of the file or a change accepted
   for it from another node.
   */
  lemma {:induction false} OvertakenIff(s: Store, first: Handler, second: Handler, f: FileId)
    requires Grounded(s) && IsRequest(first) && IsRequest(second) && Exec(s, first).1.Some?
    requires FreshFile(s, second) && FreshFile(Complete(s, second), first)
    ensures Overtaken(s, first, second, f)
            <==> && f in s.tracked && AcceptedFor(s, second, f)
                 && (|| (first.GetForState? && first.file == f)
                     || (AcceptedFor(s, first, f) && first.change.node != second.change.node))
  {
    var s', next := Complete(s, second), Exec(s, first).1.value;
    CompleteRest(s', next);
    if f in s.tracked {
      CompleteMovesClock(s, second, f);
      StillFresh(s, second, first);
      HeldWrite(s, first, f);
      var c := s.tracked[f].clock;
      if AcceptedFor(s, second, f) {
        var m := second.change.node;
        BumpIsLater(c, m, if first.ListForChange? then first.change.node else m);
      }
    }
  }

  // ---- Interleaved runs -----------------------------------------------------------------------

  /** The file a handler is about to create or to write. */
  function Claim(h: Handler): Option<FileId> {
    match h
    case ListForChange(c) => Some(c.newFile)
    case PutTracked(tf, _, _) => Some(tf.fileId)
    case _ => None
  }

  /** An arriving request's new id names no tracked file and is in no other handler's hands. */
  ghost predicate FreshArrival(w: World, step: Step) {
    step.Arrive? && Claim(step.request).Some? ==>
      && Claim(step.request).value !in w.store.tracked
      && forall d :: d in w.handlers ==> Claim(w.handlers[d]) != Claim(step.request)
  }

  /** The handler has read or created this file and is about to write it. */
  predicate AboutToWrite(h: Handler, f: FileId) {
    h.PutTracked? && h.tracked.fileId == f
  }

  /** No accepted change is written while another handler stands between its read and its write of the same file. */
  ghost predicate Undisturbed(w: World, step: Step) {
    step.Proceed? && step.conn in w.handlers ==>
      var h := w.handlers[step.conn];
      h.PutTracked? && h.bumped.Some? ==>
        forall d :: d in w.handlers && d != step.conn ==> !AboutToWrite(w.handlers[d], h.tracked.fileId)
  }

  /** What a handler holds fits the store: the clock it is about to write is the tracked one, or that with one bump. */
  ghost predicate InTune(s: Store, h: Handler) {
    match h
    case ListForChange(c) => c.newFile !in s.tracked
    case PutTracked(tf, after, bumped) =>
      && (tf.fileId in s.tracked ==>
            var clock := s.tracked[tf.fileId].clock;
            tf.clock == if bumped.Some? then Bump(clock, bumped.value) else clock)
      && (after.None? ==> tf.fileId in s.tracked)
    case _ => true
  }

  /** Everything held is in tune, and two handlers hold the same file only if it is tracked. */
  ghost predicate Tuned(w: World) {
    && WorldGrounded(w)
    && (forall c :: c in w.handlers ==> InTune(w.store, w.handlers[c]))
    && forall c, d :: c in w.handlers && d in w.handlers && c != d
                      && Claim(w.handlers[c]).Some? && Claim(w.handlers[c]) == Claim(w.handlers[d]) ==>
                        Claim(w.handlers[c]).value in w.store.tracked
  }

  /**
   A first transaction, or one on jobs, leaves the tracked files alone and takes hold of nothing but a tracked file or
   its own claim.
   */
  lemma {:induction false} ReadStaysInTune(s: Store, h: Handler)
    requires Grounded(s) && InTune(s, h) && !h.PutTracked?
    ensures var (s', next) := Exec(s, h);
            && s'.tracked == s.tracked
            && (next.Some? ==>
                  && InTune(s, next.value)
                  && (Claim(next.value).Some? ==>
                        Claim(next.value).value in s.tracked || Claim(next.value) == Claim(h)))
  {
    if h.ListForChange? {
      FoundIsTracked(s, h.change.path);
      var next := Exec(s, h).1;
      if next.Some? && FindByPath(s, h.change.path).Some? {
        var f := FindByPath(s, h.change.path).value;
        assert next.value.tracked.clock == Bump(s.tracked[f].clock, h.change.node);
      }
    }
  }

  ghost predicate ClocksGrow(s: Store, s': Store) {
    forall f :: f in s.tracked ==> f in s'.tracked && NoLater(s.tracked[f].clock, s'.tracked[f].clock)
  }

  lemma {:induction false} ReadStaysTuned(w: World, c: nat)
    requires Tuned(w) && c in w.handlers && !w.handlers[c].PutTracked?
    ensures Tuned(Advance(w, c)) && ClocksGrow(w.store, Advance(w, c).store)
  {
    StepStaysGrounded(w, Proceed(c));
    ReadStaysInTune(w.store, w.handlers[c]);
  }

  /** A write leaves another handler in tune, unless it bumps the clock of a file the other one is about to write. */
  lemma {:induction false} OtherStaysInTune(s: Store, s': Store, write: Handler, h: Handler)
    requires write.PutTracked? && s'.tracked == s.tracked[write.tracked.fileId := write.tracked]
    requires InTune(s, write) && InTune(s, h)
    requires Claim(h) == Claim(write) ==>
               write.tracked.fileId in s.tracked
               && (write.bumped.Some? ==> !AboutToWrite(h, write.tracked.fileId))
    ensures InTune(s', h)
  {
  }

  lemma {:induction false} WriteGrows(s: Store, s': Store, write: Handler)
    requires write.PutTracked? && s'.tracked == s.tracked[write.tracked.fileId := write.tracked] && InTune(s, write)
    ensures ClocksGrow(s, s')
  {
  }

  lemma {:induction false} WriteStaysTuned(w: World, c: nat)
    requires Tuned(w) && c in w.handlers && w.handlers[c].PutTracked? && Undisturbed(w, Proceed(c))
    ensures Tuned(Advance(w, c)) && ClocksGrow(w.store, Advance(w, c).store)
  {
    StepStaysGrounded(w, Proceed(c));
    var w', write := Advance(w, c), w.handlers[c];
    assert w'.store.tracked == w.store.tracked[write.tracked.fileId := write.tracked];
    WriteGrows(w.store, w'.store, write);
    forall d | d in w'.handlers
      ensures InTune(w'.store, w'.handlers[d])
    {
      if d != c {
        OtherStaysInTune(w.store, w'.store, write, w.handlers[d]);
      }
    }
  }

  lemma {:induction false} StepStaysTuned(w: World, step: Step)
    requires Tuned(w) && Enabled(w, step) && FreshArrival(w, step) && Undisturbed(w, step)
    ensures Tuned(After(w, step)) && ClocksGrow(w.store, After(w, step).store)
  {
    StepStaysGrounded(w, step);
    if step.Proceed? {
      if w.handlers[step.conn].PutTracked? {
        WriteStaysTuned(w, step.conn);
      } else {
        ReadStaysTuned(w, step.conn);
      }
    }
  }

  /** Up to step `k`, ids are fresh and every accepted change is written undisturbed. */
  ghost predicate UndisturbedUpTo(run: seq<World>, steps: seq<Step>, k: nat) {
    k <= |steps| < |run| && forall i :: 0 <= i < k ==> FreshArrival(run[i], steps[i]) && Undisturbed(run[i], steps[i])
  }

  lemma {:induction false} RunStaysTuned(run: seq<World>, steps: seq<Step>, k: nat)
    requires IsRun(run, steps) && UndisturbedUpTo(run, steps, k)
    ensures Tuned(run[k])
  {
    if k > 0 {
      RunStaysTuned(run, steps, k - 1);
      StepStaysTuned(run[k - 1], steps[k - 1]);
    }
  }

  /**
   Over every such interleaving, failures included, a file once tracked stays tracked and its vector clock only grows.
   */
  lemma {:induction false} InterleavedClocksOnlyGrow(run: seq<World>, steps: seq<Step>, i: nat, k: nat, f: FileId)
    requires IsRun(run, steps) && UndisturbedUpTo(run, steps, k) && i <= k && f in run[i].store.tracked
    ensures f in run[k].store.tracked && NoLater(run[i].store.tracked[f].clock, run[k].store.tracked[f].clock)
  {
    if i < k {
      InterleavedClocksOnlyGrow(run, steps, i, k - 1, f);
      RunStaysTuned(run, steps, k - 1);
      StepStaysTuned(run[k - 1], steps[k - 1]);
      NoLaterTransitive(run[i].store.tracked[f].clock, run[k - 1].store.tracked[f].clock,
                        run[k].store.tracked[f].clock);
    }
  }

  /**
   The condition is tight: at the first accepted change that is written while another handler stands between its read
   and its write of the file, letting the other write next sets the clock back, unless that is a change by the same
   node.
   */
  lemma {:induction false} DisturbedSetsBackIff(run: seq<World>, steps: seq<Step>, k: nat, c: nat, d: nat, f: FileId)
    requires IsRun(run, steps) && UndisturbedUpTo(run, steps, k) && f in run[k].store.tracked
    requires c in run[k].handlers && d in run[k].handlers && c != d
    requires AboutToWrite(run[k].handlers[c], f) && AboutToWrite(run[k].handlers[d], f)
    requires run[k].handlers[c].bumped.Some?
    ensures d in Advance(run[k], c).handlers
    ensures SetBack(Advance(run[k], c).store, Advance(Advance(run[k], c), d).store, f)
            <==> run[k].handlers[d].bumped != run[k].handlers[c].bumped
  {
    RunStaysTuned(run, steps, k);
    var w, h, h' := Advance(run[k], c), run[k].handlers[c], run[k].handlers[d];
    var m := h.bumped.value;
    BumpIsLater(run[k].store.tracked[f].clock, m, if h'.bumped.Some? then h'.bumped.value else m);
    assert w.store.tracked[f].clock == h.tracked.clock;
    assert Advance(w, d).store.tracked[f].clock == h'.tracked.clock;
  }

  // ---- A run that loses a bump ----------------------------------------------------------------

  function FirstChange(): Change { Change(7, 1, 5, false, Some(10), 0, 0) }

  function SecondChange(): Change { Change(7, 1, 5, false, Some(11), 1, 1) }

  function FirstFile(): TrackedFile { TrackedFile(0, 7, map[1 := 1], 10, Pending) }

  function FirstWrite(): Handler { PutTracked(FirstFile(), Some(NewJob(FirstChange(), 0)), Some(1)) }

  function SecondWrite(): Handler {
    PutTracked(FirstFile().(clock := map[1 := 2], hash := 11), Some(NewJob(SecondChange(), 0)), Some(1))
  }

  function LockWrite(): Handler { PutTracked(FirstFile().(state := LockedByProcess), None, None) }

  function FirstStore(): Store { Store(map[0 := FirstFile()], map[0 := NewJob(FirstChange(), 0)]) }

  /** A change is recorded, a lock request reads the file, and a second change is decided. */
  function LosingStep(i: nat): Step {
    if i == 0 then Arrive(0, ListForChange(FirstChange()))
    else if i == 4 then Arrive(1, GetForState(0, LockedByProcess))
    else if i == 5 then Proceed(1)
    else if i == 6 then Arrive(0, ListForChange(SecondChange()))
    else Proceed(0)
  }

  /** The worlds before and after these eight steps. */
  function LosingWorld(i: nat): World {
    if i == 0 then World(Store(map[], map[]), map[])
    else if i == 1 then World(Store(map[], map[]), map[0 := ListForChange(FirstChange())])
    else if i == 2 then World(Store(map[], map[]), map[0 := FirstWrite()])
    else if i == 3 then World(Store(map[0 := FirstFile()], map[]), map[0 := PutJob(NewJob(FirstChange(), 0))])
    else if i == 4 then World(FirstStore(), map[])
    else if i == 5 then World(FirstStore(), map[1 := GetForState(0, LockedByProcess)])
    else if i == 6 then World(FirstStore(), map[1 := LockWrite()])
    else if i == 7 then World(FirstStore(), map[1 := LockWrite(), 0 := ListForChange(SecondChange())])
    else World(FirstStore(), map[1 := LockWrite(), 0 := SecondWrite()])
  }

  lemma {:induction false} FirstIsAccepted()
    ensures Decide(Store(map[], map[]), FirstChange()) == Some(FirstWrite())
  {
  }

  lemma {:induction false} SecondIsAccepted()
    ensures Decide(FirstStore(), SecondChange()) == Some(SecondWrite())
  {
    assert TracksPath(FirstStore(), 0, 7);
    FoundIsTracked(FirstStore(), 7);
    assert Bump(FirstFile().clock, 1) == map[1 := 2];
  }

  ghost predicate GoesTo(w: World, step: Step, w': World) {
    Enabled(w, step) && After(w, step) == w' && FreshArrival(w, step) && Undisturbed(w, step)
  }

  lemma {:induction false} FirstLosingSteps(i: nat)
    requires i < 4
    ensures GoesTo(LosingWorld(i), LosingStep(i), LosingWorld(i + 1))
  {
    FirstIsAccepted();
  }

  lemma {:induction false} LastLosingSteps(i: nat)
    requires 4 <= i < 8
    ensures GoesTo(LosingWorld(i), LosingStep(i), LosingWorld(i + 1))
  {
    SecondIsAccepted();
  }

  /** From the empty store to the two handlers that hold the same file. */
  lemma {:induction false} LosingRunSoFar() returns (run: seq<World>, steps: seq<Step>)
    ensures IsRun(run, steps) && |steps| == 8 && UndisturbedUpTo(run, steps, 8) && run[8] == LosingWorld(8)
  {
    run, steps := seq(9, i requires i >= 0 => LosingWorld(i)), seq(8, i requires i >= 0 => LosingStep(i));
    forall i | 0 <= i < 8
      ensures GoesTo(run[i], steps[i], run[i + 1])
    {
      if i < 4 {
        FirstLosingSteps(i);
      } else {
        LastLosingSteps(i);
      }
    }
  }

  /**
   A run from the empty store, ids fresh throughout, in which a file's clock goes back: a lock request that read the
   file before a change was recorded writes the old clock back.
   */
  lemma {:induction false} InterleavingLosesABump() returns (run: seq<World>, steps: seq<Step>)
    ensures IsRun(run, steps) && |steps| == 10 && forall i :: 0 <= i < 10 ==> FreshArrival(run[i], steps[i])
    ensures steps[9].Proceed? && steps[9].conn in run[9].handlers && run[9].handlers[steps[9].conn] == LockWrite()
    ensures SetBack(run[9].store, run[10].store, 0)
  {
    var before, sofar := LosingRunSoFar();
    DisturbedSetsBackIff(before, sofar, 8, 0, 1, 0);
    var w := Advance(before[8], 0);
    run, steps := before + [w, Advance(w, 1)], sofar + [Proceed(0), Proceed(1)];
  }

  // ---- The handlers as code -------------------------------------------------------------------

  class StateDb {
    var trackedFiles: map<FileId, TrackedFile>
    var syncOutbox: map<JobId, OutboxJob>

    function Value(): Store
      reads this
    {
      Store(trackedFiles, syncOutbox)
    }

    constructor ()
      ensures Value() == Store(map[], map[])
    {
      trackedFiles := map[];
      syncOutbox := map[];
    }

    /** Lists the tracked files and picks the first one with this path. */
    method FindTracked(p: PathName) returns (r: Option<FileId>)
      ensures r == FindByPath(Value(), p)
    {
      var left := trackedFiles.Keys;
      r := None;
      while left != {}
        invariant left <= trackedFiles.Keys
        invariant r.Some? ==> TracksPath(Value(), r.value, p)
        invariant forall g :: TracksPath(Value(), g, p) && g !in left ==> r.Some? && r.value <= g
      {
        var f :| f in left;
        if trackedFiles[f].localPath == p && (r.None? || f < r.value) {
          r := Some(f);
        }
        left := left - {f};
      }
      if r.Some? {
        LeastTracked(Value(), p);
      }
    }

    method SyncFileChanged(c: Change) returns (job: Option<OutboxJob>)
      modifies this
      ensures Value() == Complete(old(Value()), ListForChange(c))
      ensures job.Some? <==> Decide(old(Value()), c).Some?
      ensures job.None? ==> Value() == old(Value())
      ensures job.Some? ==>
                && job.value == OutboxJob(c.newJob, job.value.fileId, c.peer, Queued, 0)
                && syncOutbox == old(syncOutbox)[c.newJob := job.value]
                && job.value.fileId in trackedFiles && c.hash.Some?
                && var tf := trackedFiles[job.value.fileId];
                   tf.localPath == c.path && tf.hash == c.hash.value && tf.state == Pending
    {
      ghost var s := Value();
      CompleteRead(s, ListForChange(c));
      if c.ignored || c.hash.None? {
        return None;
      }
      var existing := FindTracked(c.path);
      FoundIsTracked(s, c.path);
      var tf: TrackedFile;
      if existing.Some? {
        tf := trackedFiles[existing.value];
        if tf.state == LockedByProcess || tf.hash == c.hash.value {
          return None;
        }
        tf := tf.(clock := Bump(tf.clock, c.node), hash := c.hash.value, state := Pending);
      } else {
        tf := TrackedFile(c.newFile, c.path, Bump(map[], c.node), c.hash.value, Pending);
      }
      var queued := NewJob(c, tf.fileId);
      CompletePut(s, tf, Some(queued), Some(c.node));
      trackedFiles := trackedFiles[tf.fileId := tf];
      syncOutbox := syncOutbox[queued.jobId := queued];
      return Some(queued);
    }

    /** Locks or unlocks; a conflict resolution makes the same write with `Pending`. */
    method SetState(f: FileId, newState: SyncState) returns (found: bool)
      modifies this
      ensures Value() == Complete(old(Value()), GetForState(f, newState))
      ensures found <==> f in old(trackedFiles)
      ensures syncOutbox == old(syncOutbox)
      ensures !found ==> trackedFiles == old(trackedFiles)
      ensures found ==> var tf := old(trackedFiles)[f].(state := newState);
                        trackedFiles == old(trackedFiles)[tf.fileId := tf]
    {
      CompleteRead(Value(), GetForState(f, newState));
      if f !in trackedFiles {
        return false;
      }
      var tf := trackedFiles[f].(state := newState);
      CompletePut(Value(), tf, None, None);
      trackedFiles := trackedFiles[tf.fileId := tf];
      return true;
    }

    /** A worker reports on a job; a failure counts as one more retry. */
    method SyncUpdateJob(j: JobId, newStatus: OutboxStatus) returns (found: bool)
      modifies this
      ensures Value() == Complete(old(Value()), GetForUpdate(j, newStatus))
      ensures found <==> j in old(syncOutbox)
      ensures trackedFiles == old(trackedFiles)
      ensures !found ==> syncOutbox == old(syncOutbox)
      ensures found ==> var job := old(syncOutbox)[j];
                        var retries := if newStatus == Failed && job.retryCount < 0xFFFF_FFFF then job.retryCount + 1
                                       else job.retryCount;
                        syncOutbox == old(syncOutbox)[job.jobId := job.(status := newStatus, retryCount := retries)]
    {
      CompleteRead(Value(), GetForUpdate(j, newStatus));
      if j !in syncOutbox {
        return false;
      }
      var job := syncOutbox[j].(status := newStatus);
      if newStatus == Failed {
        job := job.(retryCount := SaturatingInc(job.retryCount));
      }
      syncOutbox := syncOutbox[job.jobId := job];
      return true;
    }

    /** A manual push tracks a file of its own and queues its job; it fails when the file cannot be read. */
    method EnqueueManualPush(p: PathName, peer: Peer, node: Node, hash: Option<Hash>, newFile: FileId, newJob: JobId)
      returns (job: Option<OutboxJob>)
      modifies this
      ensures hash.None? ==> job == None && Value() == old(Value())
      ensures hash.Some? ==>
                var tf := TrackedFile(newFile, p, map[node := 1], hash.value, Pending);
                && job == Some(OutboxJob(newJob, newFile, peer, Queued, 0))
                && trackedFiles == old(trackedFiles)[newFile := tf]
                && syncOutbox == old(syncOutbox)[newJob := job.value]
                && Value() == Complete(old(Value()), PutTracked(tf, job, None))
    {
      if hash.None? {
        return None;
      }
      var tf := TrackedFile(newFile, p, Bump(map[], node), hash.value, Pending);
      var queued := OutboxJob(newJob, newFile, peer, Queued, 0);
      CompletePut(Value(), tf, Some(queued), None);
      trackedFiles := trackedFiles[tf.fileId := tf];
      syncOutbox := syncOutbox[queued.jobId := queued];
      return Some(queued);
    }
  }

  // ---- What a worker's requests record --------------------------------------------------------

  /** A retry queues the job again, as one more retry; a dismissal takes it out.  Neither touches a file. */
  lemma {:induction false} RetryAndDelete(s: Store, j: JobId)
    ensures Complete(s, DeleteJob(j)) == s.(outbox := s.outbox - {j})
    ensures var s' := Complete(s, GetForRetry(j));
            if j !in s.outbox then s' == s
            else
              var job := s.outbox[j];
              var retries := if job.retryCount < 0xFFFF_FFFF then job.retryCount + 1 else job.retryCount;
              s' == s.(outbox := s.outbox[job.jobId := job.(status := Queued, retryCount := retries)])
  {
    CompleteRead(s, GetForRetry(j));
    var next := Exec(s, GetForRetry(j)).1;
    if next.Some? {
      assert Complete(s, next.value) == Exec(s, next.value).0;
    }
  }

  // ---- What a change records ------------------------------------------------------------------

  /** Exactly one job is queued, for this file and the change's peer. */
  predicate QueuesOne(s: Store, s': Store, c: Change, f: FileId) {
    s'.outbox == s.outbox[c.newJob := OutboxJob(c.newJob, f, c.peer, Queued, 0)]
  }

  /** A change of a path that is tracked, on the first file that has it. */
  lemma {:induction false} ChangeOfKnownPath(s: Store, c: Change, f: FileId)
    requires Grounded(s) && IsFirst(s, c.path, f)
    ensures var s', tf := Complete(s, ListForChange(c)), s.tracked[f];
            if c.ignored || c.hash == None || tf.state == LockedByProcess || c.hash == Some(tf.hash) then s' == s
            else
              && QueuesOne(s, s', c, f)
              && s'.tracked.Keys == s.tracked.Keys
              && (forall g :: g in s.tracked && g != f ==> s'.tracked[g] == s.tracked[g])
              && s'.tracked[f].(clock := tf.clock) == TrackedFile(f, c.path, tf.clock, c.hash.value, Pending)
              && forall n :: Reading(s'.tracked[f].clock, n) == Reading(tf.clock, n) + if n == c.node then 1 else 0
  {
    CompleteRead(s, ListForChange(c));
    FindsTheFirst(s, c.path, f);
    var next := Exec(s, ListForChange(c)).1;
    if next.Some? {
      CompletePut(s, next.value.tracked, next.value.after, next.value.bumped);
    }
  }

  /** A change of a path that is not tracked yet. */
  lemma {:induction false} ChangeOfNewPath(s: Store, c: Change)
    requires forall g :: !TracksPath(s, g, c.path)
    ensures var s' := Complete(s, ListForChange(c));
            if c.ignored || c.hash == None then s' == s
            else
              && QueuesOne(s, s', c, c.newFile)
              && var tf := TrackedFile(c.newFile, c.path, map[c.node := 1], c.hash.value, Pending);
                 s'.tracked == s.tracked[c.newFile := tf]
  {
    CompleteRead(s, ListForChange(c));
    FindsTheFirst(s, c.path, 0);
    var next := Exec(s, ListForChange(c)).1;
    if next.Some? {
      CompletePut(s, next.value.tracked, next.value.after, next.value.bumped);
    }
  }

  // ---- Changes and locks alone ----------------------------------------------------------------

  datatype Event = Changed(change: Change) | LockSet(file: FileId, locked: bool)

  function HandlerFor(e: Event): Handler {
    match e
    case Changed(c) => ListForChange(c)
    case LockSet(f, locked) => GetForState(f, if locked then LockedByProcess else Pending)
  }

  /** The store after the first `k` events, each handled as a whole, from an empty store. */
  ghost function StoreAt(events: seq<Event>, k: nat): Store
    requires k <= |events|
  {
    if k == 0 then Store(map[], map[]) else Complete(StoreAt(events, k - 1), HandlerFor(events[k - 1]))
  }

  /** The ids handed out are all different. */
  ghost predicate FreshIds(events: seq<Event>) {
    forall i, j :: 0 <= i < j < |events| && events[i].Changed? && events[j].Changed? ==>
      events[i].change.newFile != events[j].change.newFile && events[i].change.newJob != events[j].change.newJob
  }

  /** What there is to know about one path: nothing, or its file, its last content, and whether it is locked. */
  datatype Known = Unknown | Known(file: FileId, hash: Hash, locked: bool)

  /** The path's own little machine: a change is accepted when readable, not ignored, not locked and really new. */
  predicate Accepts(k: Known, p: PathName, e: Event) {
    e.Changed? && e.change.path == p && !e.change.ignored && e.change.hash.Some?
    && (k.Known? ==> !k.locked && k.hash != e.change.hash.value)
  }

  function Learn(k: Known, p: PathName, e: Event): Known {
    if Accepts(k, p, e) then Known(if k.Known? then k.file else e.change.newFile, e.change.hash.value, false)
    else if k.Known? && e.LockSet? && e.file == k.file then k.(locked := e.locked)
    else k
  }

  function KnownAt(events: seq<Event>, p: PathName, k: nat): Known
    requires k <= |events|
  {
    if k == 0 then Unknown else Learn(KnownAt(events, p, k - 1), p, events[k - 1])
  }

  /** What the accepted changes of a path come to: how many, the peer of each one's job, and how many from each node. */
  datatype Ledger = Ledger(count: nat, peers: map<JobId, Peer>, byNode: map<Node, nat>)

  function Enter(l: Ledger, c: Change): Ledger {
    Ledger(l.count + 1, l.peers[c.newJob := c.peer],
           l.byNode[c.node := 1 + if c.node in l.byNode then l.byNode[c.node] else 0])
  }

  function LedgerAt(events: seq<Event>, p: PathName, k: nat): Ledger
    requires k <= |events|
  {
    if k == 0 then Ledger(0, map[], map[])
    else
      var l := LedgerAt(events, p, k - 1);
      if Accepts(KnownAt(events, p, k - 1), p, events[k - 1]) then Enter(l, events[k - 1].change) else l
  }

  function JobsFor(s: Store, f: FileId): set<JobId> {
    set j | j in s.outbox && s.outbox[j].fileId == f
  }

  /** The jobs of the file are those of the accepted changes, queued for their peers. */
  ghost predicate JobsAre(s: Store, f: FileId, l: Ledger) {
    && |JobsFor(s, f)| == l.count
    && (forall j :: j in JobsFor(s, f) <==> j in l.peers)
    && forall j :: j in JobsFor(s, f) ==> s.outbox[j] == OutboxJob(j, f, l.peers[j], Queued, 0)
  }

  /** The clock counts the accepted changes of each node. */
  ghost predicate Counts(clock: Clock, byNode: map<Node, nat>) {
    forall n :: Reading(clock, n) == if n in byNode then byNode[n] else 0
  }

  /**
   The store says about a path what the path's own machine says: one file, with the last accepted content, whose clock
   counts the accepted changes node by node and whose queued jobs are theirs.
   */
  ghost predicate Mirrors(s: Store, p: PathName, k: Known, l: Ledger) {
    match k
    case Unknown => l == Ledger(0, map[], map[]) && forall f :: !TracksPath(s, f, p)
    case Known(f, hash, locked) =>
      && TracksPath(s, f, p) && (forall g :: TracksPath(s, g, p) ==> g == f)
      && s.tracked[f].hash == hash && s.tracked[f].state == (if locked then LockedByProcess else Pending)
      && Counts(s.tracked[f].clock, l.byNode) && JobsAre(s, f, l)
  }

  /** Every id in the store was handed out by an earlier event. */
  ghost predicate IdsFrom(s: Store, events: seq<Event>, k: nat)
    requires k <= |events|
  {
    && (forall f :: f in s.tracked ==> exists i :: 0 <= i < k && events[i].Changed? && events[i].change.newFile == f)
    && forall j :: j in s.outbox ==> exists i :: 0 <= i < k && events[i].Changed? && events[i].change.newJob == j
  }

  /** The atomic effect of one event, spelled out. */
  lemma {:induction false} CompleteEvent(s: Store, e: Event)
    requires Grounded(s)
    ensures var s' := Complete(s, HandlerFor(e));
            match e
            case LockSet(f, locked) =>
              s' == if f in s.tracked
                    then var state := if locked then LockedByProcess else Pending;
                         s.(tracked := s.tracked[f := s.tracked[f].(state := state)])
                    else s
            case Changed(c) =>
              var d := Decide(s, c);
              if d.None? then s' == s
              else d.value.PutTracked? && d.value.after.Some?
                   && s' == Store(s.tracked[d.value.tracked.fileId := d.value.tracked],
                                  s.outbox[d.value.after.value.jobId := d.value.after.value])
  {
    var h := HandlerFor(e);
    CompleteRead(s, h);
    var next := Exec(s, h).1;
    if next.Some? {
      CompletePut(s, next.value.tracked, next.value.after, next.value.bumped);
    }
  }

  lemma {:induction false} EventStaysGrounded(s: Store, e: Event)
    requires Grounded(s)
    ensures Grounded(Complete(s, HandlerFor(e)))
  {
    CompleteEvent(s, e);
    if e.Changed? {
      FoundIsTracked(s, e.change.path);
    }
  }

  lemma {:induction false} FindsKnown(s: Store, p: PathName, k: Known, l: Ledger)
    requires Mirrors(s, p, k, l)
    ensures k.Known? ==> IsFirst(s, p, k.file)
  {
  }

  lemma {:induction false} NoJobsYet(s: Store, f: FileId)
    requires Grounded(s) && f !in s.tracked
    ensures JobsFor(s, f) == {}
  {
  }

  /** One job more in the outbox, entered in its own file's ledger and in no other. */
  lemma {:induction false} JobEntered(s: Store, s': Store, c: Change, f: FileId, g: FileId, l: Ledger)
    requires c.newJob !in s.outbox && QueuesOne(s, s', c, f) && JobsAre(s, g, l)
    ensures JobsAre(s', g, if g == f then Enter(l, c) else l)
  {
    if g == f {
      assert JobsFor(s', g) == JobsFor(s, g) + {c.newJob};
    } else {
      assert JobsFor(s', g) == JobsFor(s, g);
    }
  }

  lemma {:induction false} FirstChangeMirrors(s: Store, s': Store, c: Change, l: Ledger)
    requires Grounded(s) && Mirrors(s, c.path, Unknown, l) && s' == Complete(s, ListForChange(c))
    requires c.newFile !in s.tracked && c.newJob !in s.outbox && !c.ignored && c.hash.Some?
    ensures Mirrors(s', c.path, Known(c.newFile, c.hash.value, false), Enter(l, c))
  {
    ChangeOfNewPath(s, c);
    NoJobsYet(s, c.newFile);
    JobEntered(s, s', c, c.newFile, c.newFile, l);
    forall g | TracksPath(s', g, c.path)
      ensures g == c.newFile
    {
      assert !TracksPath(s, g, c.path);
    }
  }

  lemma {:induction false} OwnChangeMirrors(s: Store, s': Store, c: Change, k: Known, l: Ledger)
    requires Grounded(s) && Mirrors(s, c.path, k, l) && s' == Complete(s, ListForChange(c))
    requires c.newFile !in s.tracked && c.newJob !in s.outbox
    ensures Mirrors(s', c.path, Learn(k, c.path, Changed(c)), if Accepts(k, c.path, Changed(c)) then Enter(l, c) else l)
  {
    match k
    case Unknown =>
      if Accepts(k, c.path, Changed(c)) {
        FirstChangeMirrors(s, s', c, l);
      } else {
        ChangeOfNewPath(s, c);
      }
    case Known(f, _, _) =>
      FindsKnown(s, c.path, k, l);
      ChangeOfKnownPath(s, c, f);
      if Accepts(k, c.path, Changed(c)) {
        JobEntered(s, s', c, f, f, l);
        assert forall g :: TracksPath(s', g, c.path) <==> TracksPath(s, g, c.path);
      }
  }

  /** What a change of any path does to the store, as far as other paths can tell. */
  lemma {:induction false} ChangeElsewhere(s: Store, s': Store, c: Change, p: PathName)
    requires Grounded(s) && s' == Complete(s, ListForChange(c)) && c.path != p && c.newFile !in s.tracked
    ensures forall g :: TracksPath(s', g, p) <==> TracksPath(s, g, p)
    ensures forall g :: TracksPath(s, g, p) ==> g in s'.tracked && s'.tracked[g] == s.tracked[g]
    ensures s'.outbox == s.outbox || exists f :: QueuesOne(s, s', c, f) && !TracksPath(s, f, p)
  {
    if forall g :: !TracksPath(s, g, c.path) {
      ChangeOfNewPath(s, c);
    } else {
      LeastTracked(s, c.path);
      var f :| TracksPath(s, f, c.path) && forall g :: TracksPath(s, g, c.path) ==> f <= g;
      ChangeOfKnownPath(s, c, f);
    }
  }

  lemma {:induction false} OtherChangeMirrors(s: Store, s': Store, c: Change, p: PathName, k: Known, l: Ledger)
    requires Grounded(s) && Mirrors(s, p, k, l) && s' == Complete(s, ListForChange(c)) && c.path != p
    requires c.newFile !in s.tracked && c.newJob !in s.outbox
    ensures Mirrors(s', p, k, l)
  {
    ChangeElsewhere(s, s', c, p);
    if k.Known? {
      if s'.outbox == s.outbox {
        assert JobsFor(s', k.file) == JobsFor(s, k.file);
      } else {
        var f :| QueuesOne(s, s', c, f) && !TracksPath(s, f, p);
        JobEntered(s, s', c, f, k.file, l);
      }
    }
  }

  lemma {:induction false} LockMirrors(s: Store, s': Store, f: FileId, locked: bool, p: PathName, k: Known, l: Ledger)
    requires Grounded(s) && Mirrors(s, p, k, l) && s' == Complete(s, HandlerFor(LockSet(f, locked)))
    ensures Mirrors(s', p, Learn(k, p, LockSet(f, locked)), l)
  {
    CompleteEvent(s, LockSet(f, locked));
    assert forall g :: TracksPath(s', g, p) <==> TracksPath(s, g, p);
    if k.Known? {
      assert JobsFor(s', k.file) == JobsFor(s, k.file);
    }
  }

  lemma {:induction false} EventKeepsIds(s: Store, events: seq<Event>, k: nat)
    requires k < |events| && Grounded(s) && IdsFrom(s, events, k)
    ensures IdsFrom(Complete(s, HandlerFor(events[k])), events, k + 1)
  {
    CompleteEvent(s, events[k]);
    if events[k].Changed? {
      FoundIsTracked(s, events[k].change.path);
    }
  }

  lemma {:induction false} IdsAt(events: seq<Event>, k: nat)
    requires k <= |events|
    ensures Grounded(StoreAt(events, k)) && IdsFrom(StoreAt(events, k), events, k)
  {
    if k > 0 {
      IdsAt(events, k - 1);
      EventStaysGrounded(StoreAt(events, k - 1), events[k - 1]);
      EventKeepsIds(StoreAt(events, k - 1), events, k - 1);
    }
  }

  lemma {:induction false} NewIdsAreFresh(s: Store, events: seq<Event>, k: nat)
    requires FreshIds(events) && k < |events| && IdsFrom(s, events, k) && events[k].Changed?
    ensures events[k].change.newFile !in s.tracked && events[k].change.newJob !in s.outbox
  {
  }

  /** One event, from the store `s` to `s'`, with everything the path's machine and its ledger do beside it. */
  ghost predicate EventStep(
    s: Store, s': Store, e: Event, p: PathName, known: Known, known': Known, l: Ledger, l': Ledger)
  {
    && s' == Complete(s, HandlerFor(e))
    && known' == Learn(known, p, e)
    && l' == if Accepts(known, p, e) then Enter(l, e.change) else l
  }

  lemma {:induction false} EventMirrors(
    s: Store, s': Store, e: Event, p: PathName, known: Known, known': Known, l: Ledger, l': Ledger)
    requires Grounded(s) && Mirrors(s, p, known, l) && EventStep(s, s', e, p, known, known', l, l')
    requires e.Changed? ==> e.change.newFile !in s.tracked && e.change.newJob !in s.outbox
    ensures Mirrors(s', p, known', l')
  {
    match e
    case Changed(c) =>
      if c.path == p {
        OwnChangeMirrors(s, s', c, known, l);
      } else {
        OtherChangeMirrors(s, s', c, p, known, l);
      }
    case LockSet(f, locked) => LockMirrors(s, s', f, locked, p, known, l);
  }

  lemma {:induction false} EventStepAt(events: seq<Event>, p: PathName, k: nat)
    requires k < |events|
    ensures EventStep(StoreAt(events, k), StoreAt(events, k + 1), events[k], p, KnownAt(events, p, k),
                      KnownAt(events, p, k + 1), LedgerAt(events, p, k), LedgerAt(events, p, k + 1))
  {
  }

  /**
   Conservation: after any changes and locks, each path has one file, with its last accepted content; the file's queued
   jobs are those of its accepted changes, one each, for their peers; and its clock counts them node by node.
   */
  lemma {:induction false} OneJobPerAcceptedChange(events: seq<Event>, p: PathName, k: nat)
    requires FreshIds(events) && k <= |events|
    ensures Mirrors(StoreAt(events, k), p, KnownAt(events, p, k), LedgerAt(events, p, k))
  {
    if k > 0 {
      var e, s := events[k - 1], StoreAt(events, k - 1);
      var known, l := KnownAt(events, p, k - 1), LedgerAt(events, p, k - 1);
      OneJobPerAcceptedChange(events, p, k - 1);
      IdsAt(events, k - 1);
      if e.Changed? {
        NewIdsAreFresh(s, events, k - 1);
      }
      EventStepAt(events, p, k - 1);
      EventMirrors(s, StoreAt(events, k), e, p, known, KnownAt(events, p, k), l, LedgerAt(events, p, k));
    }
  }
}
