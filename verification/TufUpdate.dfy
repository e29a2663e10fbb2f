/**
 Applying a staged update and rolling it back at the next start, on a file system that is a map from
 paths to files.  The machine may crash, or an operation fail, between any two effects.
 */
module TufUpdate {
  import opened Arithmetic
  import opened Wrappers

  type Content = seq<int>

  /** A directory and a name in it; a path to a directory itself has no file name. */
  datatype Path = Path(dir: string, name: string) {
    predicate HasFileName() {
      name != "" && name != ".."
    }
  }

  datatype File = File(content: Content, mtime: Option<nat>)

  type Files = map<Path, File>

  const ROLLBACK_GRACE_SECS: nat := 60
  const RESTART_SENTINEL: string := "restart-requested"

  datatype UpdateError = StagedMissing | Io

  /** Where the last dot stands; before the start if there is none. */
  function LastDot(s: string): (d: int)
    ensures -1 <= d < |s| && (d >= 0 ==> s[d] == '.')
    ensures forall i :: d < i < |s| ==> s[i] != '.'
  {
    if s == "" then -1
    else if s[|s| - 1] == '.' then |s| - 1
    else LastDot(s[..|s| - 1])
  }

  /** What follows the last dot, unless that dot is the first character. */
  function Extension(name: string): Option<string> {
    var d := LastDot(name);
    if d <= 0 then None else Some(name[d + 1..])
  }

  function Stem(name: string): string {
    var d := LastDot(name);
    if d <= 0 then name else name[..d]
  }

  function WithExtension(p: Path, ext: string): Path {
    if !p.HasFileName() then p
    else p.(name := Stem(p.name) + if ext == "" then "" else "." + ext)
  }

  /** The source's way to derive a path: the suffix joins the extension, or becomes it. */
  function WithSuffix(p: Path, suffix: string): Path {
    WithExtension(p, match Extension(p.name) case Some(e) => e + "." + suffix case None => suffix)
  }

  function BackupOf(p: Path): Path { WithSuffix(p, "prev") }

  function NewOf(p: Path): Path { WithSuffix(p, "new") }

  function SentinelIn(dataDir: string): Path { Path(dataDir, RESTART_SENTINEL) }

  lemma {:induction false} SplitAtDot(name: string, d: nat)
    requires d < |name| && name[d] == '.'
    ensures name == name[..d] + "." + name[d + 1..]
  {
  }

  lemma {:induction false} SuffixJoins(stem: string, ext: string, suffix: string)
    ensures stem + ("." + (ext + "." + suffix)) == (stem + "." + ext) + "." + suffix
  {
  }

  /** Whatever dots the name has, the suffix ends up behind all of it. */
  lemma {:induction false} SuffixIsAppended(p: Path, suffix: string)
    requires p.HasFileName() && suffix != ""
    ensures WithSuffix(p, suffix) == Path(p.dir, p.name + "." + suffix)
  {
    var d := LastDot(p.name);
    if d > 0 {
      SplitAtDot(p.name, d);
      SuffixJoins(p.name[..d], p.name[d + 1..], suffix);
    } else {
      assert p.name + ("." + suffix) == p.name + "." + suffix;
    }
  }

  lemma {:induction false} DotJoins(name: string, suffix: string)
    ensures name + "." + suffix == name + ("." + suffix)
  {
  }

  lemma {:induction false} EndsDiffer(name: string)
    ensures name != name + ".prev" && name != name + ".new" && name + ".prev" != name + ".new"
    ensures RESTART_SENTINEL != name + ".prev" && RESTART_SENTINEL != name + ".new"
  {
    var b, n := name + ".prev", name + ".new";
    assert |b| == |name| + 5 && b[|b| - 1] == 'v';
    assert |n| == |name| + 4 && n[|n| - 1] == 'w';
    assert RESTART_SENTINEL[|RESTART_SENTINEL| - 1] == 'd';
  }

  /**
   Binary, backup and intermediate path are three files, in the same directory, and the last two are never a sentinel.
   */
  lemma {:induction false} SuffixesDiffer(p: Path)
    requires p.HasFileName()
    ensures BackupOf(p) == Path(p.dir, p.name + ".prev") && NewOf(p) == Path(p.dir, p.name + ".new")
    ensures p != BackupOf(p) && p != NewOf(p) && BackupOf(p) != NewOf(p)
    ensures forall dir :: SentinelIn(dir) != BackupOf(p) && SentinelIn(dir) != NewOf(p)
  {
    SuffixIsAppended(p, "prev");
    SuffixIsAppended(p, "new");
    DotJoins(p.name, "prev");
    DotJoins(p.name, "new");
    EndsDiffer(p.name);
  }

  // ---- Effects --------------------------------------------------------------------------------

  datatype Op =
    | Rename(source: Path, target: Path)
    | Remove(path: Path)
    | CreateDirs
    | Write(path: Path, content: Content, at: nat)
    | RecordUpdate

  function Apply(files: Files, op: Op): Files {
    match op
    case Rename(source, target) =>
      if source in files then (files - {source})[target := files[source]] else files
    case Write(path, content, at) => files[path := File(content, Some(at))]
    case Remove(path) => files - {path}
    case CreateDirs => files
    case RecordUpdate => files
  }

  function ApplyAll(files: Files, ops: seq<Op>): Files {
    if ops == [] then files else Apply(ApplyAll(files, ops[..|ops| - 1]), ops[|ops| - 1])
  }

  /** One update: which binary, from where, and what the sentinel says. */
  datatype Update = Update(staged: Path, current: Path, dataDir: Option<string>, version: Content, now: nat) {
    /** The binary has a name, and the staged file is none of the files the update works on. */
    predicate Separate() {
      && current.HasFileName()
      && staged !in {current, BackupOf(current), NewOf(current)}
      && (dataDir.Some? ==> Clear(dataDir.value))
    }

    /** Neither binary is the sentinel of this directory. */
    predicate Clear(dir: string) {
      SentinelIn(dir) != staged && SentinelIn(dir) != current
    }

    function SwapOps(files: Files): seq<Op> {
      (if current in files then [Rename(current, BackupOf(current))] else [])
      + [Rename(staged, NewOf(current)), Rename(NewOf(current), current)]
    }

    function FinishOps(): seq<Op> {
      (if dataDir.Some? then [CreateDirs, Write(SentinelIn(dataDir.value), version, now)] else []) + [RecordUpdate]
    }

    /** The effects of a whole apply, in order. */
    function Ops(files: Files): seq<Op> {
      SwapOps(files) + FinishOps()
    }
  }

  /** The disk when `k` effects have happened. */
  function CrashState(files: Files, u: Update, k: nat): Files {
    ApplyAll(files, u.Ops(files)[..Min(k, |u.Ops(files)|)])
  }

  lemma {:induction false} OneMoreOf(files: Files, ops: seq<Op>, n: nat)
    requires n < |ops|
    ensures ApplyAll(files, ops[..n + 1]) == Apply(ApplyAll(files, ops[..n]), ops[n])
  {
    assert ops[..n + 1][..n] == ops[..n];
  }

  lemma {:induction false} OneEffectMore(files: Files, u: Update, n: nat)
    requires n < |u.Ops(files)|
    ensures CrashState(files, u, n + 1) == Apply(CrashState(files, u, n), u.Ops(files)[n])
  {
    OneMoreOf(files, u.Ops(files), n);
  }

  /** The disk after each effect of the swap, spelled out. */
  lemma {:induction false} SwapStates(files: Files, u: Update)
    requires u.Separate() && u.staged in files
    ensures var had := u.current in files;
            var kept := if had then (files - {u.current})[BackupOf(u.current) := files[u.current]] else files;
            var moved := (kept - {u.staged})[NewOf(u.current) := files[u.staged]];
            var s := if had then 1 else 0;
            && |u.SwapOps(files)| == s + 2
            && CrashState(files, u, 0) == files
            && CrashState(files, u, s) == kept
            && CrashState(files, u, s + 1) == moved
            && CrashState(files, u, s + 2) == (moved - {NewOf(u.current)})[u.current := files[u.staged]]
  {
    SuffixesDiffer(u.current);
    var s := if u.current in files then 1 else 0;
    assert u.Ops(files)[..0] == [];
    if s == 1 {
      OneEffectMore(files, u, 0);
    }
    OneEffectMore(files, u, s);
    OneEffectMore(files, u, s + 1);
  }

  class Updater {
    var files: Files
    var updatePending: bool
    /** How many more effects succeed before the crash or the first error. */
    var budget: nat

    constructor (files: Files, budget: nat)
      ensures this.files == files && this.budget == budget && !updatePending
    {
      this.files := files;
      this.budget := budget;
      updatePending := false;
    }

    /** One effect, the `n`-th of update `u` on the disk `before`; it happens whole or not at all. */
    method Do(op: Op, ghost before: Files, ghost u: Update, ghost n: nat) returns (ok: bool)
      requires n < |u.Ops(before)| && u.Ops(before)[n] == op && files == CrashState(before, u, n)
      requires op.Rename? ==> op.source in files
      modifies `files, `budget
      ensures ok <==> old(budget) > 0
      ensures if ok then files == CrashState(before, u, n + 1) && budget == old(budget) - 1
              else files == old(files) && budget == 0
    {
      OneEffectMore(before, u, n);
      if budget == 0 {
        return false;
      }
      budget := budget - 1;
      match op {
        case Rename(source, target) =>
          var file := files[source];
          files := files - {source};
          files := files[target := file];
        case Write(path, content, at) =>
          files := files[path := File(content, Some(at))];
        case Remove(path) =>
          files := files - {path};
        case CreateDirs =>
        case RecordUpdate =>
      }
      return true;
    }

    /** Moves the old binary aside and the staged one into its place. */
    method Swap(u: Update) returns (ok: bool)
      requires u.Separate() && u.staged in files
      modifies `files, `budget
      ensures var n := |u.SwapOps(old(files))|;
              && (ok <==> old(budget) >= n)
              && files == CrashState(old(files), u, if ok then n else old(budget))
              && (ok ==> budget == old(budget) - n)
    {
      ghost var before, s := files, if u.current in files then 1 else 0;
      SwapStates(before, u);
      SuffixesDiffer(u.current);
      ok := true;
      if u.current in files {
        ok := Do(Rename(u.current, BackupOf(u.current)), before, u, 0);
        if !ok {
          return;
        }
      }
      ok := Do(Rename(u.staged, NewOf(u.current)), before, u, s);
      if !ok {
        return;
      }
      ok := Do(Rename(NewOf(u.current), u.current), before, u, s + 1);
    }

    /**
     The whole apply: the effects happen in order, up to the first that fails, which is the only way to report an
     error.
     */
    method ApplyUpdate(u: Update) returns (r: Result<(), UpdateError>)
      requires u.Separate()
      modifies this
      ensures u.staged !in old(files) ==> r == Err(StagedMissing) && files == old(files)
      ensures u.staged in old(files) ==>
                && files == CrashState(old(files), u, old(budget))
                && (if old(budget) >= |u.Ops(old(files))| then r == Ok(()) else r == Err(Io))
      ensures updatePending == (old(updatePending) || r.Ok?)
    {
      if u.staged !in files {
        return Err(StagedMissing);
      }
      ghost var before, n := files, |u.SwapOps(files)|;
      var ok := Swap(u);
      if !ok {
        return Err(Io);
      }
      if u.dataDir.Some? {
        ok := Do(CreateDirs, before, u, n);
        if !ok {
          return Err(Io);
        }
        ok := Do(Write(SentinelIn(u.dataDir.value), u.version, u.now), before, u, n + 1);
        if !ok {
          return Err(Io);
        }
        n := n + 2;
      }
      ok := Do(RecordUpdate, before, u, n);
      if !ok {
        return Err(Io);
      }
      updatePending := true;
      return Ok(());
    }
  }

  // ---- Rollback -------------------------------------------------------------------------------

  predicate WithinGrace(f: File, now: nat) {
    f.mtime.Some? && SaturatingSub(now, f.mtime.value) < ROLLBACK_GRACE_SECS
  }

  /** The disk after the start-up check, and whether it rolled back. */
  function Rollback(files: Files, current: Path, dataDir: string, now: nat): (Files, bool) {
    var sentinel, backup := SentinelIn(dataDir), BackupOf(current);
    if sentinel !in files then (files, false)
    else if backup !in files then (files - {sentinel}, false)
    else if WithinGrace(files[sentinel], now) then
      (Apply(files, Rename(backup, current)) - {sentinel}, true)
    else (files - {sentinel} - {backup}, false)
  }

  function Lookup(disk: Files, p: Path): Option<File> {
    if p in disk then Some(disk[p]) else None
  }

  /** A removal, unless the file cannot be removed; the source ignores that. */
  function Removal(p: Path, stuck: set<Path>): seq<Op> {
    if p in stuck then [] else [Remove(p)]
  }

  /** The effects of the check, in order, when the files in `stuck` cannot be removed. */
  function CheckOps(files: Files, current: Path, dataDir: string, now: nat, stuck: set<Path>): seq<Op> {
    var sentinel, backup := SentinelIn(dataDir), BackupOf(current);
    if sentinel !in files then []
    else if backup !in files then Removal(sentinel, stuck)
    else if WithinGrace(files[sentinel], now) then [Rename(backup, current)] + Removal(sentinel, stuck)
    else Removal(sentinel, stuck) + Removal(backup, stuck)
  }

  class Startup {
    var files: Files
    /** How many more effects happen before the crash, or before the renaming fails. */
    var budget: nat
    const stuck: set<Path>

    constructor (files: Files, budget: nat, stuck: set<Path>)
      ensures this.files == files && this.budget == budget && this.stuck == stuck
    {
      this.files := files;
      this.budget := budget;
      this.stuck := stuck;
    }

    /** The `n`-th of the effects `ops` on the disk `before`. */
    method Do(op: Op, ghost before: Files, ghost ops: seq<Op>, ghost n: nat) returns (ok: bool)
      requires n < |ops| && ops[n] == op && files == ApplyAll(before, ops[..n])
      requires op.Remove? || (op.Rename? && op.source in files)
      modifies `files, `budget
      ensures ok <==> old(budget) > 0
      ensures if ok then files == ApplyAll(before, ops[..n + 1]) && budget == old(budget) - 1
              else files == old(files) && budget == 0
    {
      OneMoreOf(before, ops, n);
      if budget == 0 {
        return false;
      }
      budget := budget - 1;
      match op {
        case Rename(source, target) =>
          var file := files[source];
          files := files - {source};
          files := files[target := file];
        case Remove(path) =>
          files := files - {path};
      }
      return true;
    }

    /** Removes a file if it can be removed. */
    method Discard(p: Path, ghost before: Files, ghost ops: seq<Op>, ghost n: nat) returns (ok: bool)
      requires n <= |ops| && files == ApplyAll(before, ops[..n]) && Removal(p, stuck) <= ops[n..]
      modifies `files, `budget
      ensures var done := |Removal(p, stuck)|;
              && (ok <==> old(budget) >= done)
              && n + done <= |ops|
              && (if ok then files == ApplyAll(before, ops[..n + done]) && budget == old(budget) - done
                  else files == old(files) && budget == 0)
    {
      if p in stuck {
        return true;
      }
      assert ops[n..][0] == Remove(p);
      ok := Do(Remove(p), before, ops, n);
    }

    /** Within the grace: the backup goes back to the binary's path. */
    method Restore(backup: Path, current: Path, sentinel: Path, ghost ops: seq<Op>) returns (ok: bool)
      requires ops == [Rename(backup, current)] + Removal(sentinel, stuck) && backup in files
      modifies `files, `budget
      ensures files == ApplyAll(old(files), ops[..Min(old(budget), |ops|)]) && (ok <==> old(budget) >= |ops|)
    {
      ghost var before := files;
      assert ops[..0] == [] && ops[1..] == Removal(sentinel, stuck);
      ok := Do(Rename(backup, current), before, ops, 0);
      if ok {
        ok := Discard(sentinel, before, ops, 1);
      }
    }

    /** After the grace: sentinel and backup are discarded. */
    method Keep(backup: Path, sentinel: Path, ghost ops: seq<Op>) returns (ok: bool)
      requires ops == Removal(sentinel, stuck) + Removal(backup, stuck)
      modifies `files, `budget
      ensures files == ApplyAll(old(files), ops[..Min(old(budget), |ops|)]) && (ok <==> old(budget) >= |ops|)
    {
      ghost var before, n := files, |Removal(sentinel, stuck)|;
      assert ops[..0] == [] && ops[0..] == ops && ops[n..] == Removal(backup, stuck);
      ok := Discard(sentinel, before, ops, 0);
      if ok {
        ok := Discard(backup, before, ops, n);
      }
    }

    /** The check: its effects happen in order, up to the crash; `None` if it does not come to its end. */
    method CheckRollback(current: Path, dataDir: string, now: nat) returns (rolledBack: Option<bool>)
      modifies this
      ensures var ops := CheckOps(old(files), current, dataDir, now, stuck);
              && files == ApplyAll(old(files), ops[..Min(old(budget), |ops|)])
              && rolledBack == if old(budget) < |ops| then None
                               else Some(Rollback(old(files), current, dataDir, now).1)
    {
      var sentinel := SentinelIn(dataDir);
      ghost var ops := CheckOps(files, current, dataDir, now, stuck);
      if sentinel !in files {
        return Some(false);
      }
      var backup := BackupOf(current);
      var ok: bool;
      if backup !in files {
        assert ops[..0] == [] && ops[0..] == ops;
        ok := Discard(sentinel, files, ops, 0);
        return if ok then Some(false) else None;
      }
      var mtime := files[sentinel].mtime;
      var withinGrace := match mtime
        case Some(m) => SaturatingSub(now, m) < ROLLBACK_GRACE_SECS
        case None => false;
      if withinGrace {
        ok := Restore(backup, current, sentinel, ops);
        return if ok then Some(true) else None;
      }
      ok := Keep(backup, sentinel, ops);
      return if ok then Some(false) else None;
    }
  }

  // ---- A check that is interrupted ------------------------------------------------------------

  /** The disk when `j` effects of a check have happened. */
  function PartlyChecked(files: Files, current: Path, dataDir: string, now: nat, stuck: set<Path>, j: nat): Files {
    var ops := CheckOps(files, current, dataDir, now, stuck);
    ApplyAll(files, ops[..Min(j, |ops|)])
  }

  lemma {:induction false} PartlyCheckedStates(
    files: Files, current: Path, dataDir: string, now: nat, stuck: set<Path>, j: nat)
    ensures var partial := PartlyChecked(files, current, dataDir, now, stuck, j);
            var ops := CheckOps(files, current, dataDir, now, stuck);
            && |ops| <= 2
            && partial == if j == 0 || |ops| == 0 then files
                          else if j == 1 || |ops| == 1 then Apply(files, ops[0])
                          else Apply(Apply(files, ops[0]), ops[1])
  {
    var ops := CheckOps(files, current, dataDir, now, stuck);
    assert ops[..0] == [];
    if |ops| > 0 {
      OneMoreOf(files, ops, 0);
    }
    if |ops| > 1 {
      OneMoreOf(files, ops, 1);
    }
  }

  /** With nothing stuck and no crash, the effects together are the check. */
  lemma {:induction false} CheckIsItsEffects(files: Files, current: Path, dataDir: string, now: nat, j: nat)
    requires current.HasFileName() && SentinelIn(dataDir) != current && j >= 2
    ensures PartlyChecked(files, current, dataDir, now, {}, j) == Rollback(files, current, dataDir, now).0
  {
    PartlyCheckedStates(files, current, dataDir, now, {}, j);
    SuffixesDiffer(current);
  }

  /**
   A check that crashed, or could not remove a file, and another one later: together they are one whole check, run at
   the time of the first if that had any effect, except that the backup may be left behind.
   */
  lemma {:induction false} CheckAgain(
    files: Files, current: Path, dataDir: string, now: nat, stuck: set<Path>, j: nat, later: nat)
    requires current.HasFileName() && SentinelIn(dataDir) != current
    ensures var partial := PartlyChecked(files, current, dataDir, now, stuck, j);
            var again := Rollback(partial, current, dataDir, later).0;
            var whole := Rollback(files, current, dataDir, if partial == files then later else now).0;
            && Lookup(again, current) == Lookup(whole, current) && SentinelIn(dataDir) !in again
            && (|| again == whole
                || (BackupOf(current) in files && again == whole[BackupOf(current) := files[BackupOf(current)]]))
  {
    PartlyCheckedStates(files, current, dataDir, now, stuck, j);
    SuffixesDiffer(current);
  }

  /**
   So a crash amid the check changes the binary exactly when nothing had happened yet, the grace begins or ends between
   the two checks, and there is a backup that differs from the binary.
   */
  lemma {:induction false} CheckAgainSameBinaryIff(
    files: Files, current: Path, dataDir: string, now: nat, stuck: set<Path>, j: nat, later: nat)
    requires current.HasFileName() && SentinelIn(dataDir) != current
    ensures var partial := PartlyChecked(files, current, dataDir, now, stuck, j);
            var sentinel, backup := SentinelIn(dataDir), BackupOf(current);
            Lookup(Rollback(partial, current, dataDir, later).0, current)
            == Lookup(Rollback(files, current, dataDir, now).0, current)
            <==> !(&& partial == files && sentinel in files && backup in files
                   && WithinGrace(files[sentinel], now) != WithinGrace(files[sentinel], later)
                   && Lookup(files, backup) != Lookup(files, current))
  {
    CheckAgain(files, current, dataDir, now, stuck, j, later);
    SuffixesDiffer(current);
  }

  // ---- What survives --------------------------------------------------------------------------

  /** The path holds this very file, whole. */
  predicate Holds(disk: Files, p: Path, file: File) {
    p in disk && disk[p] == file
  }

  /** The effects after the swap touch nothing but the sentinel. */
  lemma {:induction false} LateStates(files: Files, u: Update, k: nat)
    requires u.Separate() && u.staged in files && k >= |u.SwapOps(files)|
    ensures var n := |u.SwapOps(files)|;
            var swapped := CrashState(files, u, n);
            CrashState(files, u, k)
            == if u.dataDir.Some? && k >= n + 2
               then swapped[SentinelIn(u.dataDir.value) := File(u.version, Some(u.now))]
               else swapped
  {
    var n, all := |u.SwapOps(files)|, |u.Ops(files)|;
    assert u.Ops(files)[n..] == u.FinishOps();
    OneEffectMore(files, u, n);
    if u.dataDir.Some? {
      OneEffectMore(files, u, n + 1);
      OneEffectMore(files, u, n + 2);
    }
    assert k >= all ==> CrashState(files, u, k) == CrashState(files, u, all);
  }

  /**
   At every crash point the old binary is whole, at its own path or at the backup, the binary's path never holds a
   mixture, and the new one is whole somewhere too.
   */
  lemma {:induction false} CrashSafe(files: Files, u: Update, k: nat)
    requires u.Separate() && u.staged in files && u.current in files
    ensures var disk := CrashState(files, u, k);
            && (Holds(disk, u.current, files[u.current]) || Holds(disk, BackupOf(u.current), files[u.current]))
            && (u.current in disk ==> disk[u.current] == files[u.current] || disk[u.current] == files[u.staged])
            && (|| Holds(disk, u.staged, files[u.staged])
                || Holds(disk, NewOf(u.current), files[u.staged])
                || Holds(disk, u.current, files[u.staged]))
  {
    SwapStates(files, u);
    SuffixesDiffer(u.current);
    if k >= 3 {
      LateStates(files, u, k);
    }
  }

  /**
   When the check rolls back: sentinel and backup are there, and the sentinel's time is known and less than a minute
   ago, or in the future.
   */
  lemma {:induction false} RollsBackIff(files: Files, current: Path, dataDir: string, now: nat)
    ensures var sentinel := Path(dataDir, "restart-requested");
            Rollback(files, current, dataDir, now).1
            <==> && sentinel in files && BackupOf(current) in files && files[sentinel].mtime.Some?
                 && now < files[sentinel].mtime.value + 60
  {
  }

  /** A second check, whenever it runs, changes nothing. */
  lemma {:induction false} CheckTwice(files: Files, current: Path, dataDir: string, now: nat, later: nat)
    requires SentinelIn(dataDir) != current
    ensures var once := Rollback(files, current, dataDir, now).0;
            Rollback(once, current, dataDir, later) == (once, false)
  {
  }

  /** The sentinel when `k` effects have happened: the update's own from the write on, before it whatever was there. */
  function SentinelAfter(files: Files, u: Update, dir: string, k: nat): Option<File> {
    if u.dataDir.Some? && k >= |u.SwapOps(files)| + 2 then Some(File(u.version, Some(u.now)))
    else Lookup(files, SentinelIn(dir))
  }

  predicate Recent(sentinel: Option<File>, now: nat) {
    sentinel.Some? && WithinGrace(sentinel.value, now)
  }

  /** The check runs on the update's directory, if it has one, and finds no binary under the sentinel's name. */
  predicate Checkable(files: Files, u: Update, dir: string) {
    u.Separate() && u.staged in files && u.Clear(dir) && (u.dataDir.Some? ==> u.dataDir.value == dir)
  }

  function Checked(files: Files, u: Update, dir: string, k: nat, later: nat): Files {
    Rollback(CrashState(files, u, k), u.current, dir, later).0
  }

  /** The disk at a crash point, path by path. */
  lemma {:induction false} AtCrash(files: Files, u: Update, dir: string, k: nat)
    requires Checkable(files, u, dir)
    ensures var disk, had := CrashState(files, u, k), u.current in files;
            && Lookup(disk, SentinelIn(dir)) == SentinelAfter(files, u, dir, k)
            && Lookup(disk, BackupOf(u.current))
               == Lookup(files, if had && k >= 1 then u.current else BackupOf(u.current))
            && Lookup(disk, u.current)
               == if k >= |u.SwapOps(files)| then Lookup(files, u.staged)
                  else if k == 0 then Lookup(files, u.current) else None
  {
    SwapStates(files, u);
    SuffixesDiffer(u.current);
    if k >= |u.SwapOps(files)| {
      LateStates(files, u, k);
    }
  }

  /**
   Every crash point of every update on every disk, checked at any later time: what is at the binary's path and at
   its backup, the sentinel gone, and every other file as the crash left it.
   */
  lemma {:induction false} CrashThenCheck(files: Files, u: Update, dir: string, k: nat, later: nat)
    requires Checkable(files, u, dir)
    ensures var disk := Checked(files, u, dir, k, later);
            var sentinel := SentinelAfter(files, u, dir, k);
            var moved := if u.current in files && k >= 1 then u.current else BackupOf(u.current);
            && Lookup(disk, u.current)
               == (if Recent(sentinel, later) && moved in files then Lookup(files, moved)
                   else if k >= |u.SwapOps(files)| then Lookup(files, u.staged)
                   else if k == 0 then Lookup(files, u.current) else None)
            && Lookup(disk, BackupOf(u.current)) == (if sentinel.Some? then None else Lookup(files, moved))
            && SentinelIn(dir) !in disk
            && forall p | p !in {u.current, BackupOf(u.current), SentinelIn(dir)} ::
                 Lookup(disk, p) == Lookup(CrashState(files, u, k), p)
  {
    AtCrash(files, u, dir, k);
    SuffixesDiffer(u.current);
  }

  /**
   The check leaves no binary at the path exactly when the crash fell between moving the old one away and putting the
   new one in place, unless an older sentinel within its grace makes the check restore a backup.
   */
  lemma {:induction false} PathEmptyIff(files: Files, u: Update, dir: string, k: nat, later: nat)
    requires Checkable(files, u, dir)
    ensures var restores := Recent(Lookup(files, SentinelIn(dir)), later);
            u.current !in Checked(files, u, dir, k, later)
            <==> if u.current in files then 1 <= k <= 2 && !restores
                 else k <= 1 && !(restores && BackupOf(u.current) in files)
  {
    CrashThenCheck(files, u, dir, k, later);
    SwapStates(files, u);
  }

  /**
   When the old binary is still at its path or at the backup after the check.  A crash before the first rename can
   bring an even older backup over it; later, an expired sentinel costs the backup.
   */
  lemma {:induction false} OldBinarySurvivesIff(files: Files, u: Update, dir: string, k: nat, later: nat)
    requires Checkable(files, u, dir) && u.current in files
    ensures var disk, before := Checked(files, u, dir, k, later), files[u.current];
            var sentinel := SentinelAfter(files, u, dir, k);
            Holds(disk, u.current, before) || Holds(disk, BackupOf(u.current), before)
            <==> if k == 0 then
                   Recent(sentinel, later) && BackupOf(u.current) in files ==> files[BackupOf(u.current)] == before
                 else sentinel.None? || Recent(sentinel, later) || (k >= 3 && files[u.staged] == before)
  {
    CrashThenCheck(files, u, dir, k, later);
    SwapStates(files, u);
  }

  /**
   The worst case: neither path nor backup holds anything, exactly when the sentinel of an earlier update has expired.
   */
  lemma {:induction false} NothingLeftIff(files: Files, u: Update, dir: string, k: nat, later: nat)
    requires Checkable(files, u, dir) && u.current in files
    ensures var older := Lookup(files, SentinelIn(dir));
            u.current !in Checked(files, u, dir, k, later) && BackupOf(u.current) !in Checked(files, u, dir, k, later)
            <==> 1 <= k <= 2 && older.Some? && !Recent(older, later)
  {
    CrashThenCheck(files, u, dir, k, later);
    SwapStates(files, u);
  }

  /**
   A completed update, then a second one before any restart that crashes amid its renames: a check past the first one's
   grace leaves neither binary.
   */
  lemma {:induction false} SecondUpdateCanLoseBoth(
    files: Files, u: Update, again: Update, dir: string, k: nat, later: nat)
    requires Checkable(files, u, dir) && u.dataDir.Some? && again.current == u.current
    requires var once := CrashState(files, u, |u.Ops(files)|);
             Checkable(once, again, dir) && 1 <= k <= 2 && SaturatingSub(later, u.now) >= ROLLBACK_GRACE_SECS
    ensures var disk := Checked(CrashState(files, u, |u.Ops(files)|), again, dir, k, later);
            u.current !in disk && BackupOf(u.current) !in disk
  {
    AtCrash(files, u, dir, |u.Ops(files)|);
    NothingLeftIff(CrashState(files, u, |u.Ops(files)|), again, dir, k, later);
  }

  /**
   A completed update, checked at the next start: within the grace period the old binary is back, later the new one
   stays.
   */
  lemma {:induction false} ApplyThenCheck(files: Files, u: Update, k: nat, later: nat)
    requires u.Separate() && u.staged in files && u.current in files && u.dataDir.Some?
    requires k >= |u.Ops(files)|
    ensures var (disk, rolledBack) := Rollback(CrashState(files, u, k), u.current, u.dataDir.value, later);
            && (rolledBack <==> SaturatingSub(later, u.now) < ROLLBACK_GRACE_SECS)
            && u.current in disk && disk[u.current] == (if rolledBack then files[u.current] else files[u.staged])
            && SentinelIn(u.dataDir.value) !in disk && BackupOf(u.current) !in disk
  {
    AtCrash(files, u, u.dataDir.value, k);
    SuffixesDiffer(u.current);
  }

  /**
   On a disk without an older sentinel, within the grace: the old binary is back exactly when the crash came before
   the first rename or after the sentinel was written, and the path is empty exactly when it came between the first
   rename and the third.
   */
  lemma {:induction false} CheckAfterCrash(files: Files, u: Update, k: nat, later: nat)
    requires u.Separate() && u.staged in files && u.current in files && u.dataDir.Some?
    requires SentinelIn(u.dataDir.value) !in files && files[u.current] != files[u.staged]
    requires SaturatingSub(later, u.now) < ROLLBACK_GRACE_SECS
    ensures var disk := Rollback(CrashState(files, u, k), u.current, u.dataDir.value, later).0;
            && (u.current in disk && disk[u.current] == files[u.current] <==> k == 0 || k >= 5)
            && (u.current !in disk <==> 1 <= k <= 2)
  {
    CrashThenCheck(files, u, u.dataDir.value, k, later);
    SwapStates(files, u);
  }
}
