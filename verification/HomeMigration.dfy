/** The migration of the configuration directory by any number of processes, each of which may fail or crash at any
    step (migrateHome, removeStaging and copyTree in internal/config/home.go). */
module HomeMigration {
  import opened Wrappers

  datatype Entry =
    | Directory(path: string, mode: nat)
    | Link(path: string, to: string)
    | File(path: string, mode: nat, content: string)
    | Special(path: string)

  predicate IsLock(path: string) { |path| >= 5 && path[|path| - 5..] == ".lock" }

  predicate IsCopied(e: Entry) { !e.Special? && (e.File? ==> !IsLock(e.path)) }

  /** What `copyTree` makes of the entries of a tree, in the order they are walked. */
  function Copied(tree: seq<Entry>): seq<Entry> {
    if tree == [] then []
    else Copied(tree[..|tree| - 1]) + if IsCopied(tree[|tree| - 1]) then [tree[|tree| - 1]] else []
  }

  lemma {:induction false} CopiedConcat(a: seq<Entry>, b: seq<Entry>)
    ensures Copied(a + b) == Copied(a) + Copied(b)
    decreases |b|
  {
    if b == [] {
      assert a + b == a;
    } else {
      var front, last := b[..|b| - 1], b[|b| - 1];
      assert (a + b)[..|a + b| - 1] == a + front && (a + b)[|a + b| - 1] == last;
      CopiedConcat(a, front);
    }
  }

  /** A copy has every directory and link and every file but locks, as it was and in its place, and nothing else. */
  lemma {:induction false} CopiedExactly(tree: seq<Entry>, e: Entry)
    ensures e in Copied(tree) <==>
            e in tree && (e.Directory? || e.Link? || (e.File? && (|e.path| < 5 || e.path[|e.path| - 5..] != ".lock")))
  {
    if tree != [] {
      var front, last := tree[..|tree| - 1], tree[|tree| - 1];
      assert tree == front + [last];
      CopiedExactly(front, e);
    }
  }

  /** The directory an entry lies in, "" for the tree itself. */
  function ParentOf(path: string): string {
    if path == "" then ""
    else if path[|path| - 1] == '/' then path[..|path| - 1]
    else ParentOf(path[..|path| - 1])
  }

  /** Whether the permissions let the owner write and search (bits 0200 and 0100). */
  predicate OwnerCreates(mode: nat) { mode / 128 % 2 == 1 && mode / 64 % 2 == 1 }

  /** Whether an entry can be created in the copy: `os.Mkdir` has made the directory it lies in with the
      permissions of the original. */
  predicate CanCopy(tree: seq<Entry>, at: nat)
    requires at < |tree|
  {
    IsCopied(tree[at]) ==>
      forall k | 0 <= k < at && tree[k].Directory? && tree[k].path == ParentOf(tree[at].path) :: OwnerCreates(tree[k].mode)
  }

  predicate Copyable(tree: seq<Entry>, upTo: nat)
    requires upTo <= |tree|
  {
    forall at: nat | at < upTo :: CanCopy(tree, at)
  }

  /** Where a process is in `migrateHome`, once it saw the legacy directory and no target. All but the first
      hold the lock. */
  datatype Phase =
    | Waiting
    | Locked
    | Clearing(listed: set<string>)
    | Copying(staging: string, done: nat)
    | Cleaning(staging: string)
    | Renamed

  datatype Report = Nothing | Migrated | Failed

  /** The directory of the ecosystem and its processes. `winner` is who made the target visible. */
  datatype World = World(target: Option<seq<Entry>>, staging: map<string, seq<Entry>>, lock: Option<nat>,
                         running: map<nat, Phase>, reports: map<nat, Report>, winner: Option<nat>)

  /** A crash, or a copy or removal that fails half-way, leaves a staging directory with anything in it. */
  datatype Step =
    | Arrive(p: nat)
    | Lock(p: nat)
    | Recheck(p: nat)
    | RemoveSome(p: nat, name: string, left: seq<Entry>)
    | Remove(p: nat, name: string)
    | Make(p: nat, name: string)
    | Copy(p: nat)
    | CopyFails(p: nat, left: seq<Entry>)
    | Rename(p: nat)
    | RenameFails(p: nat)
    | Clean(p: nat)
    | CleanFails(p: nat, left: seq<Entry>)
    | Return(p: nat)
    | Fail(p: nat)
    | Crash(p: nat, left: seq<Entry>)

  function Leave(w: World, p: nat, report: Report): World {
    w.(running := w.running - {p}, reports := w.reports[p := report], lock := if w.lock == Some(p) then None else w.lock)
  }

  function Enter(w: World, p: nat, phase: Phase): World { w.(running := w.running[p := phase]) }

  /** The staging directory a process works on. */
  function StagingOf(phase: Phase): Option<string> {
    match phase
    case Copying(name, _) => Some(name)
    case Cleaning(name) => Some(name)
    case _ => None
  }

  /** One step, or None where it cannot be taken. */
  function Apply(legacy: Option<seq<Entry>>, w: World, step: Step): Option<World> {
    if step.Arrive? then
      if step.p in w.running || step.p in w.reports then None
      else if w.target.Some? || legacy.None? then Some(Leave(w, step.p, Nothing))
      else Some(Enter(w, step.p, Waiting))
    else if step.p !in w.running || legacy.None? then None
    else Advance(legacy.value, w, step, w.running[step.p])
  }

  function Advance(legacy: seq<Entry>, w: World, step: Step, phase: Phase): Option<World>
    requires !step.Arrive?
  {
    var p := step.p;
    match (step, phase)
    case (Lock(_), Waiting) =>
      if w.lock.None? then Some(Enter(w, p, Locked).(lock := Some(p))) else None
    case (Recheck(_), Locked) =>
      Some(if w.target.Some? then Leave(w, p, Nothing) else Enter(w, p, Clearing(w.staging.Keys)))
    case (RemoveSome(_, name, left), Clearing(listed)) =>
      if name in listed then Some(w.(staging := w.staging[name := left])) else None
    case (Remove(_, name), Clearing(listed)) =>
      if name in listed then Some(Enter(w, p, Clearing(listed - {name})).(staging := w.staging - {name})) else None
    case (Make(_, name), Clearing(listed)) =>
      if listed == {} && name !in w.staging then Some(Enter(w, p, Copying(name, 0)).(staging := w.staging[name := []]))
      else None
    case (Copy(_), Copying(name, done)) =>
      if done < |legacy| && CanCopy(legacy, done) && name in w.staging then
        Some(Enter(w, p, Copying(name, done + 1)).(staging :=
          w.staging[name := w.staging[name] + if IsCopied(legacy[done]) then [legacy[done]] else []]))
      else None
    case (CopyFails(_, left), Copying(name, done)) =>
      Some(Enter(w, p, Cleaning(name)).(staging := w.staging[name := left]))
    case (Rename(_), Copying(name, done)) =>
      if done == |legacy| && name in w.staging then
        Some(Enter(w, p, Renamed).(target := Some(w.staging[name]), staging := w.staging - {name}, winner := Some(p)))
      else None
    case (RenameFails(_), Copying(name, done)) => Some(Enter(w, p, Cleaning(name)))
    case (Clean(_), Cleaning(name)) => Some(Leave(w, p, Failed).(staging := w.staging - {name}))
    case (CleanFails(_, left), Cleaning(name)) => Some(Leave(w, p, Failed).(staging := w.staging[name := left]))
    case (Return(_), Renamed) => Some(Leave(w, p, Migrated))
    case (Fail(_), _) => if phase == Waiting || phase == Locked || phase.Clearing? then Some(Leave(w, p, Failed)) else None
    case (Crash(_, left), _) =>
      Some(w.(running := w.running - {p}, lock := if w.lock == Some(p) then None else w.lock,
              staging := if phase.Copying? || phase.Cleaning? then w.staging[phase.staging := left] else w.staging))
    case _ => None
  }

  function Run(legacy: Option<seq<Entry>>, w: World, steps: seq<Step>): Option<World>
    decreases |steps|
  {
    if steps == [] then Some(w)
    else match Apply(legacy, w, steps[0]) case None => None case Some(next) => Run(legacy, next, steps[1..])
  }

  /** No process yet, whatever earlier crashes left. */
  predicate Initial(w: World) {
    w.target.None? && w.lock.None? && w.running == map[] && w.reports == map[] && w.winner.None?
  }

  // ---------------------------------------------------------------- what every step keeps

  /** Where the holder of the lock stands. */
  ghost predicate Standing(legacy: seq<Entry>, w: World, p: nat, phase: Phase) {
    match phase
    case Waiting => true
    case Locked => true
    case Clearing(listed) => w.target.None? && w.staging.Keys == listed
    case Copying(name, done) =>
      && w.target.None? && w.staging.Keys == {name}
      && done <= |legacy| && Copyable(legacy, done) && w.staging[name] == Copied(legacy[..done])
    case Cleaning(name) => w.target.None? && w.staging.Keys == {name}
    case Renamed => w.winner == Some(p)
  }

  ghost predicate Exclusive(w: World) {
    && (forall p | p in w.running :: w.running[p] != Waiting <==> w.lock == Some(p))
    && (w.lock.Some? ==> w.lock.value in w.running)
  }

  ghost predicate OneWinner(w: World) {
    (w.target.Some? <==> w.winner.Some?) && forall p | p in w.reports && w.reports[p] == Migrated :: w.winner == Some(p)
  }

  /** A complete copy, of a tree that can be copied. */
  predicate IsMigrated(legacy: seq<Entry>, target: seq<Entry>) { Copyable(legacy, |legacy|) && target == Copied(legacy) }

  ghost predicate Inv(legacy: Option<seq<Entry>>, w: World) {
    && Exclusive(w) && OneWinner(w)
    && (w.target.Some? ==> legacy.Some? && IsMigrated(legacy.value, w.target.value))
    && (w.running != map[] ==> legacy.Some?)
    && forall p | p in w.running :: legacy.Some? && Standing(legacy.value, w, p, w.running[p])
  }

  lemma CopiedOneMore(tree: seq<Entry>, done: nat)
    requires done < |tree|
    ensures Copied(tree[..done + 1]) == Copied(tree[..done]) + if IsCopied(tree[done]) then [tree[done]] else []
  {
    assert tree[..done + 1][..done] == tree[..done];
  }

  /** Whatever a process does to the directory it does with the lock, so nobody else stands anywhere. */
  lemma OthersWait(w: World, p: nat)
    requires Exclusive(w) && p in w.running && w.running[p] != Waiting
    ensures forall q | q in w.running && q != p :: w.running[q] == Waiting
  {
  }

  /** The holder of the lock moves on. */
  lemma HolderMoves(legacy: seq<Entry>, w: World, p: nat, next: World)
    requires Inv(Some(legacy), w) && p in w.running && w.running[p] != Waiting
    requires next.lock == w.lock && next.reports == w.reports
    requires next.winner == if next.target == w.target then w.winner else Some(p)
    requires p in next.running && next.running == w.running[p := next.running[p]] && next.running[p] != Waiting
    requires Standing(legacy, next, p, next.running[p])
    requires next.target == w.target || (next.target.Some? && IsMigrated(legacy, next.target.value))
    ensures Inv(Some(legacy), next)
  {
    OthersWait(w, p);
    if next.target != w.target { assert Standing(legacy, w, p, w.running[p]); }
  }

  /** A process leaves, by itself or not, and whatever it leaves in the staging directories. */
  lemma HolderLeaves(legacy: seq<Entry>, w: World, p: nat, next: World, report: Report)
    requires Inv(Some(legacy), w) && p in w.running
    requires next.lock == (if w.lock == Some(p) then None else w.lock) && next.running == w.running - {p}
    requires next.target == w.target && next.winner == w.winner
    requires w.running[p] == Waiting ==> next.staging == w.staging
    requires next.reports == w.reports || next.reports == w.reports[p := report]
    requires report == Migrated ==> w.winner == Some(p)
    ensures Inv(Some(legacy), next)
  {
    if w.running[p] != Waiting { OthersWait(w, p); }
    forall q | q in next.running ensures Standing(legacy, next, q, next.running[q]) {
      assert Standing(legacy, w, q, w.running[q]);
    }
  }

  lemma CopyingKeeps(legacy: seq<Entry>, w: World, step: Step)
    requires Inv(Some(legacy), w) && !step.Arrive? && step.p in w.running && w.running[step.p].Copying?
    requires Advance(legacy, w, step, w.running[step.p]).Some? && !step.Crash?
    ensures Inv(Some(legacy), Advance(legacy, w, step, w.running[step.p]).value)
  {
    var phase := w.running[step.p];
    assert Standing(legacy, w, step.p, phase);
    if phase.done < |legacy| { CopiedOneMore(legacy, phase.done); } else { assert legacy[..|legacy|] == legacy; }
    HolderMoves(legacy, w, step.p, Advance(legacy, w, step, phase).value);
  }

  lemma LockKeeps(legacy: seq<Entry>, w: World, p: nat)
    requires Inv(Some(legacy), w) && p in w.running && w.running[p] == Waiting && w.lock.None?
    ensures Inv(Some(legacy), Enter(w, p, Locked).(lock := Some(p)))
  {
  }

  predicate IsLeaving(w: World, step: Step) {
    step.Return? || step.Fail? || step.Crash? || step.Clean? || step.CleanFails? || (step.Recheck? && w.target.Some?)
  }

  lemma LeavingKeeps(legacy: seq<Entry>, w: World, step: Step)
    requires Inv(Some(legacy), w) && !step.Arrive? && step.p in w.running && IsLeaving(w, step)
    requires Advance(legacy, w, step, w.running[step.p]).Some?
    ensures Inv(Some(legacy), Advance(legacy, w, step, w.running[step.p]).value)
  {
    var next := Advance(legacy, w, step, w.running[step.p]).value;
    assert Standing(legacy, w, step.p, w.running[step.p]);
    var report := if step.Return? then Migrated else if step.Recheck? then Nothing else Failed;
    HolderLeaves(legacy, w, step.p, next, report);
  }

  lemma AdvanceKeeps(legacy: seq<Entry>, w: World, step: Step)
    requires Inv(Some(legacy), w) && !step.Arrive? && step.p in w.running
    requires Advance(legacy, w, step, w.running[step.p]).Some?
    ensures Inv(Some(legacy), Advance(legacy, w, step, w.running[step.p]).value)
  {
    var phase := w.running[step.p];
    if IsLeaving(w, step) {
      LeavingKeeps(legacy, w, step);
    } else if phase.Copying? {
      CopyingKeeps(legacy, w, step);
    } else if phase.Waiting? {
      LockKeeps(legacy, w, step.p);
    } else {
      assert Standing(legacy, w, step.p, phase);
      HolderMoves(legacy, w, step.p, Advance(legacy, w, step, phase).value);
    }
  }

  /** Every step of every process, and every failure and crash, keeps the invariant. */
  lemma StepKeeps(legacy: Option<seq<Entry>>, w: World, step: Step)
    requires Inv(legacy, w) && Apply(legacy, w, step).Some?
    ensures Inv(legacy, Apply(legacy, w, step).value)
  {
    if !step.Arrive? { AdvanceKeeps(legacy.value, w, step); }
  }

  // ---------------------------------------------------------------- over every run

  lemma {:induction false} RunKeeps(legacy: Option<seq<Entry>>, w: World, steps: seq<Step>)
    requires Inv(legacy, w) && Run(legacy, w, steps).Some?
    ensures Inv(legacy, Run(legacy, w, steps).value)
    ensures w.target.Some? ==> Run(legacy, w, steps).value.target == w.target
    decreases |steps|
  {
    if steps != [] {
      StepKeeps(legacy, w, steps[0]);
      if w.target.Some? { TargetIsFinal(legacy, w, steps[0]); }
      RunKeeps(legacy, Apply(legacy, w, steps[0]).value, steps[1..]);
    }
  }

  /** Once visible, the target is never replaced. */
  lemma TargetIsFinal(legacy: Option<seq<Entry>>, w: World, step: Step)
    requires Inv(legacy, w) && Apply(legacy, w, step).Some? && w.target.Some?
    ensures Apply(legacy, w, step).value.target == w.target
  {
    if !step.Arrive? {
      assert Standing(legacy.value, w, step.p, w.running[step.p]);
    }
  }

  /** However the processes interleave, fail and crash, the target is absent or a complete copy, and at most one
      process reports a migration; one that does sees the target. */
  lemma MigrationIsSafe(legacy: Option<seq<Entry>>, w: World, steps: seq<Step>)
    requires Initial(w) && Run(legacy, w, steps).Some?
    ensures var end := Run(legacy, w, steps).value;
            && (end.target.Some? ==> legacy.Some? && IsMigrated(legacy.value, end.target.value))
            && (forall p, q | p in end.reports && q in end.reports && end.reports[p] == Migrated == end.reports[q] :: p == q)
            && forall p | p in end.reports && end.reports[p] == Migrated :: end.target.Some?
  {
    RunKeeps(legacy, w, steps);
  }

  /** A tree with an entry below a directory its owner cannot write is never migrated, in no run of any number of
      processes: every copy of it fails, and every process that tries reports so. */
  lemma UncopyableIsNeverMigrated(legacy: seq<Entry>, w: World, steps: seq<Step>)
    requires Initial(w) && Run(Some(legacy), w, steps).Some? && !Copyable(legacy, |legacy|)
    ensures var end := Run(Some(legacy), w, steps).value;
            end.target.None? && forall p | p in end.reports :: end.reports[p] != Migrated
  {
    MigrationIsSafe(Some(legacy), w, steps);
  }

  /** A directory of mode 0555 with a file in it. */
  lemma ReadOnlyDirectoryIsNeverMigrated(w: World, steps: seq<Step>)
    requires Initial(w) && Run(Some([Directory("a", 365), File("a/b", 420, "")]), w, steps).Some?
    ensures Run(Some([Directory("a", 365), File("a/b", 420, "")]), w, steps).value.target.None?
  {
    var legacy := [Directory("a", 365), File("a/b", 420, "")];
    assert "a/b"[..2] == "a/" && "a/"[..1] == "a" && ParentOf("a/") == "a" && ParentOf("a/b") == "a";
    assert !IsLock("a/b") && !OwnerCreates(365);
    assert IsCopied(legacy[1]) && legacy[0].path == ParentOf(legacy[1].path);
    assert !CanCopy(legacy, 1);
    UncopyableIsNeverMigrated(legacy, w, steps);
  }

  /** Nobody touches the staging directory of another process that lives. */
  lemma LiveStagingIsKept(legacy: Option<seq<Entry>>, w: World, step: Step, q: nat)
    requires Inv(legacy, w) && Apply(legacy, w, step).Some?
    requires q in w.running && q != step.p && StagingOf(w.running[q]).Some?
    ensures var name, next := StagingOf(w.running[q]).value, Apply(legacy, w, step).value;
            name in w.staging && name in next.staging && next.staging[name] == w.staging[name]
  {
    OthersWait(w, q);
    assert Standing(legacy.value, w, q, w.running[q]);
  }

  lemma {:induction false} RunOneMore(legacy: Option<seq<Entry>>, w: World, steps: seq<Step>, step: Step)
    requires Run(legacy, w, steps).Some?
    ensures Run(legacy, w, steps + [step]) == Apply(legacy, Run(legacy, w, steps).value, step)
    decreases |steps|
  {
    if steps == [] {
      assert [step][1..] == [];
    } else {
      assert (steps + [step])[1..] == steps[1..] + [step];
      RunOneMore(legacy, Apply(legacy, w, steps[0]).value, steps[1..], step);
    }
  }

  // ---------------------------------------------------------------- one process, undisturbed

  /** The world when a process has copied so many entries, undisturbed. */
  function Halfway(tree: seq<Entry>, was: World, p: nat, name: string, done: nat): World
    requires done <= |tree|
  {
    was.(running := was.running[p := Copying(name, done)], staging := map[name := Copied(tree[..done])])
  }

  lemma Overwritten<K, V>(m: map<K, V>, k: K, before: V, after: V)
    ensures m[k := before][k := after] == m[k := after]
    ensures m[k := before] - {k} == m - {k}
  {
  }

  lemma OneIsRemoved<K, V>(k: K, v: V)
    ensures map[k := v] - {k} == map[]
  {
  }

  lemma CopyOneMore(tree: seq<Entry>, was: World, p: nat, name: string, done: nat)
    requires done < |tree| && CanCopy(tree, done)
    ensures Apply(Some(tree), Halfway(tree, was, p, name, done), Copy(p)) == Some(Halfway(tree, was, p, name, done + 1))
  {
    CopiedOneMore(tree, done);
    Overwritten(was.running, p, Copying(name, done), Copying(name, done + 1));
    Overwritten(map[], name, Copied(tree[..done]), Copied(tree[..done + 1]));
  }

  class Root {
    const legacy: Option<seq<Entry>>
    var world: World

    constructor (legacy: Option<seq<Entry>>, world: World)
      ensures this.legacy == legacy && this.world == world
    {
      this.legacy, this.world := legacy, world;
    }

    /** One step, added to the run so far. */
    method Take(step: Step, ghost start: World, ghost before: seq<Step>) returns (ghost steps: seq<Step>)
      requires Run(legacy, start, before) == Some(world) && Apply(legacy, world, step).Some?
      modifies this
      ensures Apply(legacy, old(world), step) == Some(world)
      ensures Run(legacy, start, steps) == Some(world)
    {
      RunOneMore(legacy, start, before, step);
      world := Apply(legacy, world, step).value;
      steps := before + [step];
    }

    /** `removeStaging`. */
    method RemoveStaging(p: nat, ghost start: World, ghost before: seq<Step>) returns (ghost steps: seq<Step>)
      requires Run(legacy, start, before) == Some(world) && legacy.Some?
      requires p in world.running && world.running[p] == Clearing(world.staging.Keys)
      modifies this
      ensures Run(legacy, start, steps) == Some(world)
      ensures world == old(world).(running := old(world).running[p := Clearing({})], staging := map[])
    {
      steps := before;
      var listed := world.staging.Keys;
      while listed != {}
        invariant Run(legacy, start, steps) == Some(world) && listed == world.staging.Keys
        invariant world == old(world).(running := old(world).running[p := Clearing(listed)], staging := world.staging)
        decreases listed
      {
        var name :| name in listed;
        steps := Take(Remove(p, name), start, steps);
        listed := listed - {name};
      }
    }

    /** `copyTree`, which stops at the first entry that cannot be created. */
    method CopyTree(p: nat, name: string, ghost start: World, ghost before: seq<Step>)
      returns (done: nat, ghost steps: seq<Step>)
      requires Run(legacy, start, before) == Some(world) && legacy.Some?
      requires p in world.running && world.running[p] == Copying(name, 0) && world.staging == map[name := []]
      modifies this
      ensures Run(legacy, start, steps) == Some(world)
      ensures done <= |legacy.value| && Copyable(legacy.value, done)
      ensures done < |legacy.value| ==> !CanCopy(legacy.value, done)
      ensures world == Halfway(legacy.value, old(world), p, name, done)
    {
      steps, done := before, 0;
      var tree := legacy.value;
      while done < |tree| && CanCopy(tree, done)
        invariant Run(legacy, start, steps) == Some(world) && done <= |tree| && Copyable(tree, done)
        invariant world == Halfway(tree, old(world), p, name, done)
      {
        CopyOneMore(tree, old(world), p, name, done);
        steps := Take(Copy(p), start, steps);
        done := done + 1;
      }
    }

    /** `migrateHome` by a process nobody disturbs, after any crashes of others: it migrates exactly the trees that
        can be copied, and otherwise leaves no target and no staging directory. */
    method MigrateHome(p: nat, name: string) returns (report: Report, ghost steps: seq<Step>)
      requires Inv(legacy, world) && world.lock.None? && p !in world.running && p !in world.reports
      modifies this
      ensures Run(legacy, old(world), steps) == Some(world)
      ensures world.reports == old(world).reports[p := report] && world.running == old(world).running
      ensures report == if old(world).target.Some? || legacy.None? then Nothing
                        else if Copyable(legacy.value, |legacy.value|) then Migrated else Failed
      ensures legacy.Some? ==>
        world.target == if Copyable(legacy.value, |legacy.value|) then Some(Copied(legacy.value)) else None
      ensures report != Nothing ==> world.staging == map[]
    {
      ghost var start := world;
      steps := Take(Arrive(p), start, []);
      if world.target.Some? || legacy.None? {
        assert world.running == start.running;
        return Nothing, steps;
      }
      report, steps := Migrate(p, name, start, steps);
      assert world.running == start.running;
    }

    /** From the lock to the report. */
    method Migrate(p: nat, name: string, ghost start: World, ghost before: seq<Step>)
      returns (report: Report, ghost steps: seq<Step>)
      requires Run(legacy, start, before) == Some(world) && legacy.Some?
      requires p in world.running && world.running[p] == Waiting && world.lock.None? && world.target.None?
      modifies this
      ensures Run(legacy, start, steps) == Some(world)
      ensures report == if Copyable(legacy.value, |legacy.value|) then Migrated else Failed
      ensures world == Left(old(world), p, report)
    {
      steps := TakeLock(p, start, before);
      steps := RemoveStaging(p, start, steps);
      var done;
      done, steps := CopyAside(p, name, start, steps);
      report, steps := Finish(p, name, done, start, steps);
      assert world.running == old(world).running - {p};
    }

    /** The world a process alone leaves: migrated or as it was, without the staging of earlier runs. */
    ghost function Left(was: World, p: nat, report: Report): World
      requires legacy.Some?
    {
      var left := was.(running := was.running - {p}, reports := was.reports[p := report], lock := None, staging := map[]);
      if report == Migrated then left.(winner := Some(p), target := Some(Copied(legacy.value))) else left
    }

    method CopyAside(p: nat, name: string, ghost start: World, ghost before: seq<Step>)
      returns (done: nat, ghost steps: seq<Step>)
      requires Run(legacy, start, before) == Some(world) && legacy.Some?
      requires p in world.running && world.running[p] == Clearing({}) && world.staging == map[]
      modifies this
      ensures Run(legacy, start, steps) == Some(world)
      ensures done <= |legacy.value| && Copyable(legacy.value, done)
      ensures done < |legacy.value| ==> !CanCopy(legacy.value, done)
      ensures world == Halfway(legacy.value, old(world), p, name, done)
    {
      steps := Take(Make(p, name), start, before);
      done, steps := CopyTree(p, name, start, steps);
    }

    method TakeLock(p: nat, ghost start: World, ghost before: seq<Step>) returns (ghost steps: seq<Step>)
      requires Run(legacy, start, before) == Some(world) && legacy.Some?
      requires p in world.running && world.running[p] == Waiting && world.lock.None? && world.target.None?
      modifies this
      ensures Run(legacy, start, steps) == Some(world)
      ensures world == old(world).(running := old(world).running[p := Clearing(old(world).staging.Keys)], lock := Some(p))
    {
      steps := Take(Lock(p), start, before);
      steps := Take(Recheck(p), start, steps);
    }

    /** After `copyTree`: the copy is made visible, or removed when it failed. */
    method Finish(p: nat, name: string, done: nat, ghost start: World, ghost before: seq<Step>)
      returns (report: Report, ghost steps: seq<Step>)
      requires Run(legacy, start, before) == Some(world) && legacy.Some? && world.lock == Some(p)
      requires done <= |legacy.value| && p in world.running && world.running[p] == Copying(name, done)
      requires world.staging == map[name := Copied(legacy.value[..done])]
      modifies this
      ensures Run(legacy, start, steps) == Some(world)
      ensures report == if done == |legacy.value| then Migrated else Failed
      ensures world == Left(old(world), p, report)
    {
      if done == |legacy.value| {
        assert legacy.value[..done] == legacy.value;
        steps := MakeVisible(p, name, start, before);
        report := Migrated;
      } else {
        steps := GiveUp(p, name, start, before);
        report := Failed;
      }
    }

    method MakeVisible(p: nat, name: string, ghost start: World, ghost before: seq<Step>)
      returns (ghost steps: seq<Step>)
      requires Run(legacy, start, before) == Some(world) && legacy.Some? && world.lock == Some(p)
      requires p in world.running && world.running[p] == Copying(name, |legacy.value|)
      requires world.staging == map[name := Copied(legacy.value)]
      modifies this
      ensures Run(legacy, start, steps) == Some(world)
      ensures world == Left(old(world), p, Migrated)
    {
      OneIsRemoved(name, Copied(legacy.value));
      Overwritten(world.running, p, Renamed, Renamed);
      steps := Take(Rename(p), start, before);
      steps := Take(Return(p), start, steps);
    }

    method GiveUp(p: nat, name: string, ghost start: World, ghost before: seq<Step>)
      returns (ghost steps: seq<Step>)
      requires Run(legacy, start, before) == Some(world) && legacy.Some? && world.lock == Some(p)
      requires p in world.running && world.running[p].Copying? && world.running[p].staging == name
      requires name in world.staging && world.staging == map[name := world.staging[name]]
      modifies this
      ensures Run(legacy, start, steps) == Some(world)
      ensures world == Left(old(world), p, Failed)
    {
      var left := world.staging[name];
      OneIsRemoved(name, left);
      Overwritten(world.running, p, Cleaning(name), Renamed);
      steps := Take(CopyFails(p, left), start, before);
      steps := Take(Clean(p), start, steps);
    }
  }
}
