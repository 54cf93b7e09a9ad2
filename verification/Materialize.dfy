/** Publishing verified bundles into a shared directory: any number of processes lock, recover
    abandoned stages, stage, verify, publish and clean up, and any of them may fail or crash
    between any two steps. Every step below is one call on the file system. */
module Materialize {
  import opened Wrappers
  import BundleTree

  type Tree = BundleTree.Tree

  /** One entry of the staging directory; entries the protocol did not make may look like anything. */
  datatype Stage = Stage(isDirectory: bool, marker: Option<string>, bundle: Option<Tree>)

  datatype Disk = Disk(staging: map<string, Stage>, bundles: map<string, Tree>)

  const STAGE_MARKER := "laya-go materialization stage v1\n"
  const DIGEST_LENGTH := 64
  const RANDOM_LENGTH := 32

  datatype Outcome = Failed | Ready(tree: Tree)

  datatype Pc =
    | Waiting
    | Recovering(todo: seq<string>)
    | Creating
    | Marking(stage: string)
    | Copying(stage: string)
    | Staged(stage: string)
    | Verified(stage: string)
    | Published(stage: string)
    | Opening
    | Cleaning(stage: string, outcome: Outcome)
    | Unlocking(outcome: Outcome)
    | Done(outcome: Outcome)
    | Crashed

  /** `digest` is the verified identity of the process's source; `found` records the staging
      directory as it was when the process got the lock, and `skipped` the entries whose marker
      it could not read. */
  datatype Process = Process(digest: string, pc: Pc, found: map<string, Stage>, skipped: set<string>)

  /** `verify` yields the identity of a complete, correct bundle tree, and nothing for others. */
  datatype World = World(verify: Tree -> Option<string>, disk: Disk, lock: Option<nat>, procs: map<nat, Process>)

  // ---- names ----

  predicate IsLowerHex(s: string) {
    forall i :: 0 <= i < |s| ==> '0' <= s[i] <= '9' || 'a' <= s[i] <= 'f'
  }

  predicate IsDigest(s: string) {
    |s| == DIGEST_LENGTH && IsLowerHex(s)
  }

  function FinalName(digest: string): string {
    "sha256-" + digest
  }

  function StageName(digest: string, random: string): string {
    digest + "-" + random
  }

  predicate ValidStageName(name: string) {
    && |name| == DIGEST_LENGTH + 1 + RANDOM_LENGTH
    && name[DIGEST_LENGTH] == '-'
    && IsLowerHex(name[..DIGEST_LENGTH]) && IsLowerHex(name[DIGEST_LENGTH + 1..])
  }

  lemma StageNameIsValid(digest: string, random: string)
    requires IsDigest(digest) && |random| == RANDOM_LENGTH && IsLowerHex(random)
    ensures ValidStageName(StageName(digest, random))
  {
    var name := StageName(digest, random);
    assert name[..DIGEST_LENGTH] == digest && name[DIGEST_LENGTH + 1..] == random;
  }

  /** A stage name is the digest of the bundle, a dash and the random part, and recognising one means
      recognising that shape: 64 and 32 lower-case hexadecimal digits around a dash. */
  lemma StageNameShape(name: string)
    ensures ValidStageName(name) <==>
      && |name| == 97 && name[64] == '-'
      && forall i :: 0 <= i < 97 && i != 64 ==> '0' <= name[i] <= '9' || 'a' <= name[i] <= 'f'
    ensures ValidStageName(name) ==> IsDigest(name[..64]) && name == StageName(name[..64], name[65..])
  {
    if |name| == 97 {
      forall i | 0 <= i < 64 ensures name[..64][i] == name[i] {}
      forall i | 65 <= i < 97 ensures name[65..][i - 65] == name[i] {}
      if name[64] == '-' { assert name == name[..64] + "-" + name[65..]; }
    }
  }

  /** What recovery may delete: a directory with a well-formed name and exactly the stage marker. */
  predicate Recoverable(name: string, entry: Stage) {
    ValidStageName(name) && entry.isDirectory && entry.marker == Some(STAGE_MARKER)
  }

  /** What recovery leaves of a staging directory. */
  function Recovered(staging: map<string, Stage>, skipped: set<string>): map<string, Stage> {
    map name | name in staging && (name in skipped || !Recoverable(name, staging[name])) :: staging[name]
  }

  // ---- steps ----

  datatype Event =
    | Start(p: nat, digest: string)
    | GiveUp(p: nat)
    | TakeLock(p: nat, names: seq<string>)
    | RecoverNext(p: nat)
    | SkipUnreadable(p: nat)
    | Look(p: nat)
    | Create(p: nat, random: string)
    | Mark(p: nat)
    | CopySome(p: nat, tree: Tree)
    | FinishCopy(p: nat)
    | CheckStage(p: nat)
    | Publish(p: nat)
    | RemoveStage(p: nat)
    | Open(p: nat)
    | Fail(p: nat, leftover: Option<Stage>)
    | Clean(p: nat)
    | CleanFails(p: nat, leftover: Option<Stage>)
    | Unlock(p: nat, ok: bool)
    | Crash(p: nat, leftover: Option<Stage>)

  /** The process has got the lock and not yet released it. */
  predicate Holding(pc: Pc) {
    !(pc.Waiting? || pc.Done? || pc.Crashed?)
  }

  /** The stage a process is using, if any. */
  function OwnStage(pc: Pc): Option<string> {
    match pc
    case Marking(stage) => Some(stage)
    case Copying(stage) => Some(stage)
    case Staged(stage) => Some(stage)
    case Verified(stage) => Some(stage)
    case Published(stage) => Some(stage)
    case Cleaning(stage, _) => Some(stage)
    case _ => None
  }

  /** A directory listing: every entry exactly once, in some order. */
  ghost predicate Lists(names: seq<string>, staging: map<string, Stage>) {
    && (forall n :: n in names <==> n in staging)
    && forall i, j :: 0 <= i < j < |names| ==> names[i] != names[j]
  }

  ghost predicate Enabled(w: World, e: Event) {
    match e
    case Start(p, digest) => p !in w.procs && IsDigest(digest)
    case GiveUp(p) => p in w.procs && w.procs[p].pc == Waiting
    case TakeLock(p, names) =>
      p in w.procs && w.procs[p].pc == Waiting && w.lock == None && Lists(names, w.disk.staging)
    case RecoverNext(p) => p in w.procs && w.procs[p].pc.Recovering? && w.procs[p].pc.todo != []
    case SkipUnreadable(p) => p in w.procs && w.procs[p].pc.Recovering? && w.procs[p].pc.todo != []
    case Look(p) => p in w.procs && w.procs[p].pc == Recovering([])
    case Create(p, random) => p in w.procs && w.procs[p].pc == Creating && |random| == RANDOM_LENGTH && IsLowerHex(random)
    case Mark(p) => p in w.procs && w.procs[p].pc.Marking?
    case CopySome(p, _) => p in w.procs && w.procs[p].pc.Copying?
    case FinishCopy(p) => p in w.procs && w.procs[p].pc.Copying?
    case CheckStage(p) => p in w.procs && w.procs[p].pc.Staged?
    case Publish(p) => p in w.procs && w.procs[p].pc.Verified?
    case RemoveStage(p) => p in w.procs && w.procs[p].pc.Published?
    case Open(p) => p in w.procs && w.procs[p].pc == Opening
    case Fail(p, _) =>
      p in w.procs && Holding(w.procs[p].pc) && !w.procs[p].pc.Cleaning? && !w.procs[p].pc.Unlocking?
    case Clean(p) => p in w.procs && w.procs[p].pc.Cleaning?
    case CleanFails(p, _) => p in w.procs && w.procs[p].pc.Cleaning?
    case Unlock(p, _) => p in w.procs && w.procs[p].pc.Unlocking?
    case Crash(p, _) => p in w.procs && !w.procs[p].pc.Done? && !w.procs[p].pc.Crashed?
  }

  function At(w: World, p: nat, pc: Pc): World
    requires p in w.procs
  {
    w.(procs := w.procs[p := w.procs[p].(pc := pc)])
  }

  function WithStaging(w: World, staging: map<string, Stage>): World {
    w.(disk := w.disk.(staging := staging))
  }

  /** An interrupted removal or write may leave anything of the entry behind, or nothing. */
  function Left(staging: map<string, Stage>, name: string, leftover: Option<Stage>): map<string, Stage> {
    match leftover
    case None => staging - {name}
    case Some(entry) => staging[name := entry]
  }

  function BundleOf(w: World, stage: string): Option<Tree> {
    if stage in w.disk.staging then w.disk.staging[stage].bundle else None
  }

  predicate VerifiesAs(w: World, tree: Option<Tree>, digest: string) {
    tree.Some? && w.verify(tree.value) == Some(digest)
  }

  /** Opening the publication succeeds only if it verifies with the wanted identity. */
  function Opened(w: World, digest: string): Outcome {
    var name := FinalName(digest);
    if name in w.disk.bundles && VerifiesAs(w, Some(w.disk.bundles[name]), digest) then Ready(w.disk.bundles[name])
    else Failed
  }

  /** Recovery of one listed entry. */
  function RecoverOne(staging: map<string, Stage>, name: string): map<string, Stage> {
    if name in staging && Recoverable(name, staging[name]) then staging - {name} else staging
  }

  /** What an interrupted call leaves in the staging directory: it may have got anywhere with the
      entry being recovered, or with the process's own stage, and touches nothing else. */
  function Interrupted(staging: map<string, Stage>, pc: Pc, leftover: Option<Stage>): map<string, Stage> {
    if OwnStage(pc).Some? then Left(staging, OwnStage(pc).value, leftover)
    else if pc.Recovering? && pc.todo != [] && pc.todo[0] in staging && Recoverable(pc.todo[0], staging[pc.todo[0]]) then
      Left(staging, pc.todo[0], leftover)
    else staging
  }

  function AfterFailure(pc: Pc): Pc {
    if OwnStage(pc).Some? then Cleaning(OwnStage(pc).value, Failed) else Unlocking(Failed)
  }

  ghost function Next(w: World, e: Event): World
    requires Enabled(w, e)
  {
    match e
    case Start(p, digest) => w.(procs := w.procs[p := Process(digest, Waiting, map[], {})])
    case GiveUp(p) => At(w, p, Done(Failed))
    case TakeLock(p, names) =>
      w.(lock := Some(p), procs := w.procs[p := Process(w.procs[p].digest, Recovering(names), w.disk.staging, {})])
    case RecoverNext(p) =>
      var todo := w.procs[p].pc.todo;
      At(WithStaging(w, RecoverOne(w.disk.staging, todo[0])), p, Recovering(todo[1..]))
    case SkipUnreadable(p) =>
      var r := w.procs[p];
      w.(procs := w.procs[p := r.(pc := Recovering(r.pc.todo[1..]), skipped := r.skipped + {r.pc.todo[0]})])
    case Look(p) =>
      var digest := w.procs[p].digest;
      At(w, p, if FinalName(digest) in w.disk.bundles then Unlocking(Opened(w, digest)) else Creating)
    case Create(p, random) =>
      var name := StageName(w.procs[p].digest, random);
      if name in w.disk.staging then At(w, p, Unlocking(Failed))
      else At(WithStaging(w, w.disk.staging[name := Stage(true, None, None)]), p, Marking(name))
    case Mark(p) =>
      var name := w.procs[p].pc.stage;
      At(WithStaging(w, w.disk.staging[name := Stage(true, Some(STAGE_MARKER), None)]), p, Copying(name))
    case CopySome(p, tree) =>
      var name := w.procs[p].pc.stage;
      WithStaging(w, w.disk.staging[name := Stage(true, Some(STAGE_MARKER), Some(tree))])
    case FinishCopy(p) =>
      var name := w.procs[p].pc.stage;
      At(w, p, if VerifiesAs(w, BundleOf(w, name), w.procs[p].digest) then Staged(name) else Cleaning(name, Failed))
    case CheckStage(p) =>
      var name := w.procs[p].pc.stage;
      At(w, p, if VerifiesAs(w, BundleOf(w, name), w.procs[p].digest) then Verified(name) else Cleaning(name, Failed))
    case Publish(p) =>
      var name, digest := w.procs[p].pc.stage, w.procs[p].digest;
      if FinalName(digest) in w.disk.bundles then At(w, p, Cleaning(name, Opened(w, digest)))
      else if BundleOf(w, name).None? then At(w, p, Cleaning(name, Failed))
      else
        At(w.(disk := Disk(w.disk.staging[name := w.disk.staging[name].(bundle := None)],
                           w.disk.bundles[FinalName(digest) := BundleOf(w, name).value])), p, Published(name))
    case RemoveStage(p) => At(WithStaging(w, w.disk.staging - {w.procs[p].pc.stage}), p, Opening)
    case Open(p) => At(w, p, Unlocking(Opened(w, w.procs[p].digest)))
    case Fail(p, leftover) =>
      var pc := w.procs[p].pc;
      At(WithStaging(w, Interrupted(w.disk.staging, pc, leftover)), p, AfterFailure(pc))
    case Clean(p) =>
      At(WithStaging(w, w.disk.staging - {w.procs[p].pc.stage}), p, Unlocking(w.procs[p].pc.outcome))
    case CleanFails(p, leftover) =>
      At(WithStaging(w, Left(w.disk.staging, w.procs[p].pc.stage, leftover)), p, Unlocking(Failed))
    case Unlock(p, ok) => At(w.(lock := None), p, Done(if ok then w.procs[p].pc.outcome else Failed))
    case Crash(p, leftover) =>
      var left := At(WithStaging(w, Interrupted(w.disk.staging, w.procs[p].pc, leftover)), p, Crashed);
      left.(lock := if w.lock == Some(p) then None else w.lock)
  }

  ghost predicate Run(w: World, events: seq<Event>, v: World)
    decreases |events|
  {
    if events == [] then w == v
    else Enabled(w, events[0]) && Run(Next(w, events[0]), events[1..], v)
  }

  lemma {:induction false} RunOn(w: World, events: seq<Event>, v: World, e: Event)
    requires Run(w, events, v) && Enabled(v, e)
    ensures Run(w, events + [e], Next(v, e))
    decreases |events|
  {
    if events == [] {
      assert ([e])[1..] == [];
    } else {
      assert (events + [e])[1..] == events[1..] + [e];
      RunOn(Next(w, events[0]), events[1..], v, e);
    }
  }

  lemma {:induction false} RunJoin(w: World, first: seq<Event>, u: World, second: seq<Event>, v: World)
    requires Run(w, first, u) && Run(u, second, v)
    ensures Run(w, first + second, v)
    decreases |first|
  {
    if first == [] {
      assert first + second == second;
    } else {
      assert (first + second)[1..] == first[1..] + second;
      RunJoin(Next(w, first[0]), first[1..], u, second, v);
    }
  }

  /** No process has started yet; the directory may hold anything. */
  ghost predicate Initial(w: World) {
    w.procs == map[] && w.lock == None
  }

  // ---- invariants ----

  /** Exactly the process that got the lock and has not released it holds it. */
  ghost predicate LockInv(w: World) {
    && (forall p :: p in w.procs ==> (w.lock == Some(p) <==> Holding(w.procs[p].pc)))
    && (w.lock.Some? ==> w.lock.value in w.procs)
  }

  /** Recovery so far: entries not yet looked at are still there, the others are gone exactly if
      they were recoverable and readable. */
  ghost predicate RecoveredUpTo(todo: seq<string>, found: map<string, Stage>, skipped: set<string>,
                                staging: map<string, Stage>) {
    && (forall i, j :: 0 <= i < j < |todo| ==> todo[i] != todo[j])
    && (forall n :: n in todo ==> n in found && n !in skipped)
    && (forall n :: n in staging <==> n in found && (n in todo || n in skipped || !Recoverable(n, found[n])))
    && (forall n :: n in staging ==> staging[n] == found[n])
  }

  function Kept(r: Process): map<string, Stage> {
    Recovered(r.found, r.skipped)
  }

  /** The staging directory holds what recovery left, and the process's own stage beside it. */
  ghost predicate StagedBeside(r: Process, staging: map<string, Stage>, stage: string) {
    ValidStageName(stage) && stage in staging && stage !in Kept(r) && staging - {stage} == Kept(r)
  }

  ghost predicate IsPublished(w: World, digest: string) {
    FinalName(digest) in w.disk.bundles && w.verify(w.disk.bundles[FinalName(digest)]) == Some(digest)
  }

  /** What the holder of the lock knows about the disk. */
  ghost predicate HolderInv(w: World, r: Process) {
    var staging, final := w.disk.staging, FinalName(r.digest);
    match r.pc
    case Recovering(todo) => RecoveredUpTo(todo, r.found, r.skipped, staging)
    case Creating => staging == Kept(r) && final !in w.disk.bundles
    case Marking(stage) => StagedBeside(r, staging, stage) && final !in w.disk.bundles
    case Copying(stage) => StagedBeside(r, staging, stage) && final !in w.disk.bundles
    case Staged(stage) =>
      StagedBeside(r, staging, stage) && final !in w.disk.bundles && VerifiesAs(w, BundleOf(w, stage), r.digest)
    case Verified(stage) =>
      StagedBeside(r, staging, stage) && final !in w.disk.bundles && VerifiesAs(w, BundleOf(w, stage), r.digest)
    case Published(stage) => StagedBeside(r, staging, stage) && IsPublished(w, r.digest)
    case Opening => staging == Kept(r) && IsPublished(w, r.digest)
    case Cleaning(stage, outcome) =>
      outcome == Failed && ValidStageName(stage) && stage !in Kept(r) && staging - {stage} == Kept(r)
    case Unlocking(outcome) => outcome.Ready? ==> staging == Kept(r)
    case _ => true
  }

  ghost predicate DiskInv(w: World) {
    w.lock.Some? && w.lock.value in w.procs ==> HolderInv(w, w.procs[w.lock.value])
  }

  function OutcomeOf(pc: Pc): Outcome {
    if pc.Cleaning? || pc.Unlocking? || pc.Done? then pc.outcome else Failed
  }

  /** A handle refers to the publication of its process's digest, which verifies with it. */
  ghost predicate HandleInv(w: World, r: Process) {
    OutcomeOf(r.pc).Ready? ==> IsPublished(w, r.digest) && w.disk.bundles[FinalName(r.digest)] == OutcomeOf(r.pc).tree
  }

  ghost predicate HandlesInv(w: World) {
    forall p :: p in w.procs ==> IsDigest(w.procs[p].digest) && HandleInv(w, w.procs[p])
  }

  ghost predicate Inv(w: World) {
    LockInv(w) && DiskInv(w) && HandlesInv(w)
  }

  // ---- every step keeps them ----

  function Actor(e: Event): nat {
    e.p
  }

  /** A step changes no process but its own; only the holder of the lock changes the disk. */
  lemma StepFrame(w: World, e: Event)
    requires LockInv(w) && Enabled(w, e)
    ensures Next(w, e).verify == w.verify
    ensures forall q :: q in w.procs && q != Actor(e) ==> q in Next(w, e).procs && Next(w, e).procs[q] == w.procs[q]
    ensures w.lock != Some(Actor(e)) ==> Next(w, e).disk == w.disk
    ensures w.lock.Some? && w.lock != Some(Actor(e)) ==> Next(w, e).lock == w.lock
    ensures Actor(e) in Next(w, e).procs && forall q :: q in Next(w, e).procs ==> q in w.procs || q == Actor(e)
  {}

  lemma LockStep(w: World, e: Event)
    requires LockInv(w) && Enabled(w, e)
    ensures LockInv(Next(w, e))
  {
    StepFrame(w, e);
  }

  /** Publications only ever appear, under a name that is free. */
  lemma BundlesStep(w: World, e: Event)
    requires Enabled(w, e)
    ensures forall n :: n in w.disk.bundles ==> n in Next(w, e).disk.bundles && Next(w, e).disk.bundles[n] == w.disk.bundles[n]
  {}

  lemma RecoverOneStep(todo: seq<string>, found: map<string, Stage>, skipped: set<string>, staging: map<string, Stage>)
    requires RecoveredUpTo(todo, found, skipped, staging) && todo != []
    ensures RecoveredUpTo(todo[1..], found, skipped, RecoverOne(staging, todo[0]))
    ensures RecoveredUpTo(todo[1..], found, skipped + {todo[0]}, staging)
  {
    assert forall n :: n in todo <==> n == todo[0] || n in todo[1..];
    assert todo[0] in todo && todo[0] in found;
    assert forall n :: n in todo[1..] ==> n in todo && n != todo[0];
  }

  lemma RecoveryEnds(found: map<string, Stage>, skipped: set<string>, staging: map<string, Stage>)
    requires RecoveredUpTo([], found, skipped, staging)
    ensures staging == Recovered(found, skipped)
  {}

  lemma LockingStep(w: World, p: nat, names: seq<string>)
    requires Inv(w) && Enabled(w, TakeLock(p, names))
    ensures DiskInv(Next(w, TakeLock(p, names)))
  {
    assert RecoveredUpTo(names, w.disk.staging, {}, w.disk.staging);
  }

  lemma RecoveringStep(w: World, e: Event)
    requires Inv(w) && Enabled(w, e) && (e.RecoverNext? || e.SkipUnreadable?)
    ensures DiskInv(Next(w, e))
  {
    var r := w.procs[e.p];
    RecoverOneStep(r.pc.todo, r.found, r.skipped, w.disk.staging);
  }

  lemma LookStep(w: World, p: nat)
    requires Inv(w) && Enabled(w, Look(p))
    ensures DiskInv(Next(w, Look(p)))
  {
    RecoveryEnds(w.procs[p].found, w.procs[p].skipped, w.disk.staging);
  }

  lemma CreateStep(w: World, p: nat, random: string)
    requires Inv(w) && Enabled(w, Create(p, random))
    ensures DiskInv(Next(w, Create(p, random)))
  {
    var name := StageName(w.procs[p].digest, random);
    StageNameIsValid(w.procs[p].digest, random);
    if name !in w.disk.staging { assert w.disk.staging[name := Stage(true, None, None)] - {name} == w.disk.staging; }
  }

  lemma WritingStep(w: World, e: Event)
    requires Inv(w) && Enabled(w, e) && (e.Mark? || e.CopySome? || e.Publish?)
    ensures DiskInv(Next(w, e))
  {
    var stage := w.procs[e.p].pc.stage;
    assert Next(w, e).disk.staging - {stage} == w.disk.staging - {stage};
  }

  lemma FailStep(w: World, p: nat, leftover: Option<Stage>)
    requires Inv(w) && Enabled(w, Fail(p, leftover))
    ensures DiskInv(Next(w, Fail(p, leftover)))
  {
    var own := OwnStage(w.procs[p].pc);
    if own.Some? { assert Left(w.disk.staging, own.value, leftover) - {own.value} == w.disk.staging - {own.value}; }
  }

  /** Steps that leave the lock free leave nothing to know about the disk. */
  lemma UnlockedStep(w: World, e: Event)
    requires Inv(w) && Enabled(w, e) && Next(w, e).lock == None
    ensures DiskInv(Next(w, e))
  {}

  lemma CheckingStep(w: World, e: Event)
    requires Inv(w) && Enabled(w, e) && (e.FinishCopy? || e.CheckStage? || e.Open?)
    ensures DiskInv(Next(w, e))
  {}

  lemma RemovingStep(w: World, e: Event)
    requires Inv(w) && Enabled(w, e) && (e.RemoveStage? || e.Clean? || e.CleanFails?)
    ensures DiskInv(Next(w, e))
  {}

  lemma OtherStep(w: World, e: Event)
    requires Inv(w) && Enabled(w, e) && w.lock.Some? && w.lock != Some(Actor(e))
    ensures DiskInv(Next(w, e))
  {
    StepFrame(w, e);
    assert Next(w, e).procs[w.lock.value] == w.procs[w.lock.value];
  }

  lemma DiskStep(w: World, e: Event)
    requires Inv(w) && Enabled(w, e)
    ensures DiskInv(Next(w, e))
  {
    if w.lock.Some? && w.lock != Some(Actor(e)) { OtherStep(w, e); }
    else if OnOwnStage(e) { StageStep(w, e); }
    else { EntryStep(w, e); }
  }

  /** Steps on a stage the process has made, and the opening of what it published. */
  predicate OnOwnStage(e: Event) {
    e.Mark? || e.CopySome? || e.Publish? || e.FinishCopy? || e.CheckStage? || e.Open? || e.RemoveStage? || e.Clean?
    || e.CleanFails?
  }

  lemma StageStep(w: World, e: Event)
    requires Inv(w) && Enabled(w, e) && OnOwnStage(e)
    ensures DiskInv(Next(w, e))
  {
    if e.Mark? || e.CopySome? || e.Publish? { WritingStep(w, e); }
    else if e.FinishCopy? || e.CheckStage? || e.Open? { CheckingStep(w, e); }
    else { RemovingStep(w, e); }
  }

  lemma EntryStep(w: World, e: Event)
    requires Inv(w) && Enabled(w, e) && !OnOwnStage(e) && (w.lock.None? || w.lock == Some(Actor(e)))
    ensures DiskInv(Next(w, e))
  {
    if e.RecoverNext? || e.SkipUnreadable? { RecoveringStep(w, e); }
    else if e.TakeLock? { LockingStep(w, e.p, e.names); }
    else if e.Look? { LookStep(w, e.p); }
    else if e.Create? { CreateStep(w, e.p, e.random); }
    else if e.Fail? { FailStep(w, e.p, e.leftover); }
    else { LeavingStep(w, e); }
  }

  /** Processes that start, give up, unlock or crash leave the lock free. */
  lemma LeavingStep(w: World, e: Event)
    requires Inv(w) && Enabled(w, e) && (e.Start? || e.GiveUp? || e.Unlock? || e.Crash?)
    requires w.lock.None? || w.lock == Some(Actor(e))
    ensures DiskInv(Next(w, e))
  {
    assert Next(w, e).lock == None;
    UnlockedStep(w, e);
  }

  lemma HandlesStep(w: World, e: Event)
    requires Inv(w) && Enabled(w, e)
    ensures HandlesInv(Next(w, e))
  {
    StepFrame(w, e);
    BundlesStep(w, e);
  }

  lemma InvStep(w: World, e: Event)
    requires Inv(w) && Enabled(w, e)
    ensures Inv(Next(w, e))
  {
    LockStep(w, e);
    DiskStep(w, e);
    HandlesStep(w, e);
  }

  lemma {:induction false} InvRun(w: World, events: seq<Event>, v: World)
    requires Inv(w) && Run(w, events, v)
    ensures Inv(v)
    decreases |events|
  {
    if events != [] {
      InvStep(w, events[0]);
      InvRun(Next(w, events[0]), events[1..], v);
    }
  }
}
