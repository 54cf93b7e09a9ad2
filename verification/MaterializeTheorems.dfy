/** What any number of processes sharing one work directory can rely on, whatever fails or crashes. */
module MaterializeTheorems {
  import opened Wrappers
  import opened Materialize

  // ---- publications ----

  /** A publication is complete when it verifies with the identity its name carries. */
  ghost predicate Complete(verify: Tree -> Option<string>, name: string, tree: Tree) {
    exists digest :: IsDigest(digest) && name == FinalName(digest) && verify(tree) == Some(digest)
  }

  /** The name of a complete publication is its identity, written out. */
  lemma NameIsIdentity(verify: Tree -> Option<string>, name: string, tree: Tree)
    requires Complete(verify, name, tree)
    ensures |name| == 7 + 64 && name[..7] == "sha256-" && verify(tree) == Some(name[7..])
    ensures forall i :: 7 <= i < |name| ==> '0' <= name[i] <= '9' || 'a' <= name[i] <= 'f'
  {
    var digest :| IsDigest(digest) && name == FinalName(digest) && verify(tree) == Some(digest);
    assert name[7..] == digest;
    forall i | 7 <= i < |name| ensures '0' <= name[i] <= '9' || 'a' <= name[i] <= 'f' { assert name[i] == digest[i - 7]; }
  }

  /** `after` has every publication of `before` unchanged, and any other one is complete. */
  ghost predicate OnlyPublished(verify: Tree -> Option<string>, before: map<string, Tree>, after: map<string, Tree>) {
    && (forall n :: n in before ==> n in after && after[n] == before[n])
    && (forall n :: n in after && n !in before ==> Complete(verify, n, after[n]))
  }

  /** Renaming a stage onto its final name never finds the name taken, and what it publishes is
      the verified tree: the branch for a lost race is unreachable while the lock is held. */
  lemma RenameNeverLosesARace(w: World, p: nat)
    requires Inv(w) && Enabled(w, Publish(p))
    ensures var v, digest, stage := Next(w, Publish(p)), w.procs[p].digest, w.procs[p].pc.stage;
      && FinalName(digest) !in w.disk.bundles
      && BundleOf(w, stage).Some? && w.verify(BundleOf(w, stage).value) == Some(digest)
      && v.disk.bundles == w.disk.bundles[FinalName(digest) := BundleOf(w, stage).value]
      && v.procs[p].pc == Published(stage)
  {}

  lemma PublicationsStep(w: World, e: Event)
    requires Inv(w) && Enabled(w, e)
    ensures OnlyPublished(w.verify, w.disk.bundles, Next(w, e).disk.bundles)
  {
    BundlesStep(w, e);
    if e.Publish? { RenameNeverLosesARace(w, e.p); }
  }

  /** No step ever changes or removes a publication, and every one made is complete: each bundle
      name is absent until it holds a tree that verifies with that identity, and then for ever. */
  lemma {:induction false} PublicationsAreFinal(w: World, events: seq<Event>, v: World)
    requires Inv(w) && Run(w, events, v)
    ensures v.verify == w.verify && OnlyPublished(w.verify, w.disk.bundles, v.disk.bundles)
    decreases |events|
  {
    if events != [] {
      InvStep(w, events[0]);
      PublicationsStep(w, events[0]);
      PublicationsAreFinal(Next(w, events[0]), events[1..], v);
    }
  }

  /** So every publication made in a run carries in its name the identity it verifies with. */
  lemma NewPublicationsCarryTheirIdentity(w: World, events: seq<Event>, v: World, name: string)
    requires Inv(w) && Run(w, events, v) && name in v.disk.bundles && name !in w.disk.bundles
    ensures |name| == 7 + 64 && name[..7] == "sha256-" && w.verify(v.disk.bundles[name]) == Some(name[7..])
  {
    PublicationsAreFinal(w, events, v);
    NameIsIdentity(w.verify, name, v.disk.bundles[name]);
  }

  /** In a directory that held no bundles at first, whatever is found under a digest's name verifies
      with that digest, whatever other digests were published before. */
  lemma NothingElseUnderADigestsName(start: World, events: seq<Event>, w: World, digest: string)
    requires Initial(start) && start.disk.bundles == map[] && Run(start, events, w)
    ensures "sha256-" + digest in w.disk.bundles ==> w.verify(w.disk.bundles["sha256-" + digest]) == Some(digest)
  {
    var name := "sha256-" + digest;
    PublicationsAreFinal(start, events, w);
    if name in w.disk.bundles {
      NewPublicationsCarryTheirIdentity(start, events, w, name);
      assert name[7..] == digest;
    }
  }

  /** Two successful calls for different manifests, at whatever times, hold different publications
      under different names, both in place. */
  lemma DifferentManifestsDifferentPublications(start: World, before: seq<Event>, w: World, after: seq<Event>, v: World,
                                                p: nat, q: nat)
    requires Initial(start) && Run(start, before, w) && Run(w, after, v)
    requires p in w.procs && OutcomeOf(w.procs[p].pc).Ready?
    requires q in v.procs && OutcomeOf(v.procs[q].pc).Ready? && v.procs[q].digest != w.procs[p].digest
    ensures var one, other := "sha256-" + w.procs[p].digest, "sha256-" + v.procs[q].digest;
      && one != other && one in v.disk.bundles && other in v.disk.bundles
      && v.disk.bundles[one] == OutcomeOf(w.procs[p].pc).tree
      && v.disk.bundles[other] == OutcomeOf(v.procs[q].pc).tree
      && v.disk.bundles[one] != v.disk.bundles[other]
  {
    InvRun(start, before, w);
    InvRun(w, after, v);
    PublicationsAreFinal(w, after, v);
    assert HandleInv(w, w.procs[p]) && HandleInv(v, v.procs[q]);
    var one, other := "sha256-" + w.procs[p].digest, "sha256-" + v.procs[q].digest;
    assert one[7..] == w.procs[p].digest && other[7..] == v.procs[q].digest;
  }

  /** Two successful calls for one manifest, at whatever times, hold the same publication, which is
      still in place and verifies with the manifest's identity. */
  lemma SameManifestSamePublication(start: World, before: seq<Event>, w: World, after: seq<Event>, v: World, p: nat, q: nat)
    requires Initial(start) && Run(start, before, w) && Run(w, after, v)
    requires p in w.procs && OutcomeOf(w.procs[p].pc).Ready?
    requires q in v.procs && OutcomeOf(v.procs[q].pc).Ready? && v.procs[q].digest == w.procs[p].digest
    ensures OutcomeOf(w.procs[p].pc) == OutcomeOf(v.procs[q].pc)
    ensures IsPublished(v, w.procs[p].digest)
    ensures v.disk.bundles[FinalName(w.procs[p].digest)] == OutcomeOf(w.procs[p].pc).tree
  {
    InvRun(start, before, w);
    InvRun(w, after, v);
    PublicationsAreFinal(w, after, v);
    assert HandleInv(w, w.procs[p]) && HandleInv(v, v.procs[q]);
  }

  // ---- stages of live processes ----

  /** Until the holder of the lock takes its next step, nothing any other process does, crashes
      included, changes the disk or takes the lock; so nobody ever deletes a stage in use. */
  lemma {:induction false} LiveStageIsUntouched(w: World, events: seq<Event>, v: World, p: nat)
    requires Inv(w) && Run(w, events, v)
    requires p in w.procs && OwnStage(w.procs[p].pc).Some?
    requires forall e :: e in events ==> Actor(e) != p
    ensures v.disk == w.disk && v.lock == Some(p)
    ensures p in v.procs && v.procs[p] == w.procs[p]
    ensures forall q :: q in v.procs && q != p ==> OwnStage(v.procs[q].pc) == None
    decreases |events|
  {
    if events == [] {
      forall q | q in v.procs && q != p ensures OwnStage(v.procs[q].pc) == None { assert !Holding(v.procs[q].pc); }
    } else {
      InvStep(w, events[0]);
      StepFrame(w, events[0]);
      assert Actor(events[0]) != p;
      LiveStageIsUntouched(Next(w, events[0]), events[1..], v, p);
    }
  }

  // ---- recovery ----

  lemma {:induction false} FoundIsKept(w: World, events: seq<Event>, v: World, p: nat)
    requires LockInv(w) && Run(w, events, v)
    requires p in w.procs && !w.procs[p].pc.Waiting?
    ensures p in v.procs && !v.procs[p].pc.Waiting?
    ensures v.procs[p].found == w.procs[p].found && v.procs[p].digest == w.procs[p].digest
    decreases |events|
  {
    if events != [] {
      StepFrame(w, events[0]);
      LockStep(w, events[0]);
      FoundIsKept(Next(w, events[0]), events[1..], v, p);
    }
  }

  /** Points at which the staging directory holds exactly what recovery kept. */
  predicate AtRest(pc: Pc) {
    pc == Recovering([]) || pc == Creating || pc == Opening || (pc.Unlocking? && pc.outcome.Ready?)
  }

  /** Recovery removes, of what the staging directory held when the lock was taken, exactly the
      directories with a stage name and the stage marker, except those whose marker could not be
      read; and a call that succeeds leaves no stage of its own behind either. */
  lemma RecoveryIsExact(w: World, names: seq<string>, events: seq<Event>, v: World, p: nat)
    requires Inv(w) && Enabled(w, TakeLock(p, names)) && Run(Next(w, TakeLock(p, names)), events, v)
    requires p in v.procs && AtRest(v.procs[p].pc)
    ensures v.disk.staging == Recovered(w.disk.staging, v.procs[p].skipped)
    ensures v.procs[p].skipped == {} ==> forall n :: n in v.disk.staging ==> !Recoverable(n, v.disk.staging[n])
  {
    var locked := Next(w, TakeLock(p, names));
    InvStep(w, TakeLock(p, names));
    InvRun(locked, events, v);
    FoundIsKept(locked, events, v, p);
    assert Holding(v.procs[p].pc);
    if v.procs[p].pc == Recovering([]) {
      RecoveryEnds(v.procs[p].found, v.procs[p].skipped, v.disk.staging);
    }
  }

  ghost predicate Unowned(w: World, name: string) {
    forall q :: q in w.procs ==> OwnStage(w.procs[q].pc) != Some(name)
  }

  ghost predicate Keeps(w: World, v: World, p: nat, name: string)
    requires name in w.disk.staging
  {
    && name in v.disk.staging && v.disk.staging[name] == w.disk.staging[name]
    && p in v.procs && OwnStage(v.procs[p].pc) != Some(name)
  }

  lemma InterruptedKeeps(w: World, e: Event, name: string)
    requires Enabled(w, e) && (e.Fail? || e.Crash?)
    requires name in w.disk.staging && !Recoverable(name, w.disk.staging[name]) && OwnStage(w.procs[e.p].pc) != Some(name)
    ensures Keeps(w, Next(w, e), e.p, name)
  {}

  lemma WritingKeeps(w: World, e: Event, name: string)
    requires Enabled(w, e) && (e.Create? || e.Mark? || e.CopySome? || e.Publish?)
    requires name in w.disk.staging && OwnStage(w.procs[e.p].pc) != Some(name)
    ensures Keeps(w, Next(w, e), e.p, name)
  {}

  lemma RemovingKeeps(w: World, e: Event, name: string)
    requires Enabled(w, e) && (e.RecoverNext? || e.RemoveStage? || e.Clean? || e.CleanFails?)
    requires name in w.disk.staging && !Recoverable(name, w.disk.staging[name]) && OwnStage(w.procs[e.p].pc) != Some(name)
    ensures Keeps(w, Next(w, e), e.p, name)
  {}

  lemma ReadingKeeps(w: World, e: Event, name: string)
    requires Enabled(w, e)
    requires e.Start? || e.GiveUp? || e.TakeLock? || e.SkipUnreadable? || e.Look? || e.FinishCopy? || e.CheckStage?
          || e.Open? || e.Unlock?
    requires name in w.disk.staging && (e.p in w.procs ==> OwnStage(w.procs[e.p].pc) != Some(name))
    ensures Keeps(w, Next(w, e), e.p, name)
  {}

  lemma UnownedStep(w: World, e: Event, name: string)
    requires LockInv(w) && Enabled(w, e)
    requires name in w.disk.staging && !Recoverable(name, w.disk.staging[name]) && Unowned(w, name)
    ensures Keeps(w, Next(w, e), Actor(e), name) && Unowned(Next(w, e), name)
  {
    StepFrame(w, e);
    if e.Fail? || e.Crash? { InterruptedKeeps(w, e, name); }
    else if e.Create? || e.Mark? || e.CopySome? || e.Publish? { WritingKeeps(w, e, name); }
    else if e.RecoverNext? || e.RemoveStage? || e.Clean? || e.CleanFails? { RemovingKeeps(w, e, name); }
    else { ReadingKeeps(w, e, name); }
  }

  /** An entry of the staging directory that is not a marked stage, and that no live process is
      using, is kept for ever, whatever its name. */
  lemma {:induction false} ForeignEntriesAreKept(w: World, events: seq<Event>, v: World, name: string)
    requires Inv(w) && Run(w, events, v)
    requires name in w.disk.staging && !Recoverable(name, w.disk.staging[name]) && Unowned(w, name)
    ensures name in v.disk.staging && v.disk.staging[name] == w.disk.staging[name]
    decreases |events|
  {
    if events != [] {
      InvStep(w, events[0]);
      UnownedStep(w, events[0], name);
      ForeignEntriesAreKept(Next(w, events[0]), events[1..], v, name);
    }
  }

  // ---- what a crash leaves behind ----

  predicate Marked(entry: Stage) {
    entry.isDirectory && entry.marker == Some("laya-go materialization stage v1\n")
  }

  lemma OwnStageIsNamed(w: World, p: nat)
    requires Inv(w) && p in w.procs && OwnStage(w.procs[p].pc).Some?
    ensures w.lock == Some(p) && ValidStageName(OwnStage(w.procs[p].pc).value)
  {
    assert HolderInv(w, w.procs[p]);
  }

  lemma CrashFreesTheStage(w: World, p: nat, leftover: Option<Stage>)
    requires Inv(w) && Enabled(w, Crash(p, leftover)) && OwnStage(w.procs[p].pc).Some?
    ensures var v, stage := Next(w, Crash(p, leftover)), OwnStage(w.procs[p].pc).value;
      && Inv(v) && v.lock == None && Unowned(v, stage) && ValidStageName(stage)
      && v.disk.staging == Left(w.disk.staging, stage, leftover)
  {
    var v := Next(w, Crash(p, leftover));
    OwnStageIsNamed(w, p);
    InvStep(w, Crash(p, leftover));
    forall q | q in v.procs ensures OwnStage(v.procs[q].pc) == None { assert !Holding(v.procs[q].pc); }
  }

  lemma {:induction false} UnlockedDiskStays(w: World, events: seq<Event>, v: World)
    requires LockInv(w) && w.lock == None && Run(w, events, v)
    requires forall e :: e in events ==> !e.TakeLock?
    ensures v.disk == w.disk && v.lock == None
    decreases |events|
  {
    if events != [] {
      assert events[0] in events;
      StepFrame(w, events[0]);
      LockStep(w, events[0]);
      UnlockedDiskStays(Next(w, events[0]), events[1..], v);
    }
  }

  /** The next call to get the lock, once its recovery is over, has removed what a crash left of a
      stage if and only if that still is a directory with the exact marker. */
  lemma NextRecoveryRemovesExactlyMarked(w: World, p: nat, leftover: Option<Stage>, between: seq<Event>, u: World,
                                         q: nat, names: seq<string>, events: seq<Event>, v: World)
    requires Inv(w) && Enabled(w, Crash(p, leftover)) && OwnStage(w.procs[p].pc).Some?
    requires Run(Next(w, Crash(p, leftover)), between, u) && forall e :: e in between ==> !e.TakeLock?
    requires Enabled(u, TakeLock(q, names)) && Run(Next(u, TakeLock(q, names)), events, v)
    requires q in v.procs && AtRest(v.procs[q].pc) && v.procs[q].skipped == {}
    ensures OwnStage(w.procs[p].pc).value in v.disk.staging <==> leftover.Some? && !Marked(leftover.value)
  {
    CrashFreesTheStage(w, p, leftover);
    UnlockedDiskStays(Next(w, Crash(p, leftover)), between, u);
    InvRun(Next(w, Crash(p, leftover)), between, u);
    RecoveryIsExact(u, names, events, v, q);
  }

  /** However many calls come and go in between, what a crash left of a stage is still there after a
      complete recovery if and only if it was not a directory with the exact marker. */
  lemma LeftoverStaysExactlyUnmarked(w: World, p: nat, leftover: Stage, between: seq<Event>, u: World,
                                     q: nat, names: seq<string>, events: seq<Event>, v: World)
    requires Inv(w) && Enabled(w, Crash(p, Some(leftover))) && OwnStage(w.procs[p].pc).Some?
    requires Run(Next(w, Crash(p, Some(leftover))), between, u)
    requires Enabled(u, TakeLock(q, names)) && Run(Next(u, TakeLock(q, names)), events, v)
    requires q in v.procs && AtRest(v.procs[q].pc) && v.procs[q].skipped == {}
    ensures var stage := OwnStage(w.procs[p].pc).value;
      (stage in v.disk.staging && v.disk.staging[stage] == leftover) <==> !Marked(leftover)
  {
    var crashed, stage := Next(w, Crash(p, Some(leftover))), OwnStage(w.procs[p].pc).value;
    CrashFreesTheStage(w, p, Some(leftover));
    InvRun(crashed, between, u);
    RecoveryIsExact(u, names, events, v, q);
    if !Marked(leftover) {
      ForeignEntriesAreKept(crashed, between, u, stage);
      assert v.disk.staging == Recovered(u.disk.staging, {});
    }
  }

  /** An unmarked leftover stays whatever runs afterwards, at rest or not. */
  lemma UnmarkedLeftoverIsNeverRecovered(w: World, p: nat, leftover: Stage, events: seq<Event>, v: World)
    requires Inv(w) && Enabled(w, Crash(p, Some(leftover))) && OwnStage(w.procs[p].pc).Some?
    requires !Marked(leftover) && Run(Next(w, Crash(p, Some(leftover))), events, v)
    ensures var stage := OwnStage(w.procs[p].pc).value; stage in v.disk.staging && v.disk.staging[stage] == leftover
  {
    CrashFreesTheStage(w, p, Some(leftover));
    ForeignEntriesAreKept(Next(w, Crash(p, Some(leftover))), events, v, OwnStage(w.procs[p].pc).value);
  }

  /** A call that gets as far as creating its stage, in an empty directory. */
  function UpToCreation(digest: string, random: string): seq<Event> {
    [Start(0, digest)] + [TakeLock(0, [])] + [Look(0)] + [Create(0, random)]
  }

  lemma CreationIsReached(verify: Tree -> Option<string>, digest: string, random: string) returns (v: World)
    requires IsDigest(digest) && |random| == RANDOM_LENGTH && IsLowerHex(random)
    ensures Run(World(verify, Disk(map[], map[]), None, map[]), UpToCreation(digest, random), v)
    ensures v.disk.staging == map[StageName(digest, random) := Stage(true, None, None)]
    ensures 0 in v.procs && v.procs[0].pc == Marking(StageName(digest, random))
  {
    var start := World(verify, Disk(map[], map[]), None, map[]);
    var locked := LockIsReached(verify, digest);
    var looked := Next(locked, Look(0));
    RunOn(start, [Start(0, digest)] + [TakeLock(0, [])], locked, Look(0));
    assert looked.procs[0].pc == Creating && looked.disk.staging == map[];
    v := Next(looked, Create(0, random));
    RunOn(start, [Start(0, digest)] + [TakeLock(0, [])] + [Look(0)], looked, Create(0, random));
  }

  lemma LockIsReached(verify: Tree -> Option<string>, digest: string) returns (v: World)
    requires IsDigest(digest)
    ensures Run(World(verify, Disk(map[], map[]), None, map[]), [Start(0, digest)] + [TakeLock(0, [])], v)
    ensures v.disk == Disk(map[], map[]) && v.procs == map[0 := Process(digest, Recovering([]), map[], {})]
  {
    var start := World(verify, Disk(map[], map[]), None, map[]);
    var started := Next(start, Start(0, digest));
    RunOn(start, [], start, Start(0, digest));
    assert [] + [Start(0, digest)] == [Start(0, digest)];
    v := Next(started, TakeLock(0, []));
    RunOn(start, [Start(0, digest)], started, TakeLock(0, []));
  }

  /** Such leftovers do happen: crashing there, before the marker is written, leaves a directory
      under a stage name that nothing any later call does ever removes. */
  lemma CrashBeforeMarkerLeavesStageForEver(verify: Tree -> Option<string>, digest: string, random: string)
      returns (v: World)
    requires IsDigest(digest) && |random| == RANDOM_LENGTH && IsLowerHex(random)
    ensures var start := World(verify, Disk(map[], map[]), None, map[]);
      Initial(start) && Run(start, UpToCreation(digest, random) + [Crash(0, Some(Stage(true, None, None)))], v)
    ensures v.disk.staging == map[StageName(digest, random) := Stage(true, None, None)]
    ensures forall later, u :: Run(v, later, u) ==> StageName(digest, random) in u.disk.staging
  {
    var start, leftover := World(verify, Disk(map[], map[]), None, map[]), Stage(true, None, None);
    var created := CreationIsReached(verify, digest, random);
    RunOn(start, UpToCreation(digest, random), created, Crash(0, Some(leftover)));
    v := Next(created, Crash(0, Some(leftover)));
    InvRun(start, UpToCreation(digest, random), created);
    forall later, u | Run(v, later, u) ensures StageName(digest, random) in u.disk.staging {
      UnmarkedLeftoverIsNeverRecovered(created, 0, leftover, later, u);
    }
  }

  // ---- the lock is always released ----

  /** How many more steps a process takes at most, not counting writes into its stage. */
  function Remaining(pc: Pc): nat {
    match pc
    case Recovering(todo) => 12 + |todo|
    case Creating => 11
    case Marking(_) => 10
    case Copying(_) => 9
    case Staged(_) => 8
    case Verified(_) => 7
    case Published(_) => 6
    case Opening => 4
    case Cleaning(_, _) => 3
    case Unlocking(_) => 1
    case _ => 0
  }

  function StepsOf(events: seq<Event>, p: nat): nat {
    if events == [] then 0
    else (if Actor(events[0]) == p && !events[0].CopySome? then 1 else 0) + StepsOf(events[1..], p)
  }

  lemma CountdownStep(w: World, e: Event)
    requires Enabled(w, e) && e.p in w.procs && !w.procs[e.p].pc.Waiting?
    ensures e.p in Next(w, e).procs && !Next(w, e).procs[e.p].pc.Waiting?
    ensures StepsOf([e], e.p) + Remaining(Next(w, e).procs[e.p].pc) <= Remaining(w.procs[e.p].pc)
  {
    assert [e][1..] == [];
  }

  lemma NothingRemains(pc: Pc)
    ensures Remaining(pc) == 0 <==> !Holding(pc)
  {}

  /** A process that has the lock takes a bounded number of steps before it releases it, in any
      interleaving, and is the only one that can. */
  lemma {:induction false} HolderCountdown(w: World, events: seq<Event>, v: World, p: nat)
    requires LockInv(w) && Run(w, events, v)
    requires p in w.procs && !w.procs[p].pc.Waiting?
    ensures p in v.procs && StepsOf(events, p) + Remaining(v.procs[p].pc) <= Remaining(w.procs[p].pc)
    ensures Remaining(v.procs[p].pc) == 0 <==> v.lock != Some(p)
    decreases |events|
  {
    if events == [] {
      NothingRemains(w.procs[p].pc);
    } else {
      StepFrame(w, events[0]);
      LockStep(w, events[0]);
      if Actor(events[0]) == p { CountdownStep(w, events[0]); }
      HolderCountdown(Next(w, events[0]), events[1..], v, p);
    }
  }

  /** The step the holder of the lock takes when nothing fails. */
  function OwnStep(p: nat, pc: Pc, random: string): Event {
    match pc
    case Recovering(todo) => if todo == [] then Look(p) else RecoverNext(p)
    case Creating => Create(p, random)
    case Marking(_) => Mark(p)
    case Copying(_) => FinishCopy(p)
    case Staged(_) => CheckStage(p)
    case Verified(_) => Publish(p)
    case Published(_) => RemoveStage(p)
    case Opening => Open(p)
    case Cleaning(_, _) => Clean(p)
    case _ => Unlock(p, true)
  }

  /** The holder of the lock is never blocked, so nobody waits for the lock behind a stuck process. */
  lemma HolderIsNeverStuck(w: World, random: string)
    requires LockInv(w) && w.lock.Some? && |random| == RANDOM_LENGTH && IsLowerHex(random)
    ensures w.lock.value in w.procs && Enabled(w, OwnStep(w.lock.value, w.procs[w.lock.value].pc, random))
  {
    assert Holding(w.procs[w.lock.value].pc);
  }
}
