/** One materialize call as a program over the shared directory, its deferred calls included.
    Every call on the file system may fail; each method is proved to make exactly steps of the
    shared protocol, so whatever holds of the protocol's runs holds of the program. */
module MaterializeCall {
  import opened Wrappers
  import opened Materialize
  import opened MaterializeTheorems
  import BundleFiles
  import BundleTree
  import B = BundleStage
  import S = StageCopy

  /** What holds of a call once it has released the lock. */
  lemma CallEnds(w: World, p: nat, names: seq<string>, events: seq<Event>, u: World, result: Outcome, unlocked: bool)
    requires Inv(w) && Enabled(w, TakeLock(p, names)) && Run(Next(w, TakeLock(p, names)), events, u)
    requires p in u.procs && u.procs[p].pc == Unlocking(result)
    ensures var v, outcome := Next(u, Unlock(p, unlocked)), if unlocked then result else Failed;
      && Run(w, [TakeLock(p, names)] + events + [Unlock(p, unlocked)], v)
      && v.lock == None && v.disk == u.disk && v.procs[p].pc == Done(outcome)
      && OnlyPublished(w.verify, w.disk.bundles, v.disk.bundles)
      && (outcome.Ready? ==>
           && IsPublished(v, v.procs[p].digest) && v.disk.bundles[FinalName(v.procs[p].digest)] == outcome.tree
           && v.disk.staging == Recovered(w.disk.staging, v.procs[p].skipped))
  {
    var all, v := [TakeLock(p, names)] + events, Next(u, Unlock(p, unlocked));
    assert all[1..] == events;
    RunOn(w, all, u, Unlock(p, unlocked));
    InvRun(w, all + [Unlock(p, unlocked)], v);
    PublicationsAreFinal(w, all + [Unlock(p, unlocked)], v);
    if result.Ready? { RecoveryIsExact(w, names, events, u, p); }
    assert HandleInv(v, v.procs[p]);
  }

  /** The file system's answers: whether each call works, and what a call that fails leaves of the
      entry it was working on. */
  class Calls {
    const works: nat -> bool
    const leaves: nat -> Option<Stage>
    var made: nat

    constructor (works: nat -> bool, leaves: nat -> Option<Stage>)
      ensures this.works == works && this.leaves == leaves && made == 0
    {
      this.works, this.leaves := works, leaves;
      made := 0;
    }

    method Try() returns (ok: bool, leftover: Option<Stage>)
      modifies this
      ensures ok == works(old(made)) && leftover == leaves(old(made)) && made == old(made) + 1
    {
      ok, leftover := works(made), leaves(made);
      made := made + 1;
    }

    ghost predicate Reliable() {
      forall n :: works(n)
    }
  }

  /** When a call that meets no failure succeeds: the publication is already there and verifies, or
      the stage's name is free after recovery and what the source yields verifies. */
  ghost predicate Succeeds(verify: Tree -> Option<string>, staging: map<string, Stage>, bundles: map<string, Tree>,
                           digest: string, random: string, copyVerifies: bool)
  {
    if FinalName(digest) in bundles then verify(bundles[FinalName(digest)]) == Some(digest)
    else StageName(digest, random) !in Recovered(staging, {}) && copyVerifies
  }

  /** The shared directory as one call works on it: `verify` and `hash` stand for verification and
      the digest, `calls` answers for the file system, `ctx` is the context the copy loops look at,
      and `source` and `items` are what is copied, through `buffer`. */
  class Namespace {
    const verify: Tree -> Option<string>
    const hash: seq<byte> -> string
    const calls: Calls
    const ctx: S.Context
    const buffer: array<byte>
    const source: B.Source
    const items: seq<B.Item>
    var staging: map<string, Stage>
    var bundles: map<string, Tree>

    constructor (verify: Tree -> Option<string>, hash: seq<byte> -> string, calls: Calls, ctx: S.Context,
                 buffer: array<byte>, source: B.Source, items: seq<B.Item>,
                 staging: map<string, Stage>, bundles: map<string, Tree>)
      ensures this.verify == verify && this.hash == hash && this.calls == calls && this.ctx == ctx
      ensures this.buffer == buffer && this.source == source && this.items == items
      ensures this.staging == staging && this.bundles == bundles
    {
      this.verify, this.hash, this.calls, this.ctx := verify, hash, calls, ctx;
      this.buffer, this.source, this.items := buffer, source, items;
      this.staging, this.bundles := staging, bundles;
    }

    /** No call fails and no context ends, the copy loops' included. */
    ghost predicate Undisturbed() {
      calls.Reliable() && S.Quiet(ctx.done) && B.Smooth(source)
    }

    ghost predicate Copies(tree: Tree) {
      B.Copies(source, items, buffer.Length, hash, tree)
    }

    /** What the source yields verifies with this identity. */
    ghost predicate SourceVerifies(digest: string) {
      exists tree :: Copies(tree) && verify(tree) == Some(digest)
    }

    /** The directory is the disk of `w`, in which process `p` has the lock and is at `pc`. */
    ghost predicate At(w: World, p: nat, digest: string, pc: Pc)
      reads this
    {
      && w.verify == verify && w.disk == Disk(staging, bundles)
      && w.lock == Some(p) && p in w.procs && w.procs[p].digest == digest && w.procs[p].pc == pc
    }

    /** The call that just ended was the step `e` of the protocol, and took `p` to `pc`. */
    ghost predicate Took(w: World, e: Event, p: nat, digest: string, pc: Pc)
      reads this
    {
      Enabled(w, e) && At(Next(w, e), p, digest, pc)
    }

    method ReadDir() returns (names: seq<string>)
      ensures Lists(names, staging) && |names| == |staging|
    {
      names := [];
      var rest := staging.Keys;
      while rest != {}
        invariant forall n :: n in staging <==> n in names || n in rest
        invariant (forall n :: n in names ==> n !in rest) && |names| + |rest| == |staging.Keys|
        invariant forall i, j :: 0 <= i < j < |names| ==> names[i] != names[j]
      {
        var name :| name in rest;
        names, rest := names + [name], rest - {name};
      }
    }

    // ---- recovery ----

    /** The entry at the head of the listing: skipped, left alone, or removed. */
    method RecoverEntry(todo: seq<string>, ghost w: World, p: nat, ghost digest: string) returns (ok: bool, ghost e: Event)
      requires todo != [] && At(w, p, digest, Recovering(todo))
      modifies this`staging, calls
      ensures Took(w, e, p, digest, if ok then Recovering(todo[1..]) else Unlocking(Failed))
      ensures calls.Reliable() ==> ok && e == RecoverNext(p)
    {
      var name := todo[0];
      var leftover;
      // the context
      ok, leftover := calls.Try();
      if !ok {
        e := Fail(p, if name in staging then Some(staging[name]) else None);
        assert Interrupted(staging, Recovering(todo), e.leftover) == staging;
        return;
      }
      // the marker
      ok, leftover := calls.Try();
      if !ok {
        return true, SkipUnreadable(p);
      }
      e := RecoverNext(p);
      if name in staging && Recoverable(name, staging[name]) {
        ok, leftover := calls.Try();
        if ok {
          staging := staging - {name};
        } else {
          staging, e := Left(staging, name, leftover), Fail(p, leftover);
        }
      }
    }

    method RecoverStages(names: seq<string>, ghost w: World, p: nat, ghost digest: string)
      returns (ok: bool, ghost events: seq<Event>, ghost v: World)
      requires At(w, p, digest, Recovering(names))
      modifies this`staging, calls
      ensures Run(w, events, v) && At(v, p, digest, if ok then Recovering([]) else Unlocking(Failed))
      ensures calls.Reliable() ==> ok && v.procs[p].skipped == w.procs[p].skipped
      ensures |events| <= |names|
    {
      events, v, ok := [], w, true;
      var i := 0;
      while i < |names| && ok
        invariant 0 <= i <= |names| && |events| == i
        invariant Run(w, events, v) && At(v, p, digest, if ok then Recovering(names[i..]) else Unlocking(Failed))
        invariant calls.Reliable() ==> ok && v.procs[p].skipped == w.procs[p].skipped
      {
        assert names[i..][1..] == names[i + 1..];
        ghost var e;
        ok, e := RecoverEntry(names[i..], v, p, digest);
        RunOn(w, events, v, e);
        events, v, i := events + [e], Next(v, e), i + 1;
      }
    }

    // ---- the process's own stage: one call, one step ----

    method Interrupt(ghost w: World, p: nat, ghost digest: string, ghost pc: Pc, stage: string, leftover: Option<Stage>)
      returns (ghost e: Event)
      requires At(w, p, digest, pc) && OwnStage(pc) == Some(stage) && !pc.Cleaning?
      modifies this`staging
      ensures Took(w, e, p, digest, Cleaning(stage, Failed))
    {
      staging, e := Left(staging, stage, leftover), Fail(p, leftover);
    }

    /** The stage holds this much of the copy. */
    ghost predicate Holds(stage: string, bundle: Option<Tree>)
      reads this
    {
      stage in staging && staging[stage].bundle == bundle
    }

    method WriteMarker(ghost w: World, p: nat, ghost digest: string, stage: string) returns (ok: bool, ghost e: Event)
      requires At(w, p, digest, Marking(stage))
      modifies this`staging, calls
      ensures Took(w, e, p, digest, if ok then Copying(stage) else Cleaning(stage, Failed))
      ensures ok ==> Holds(stage, None)
      ensures calls.Reliable() ==> ok
    {
      var leftover;
      ok, leftover := calls.Try();
      if ok {
        staging, e := staging[stage := Stage(true, Some(STAGE_MARKER), None)], Mark(p);
      } else {
        e := Interrupt(w, p, digest, Marking(stage), stage, leftover);
      }
    }

    method CopyPart(ghost w: World, p: nat, ghost digest: string, stage: string, tree: Tree) returns (ok: bool, ghost e: Event)
      requires At(w, p, digest, Copying(stage))
      modifies this`staging, calls
      ensures Took(w, e, p, digest, if ok then Copying(stage) else Cleaning(stage, Failed))
      ensures ok ==> Holds(stage, Some(tree))
      ensures calls.Reliable() ==> ok
    {
      var leftover;
      ok, leftover := calls.Try();
      if ok {
        staging, e := staging[stage := Stage(true, Some(STAGE_MARKER), Some(tree))], CopySome(p, tree);
      } else {
        e := Interrupt(w, p, digest, Copying(stage), stage, leftover);
      }
    }

    /** Whether the staged tree verifies with the wanted identity. */
    predicate StageVerifies(stage: string, digest: string)
      reads this
    {
      stage in staging && staging[stage].bundle.Some? && verify(staging[stage].bundle.value) == Some(digest)
    }

    method EndCopy(ghost w: World, p: nat, digest: string, stage: string) returns (ok: bool, ghost e: Event)
      requires At(w, p, digest, Copying(stage))
      modifies this`staging, calls
      ensures Took(w, e, p, digest, if ok then Staged(stage) else Cleaning(stage, Failed))
      ensures ok ==> StageVerifies(stage, digest) && staging == old(staging)
      ensures calls.Reliable() ==> staging == old(staging) && ok == StageVerifies(stage, digest)
    {
      var leftover;
      ok, leftover := calls.Try();
      if ok {
        ok, e := StageVerifies(stage, digest), FinishCopy(p);
      } else {
        e := Interrupt(w, p, digest, Copying(stage), stage, leftover);
      }
    }

    method VerifyStage(ghost w: World, p: nat, digest: string, stage: string) returns (ok: bool, ghost e: Event)
      requires At(w, p, digest, Staged(stage))
      modifies this`staging, calls
      ensures Took(w, e, p, digest, if ok then Verified(stage) else Cleaning(stage, Failed))
      ensures ok ==> StageVerifies(stage, digest) && staging == old(staging)
      ensures calls.Reliable() ==> staging == old(staging) && ok == StageVerifies(stage, digest)
    {
      var leftover;
      ok, leftover := calls.Try();
      if ok {
        ok, e := StageVerifies(stage, digest), CheckStage(p);
      } else {
        e := Interrupt(w, p, digest, Staged(stage), stage, leftover);
      }
    }

    method OpenPublication(digest: string) returns (outcome: Outcome)
      ensures outcome == if FinalName(digest) in bundles && verify(bundles[FinalName(digest)]) == Some(digest)
        then Ready(bundles[FinalName(digest)]) else Failed
    {
      var name := FinalName(digest);
      outcome := if name in bundles && verify(bundles[name]) == Some(digest) then Ready(bundles[name]) else Failed;
    }

    /** The no-replace rename. When the final name is taken the winner is opened instead. */
    method RenameNoReplace(ghost w: World, p: nat, digest: string, stage: string)
      returns (renamed: bool, outcome: Outcome, ghost e: Event)
      requires At(w, p, digest, Verified(stage))
      modifies this, calls
      ensures Took(w, e, p, digest, if renamed then Published(stage) else Cleaning(stage, outcome))
      ensures renamed ==> FinalName(digest) !in old(bundles) && FinalName(digest) in bundles
      ensures renamed ==> stage in old(staging) && old(staging)[stage].bundle == Some(bundles[FinalName(digest)])
      ensures !renamed && outcome.Ready? ==> FinalName(digest) in old(bundles)
      ensures calls.Reliable() && FinalName(digest) !in old(bundles) && old(StageVerifies(stage, digest)) ==>
        && renamed && FinalName(digest) in bundles && verify(bundles[FinalName(digest)]) == Some(digest)
    {
      var ok, leftover := calls.Try();
      renamed, outcome := false, Failed;
      if !ok {
        e := Interrupt(w, p, digest, Verified(stage), stage, leftover);
        return;
      }
      e := Publish(p);
      if FinalName(digest) in bundles {
        outcome := OpenPublication(digest);
      } else if stage in staging && staging[stage].bundle.Some? {
        bundles := bundles[FinalName(digest) := staging[stage].bundle.value];
        staging := staging[stage := staging[stage].(bundle := None)];
        renamed := true;
      }
    }

    method RemovePublishedStage(ghost w: World, p: nat, ghost digest: string, stage: string) returns (ok: bool, ghost e: Event)
      requires At(w, p, digest, Published(stage))
      modifies this`staging, calls
      ensures Took(w, e, p, digest, if ok then Opening else Cleaning(stage, Failed))
      ensures calls.Reliable() ==> ok
    {
      var leftover;
      ok, leftover := calls.Try();
      if ok {
        staging, e := staging - {stage}, RemoveStage(p);
      } else {
        e := Interrupt(w, p, digest, Published(stage), stage, leftover);
      }
    }

    method OpenDelivered(ghost w: World, p: nat, digest: string) returns (outcome: Outcome, ghost e: Event)
      requires At(w, p, digest, Opening)
      modifies calls
      ensures Took(w, e, p, digest, Unlocking(outcome))
      ensures outcome.Ready? ==> FinalName(digest) in bundles && bundles[FinalName(digest)] == outcome.tree
      ensures calls.Reliable() ==> e == Open(p)
    {
      var ok, leftover := calls.Try();
      outcome, e := Failed, Fail(p, None);
      if ok {
        outcome := OpenPublication(digest);
        e := Open(p);
      }
    }

    /** The deferred cleanup of a stage that is still owned. */
    method CleanUp(ghost w: World, p: nat, ghost digest: string, stage: string, result: Outcome)
      returns (outcome: Outcome, ghost e: Event)
      requires At(w, p, digest, Cleaning(stage, result))
      modifies this`staging, calls
      ensures Took(w, e, p, digest, Unlocking(outcome))
      ensures outcome == result || outcome == Failed
    {
      var ok, leftover := calls.Try();
      if ok {
        staging, e, outcome := staging - {stage}, Clean(p), result;
      } else {
        staging, e, outcome := Left(staging, stage, leftover), CleanFails(p, leftover), Failed;
      }
    }

    /** Whether the publication is already there; then the call ends with what opening it gives. */
    method LookForPublication(ghost w: World, p: nat, digest: string)
      returns (found: bool, outcome: Outcome, ghost e: Event)
      requires At(w, p, digest, Recovering([]))
      modifies calls
      ensures Took(w, e, p, digest, if found then Unlocking(outcome) else Creating)
      ensures found && outcome.Ready? ==> FinalName(digest) in bundles
      ensures calls.Reliable() ==> e == Look(p)
    {
      var inspected, leftover := calls.Try();
      if inspected {
        found, outcome, e := FinalName(digest) in bundles, Failed, Look(p);
        if found { outcome := OpenPublication(digest); }
      } else {
        found, outcome, e := true, Failed, Fail(p, None);
      }
    }

    method MakeStage(ghost w: World, p: nat, digest: string, random: string) returns (stage: Option<string>, ghost e: Event)
      requires At(w, p, digest, Creating) && |random| == RANDOM_LENGTH && IsLowerHex(random)
      modifies this`staging, calls
      ensures Took(w, e, p, digest, if stage.Some? then Marking(stage.value) else Unlocking(Failed))
      ensures stage.Some? ==> stage.value == StageName(digest, random) && stage.value !in old(staging)
      ensures calls.Reliable() ==> e == Create(p, random)
    {
      var name := StageName(digest, random);
      var made, leftover := calls.Try();
      stage, e := None, if name in staging then Create(p, random) else Fail(p, None);
      if made && name !in staging {
        staging := staging[name := Stage(true, None, None)];
        stage, e := Some(name), Create(p, random);
      }
    }

    // ---- the call ----

    /** The stage holds a copy of the first `k` files. */
    ghost predicate HoldsFirst(stage: string, k: nat, tree: Tree)
      reads this
    {
      k <= |items| && Holds(stage, Some(tree)) && B.Copies(source, items[..k], buffer.Length, hash, tree)
    }

    /** The next file: copied into the stage, or the end of the stage. */
    method StageItem(ghost w: World, p: nat, ghost digest: string, stage: string, k: nat, sofar: Tree)
      returns (ok: bool, next: Tree, ghost e: Event)
      requires At(w, p, digest, Copying(stage)) && HoldsFirst(stage, k, sofar) && k < |items|
      modifies this`staging, calls, ctx, buffer
      ensures Took(w, e, p, digest, if ok then Copying(stage) else Cleaning(stage, Failed))
      ensures ok ==> HoldsFirst(stage, k + 1, next)
      ensures Undisturbed() && !ok ==> !exists t :: Copies(t)
    {
      var item := items[k];
      var content;
      ok, content := B.CopyItem(ctx, buffer, source, item, hash);
      next := sofar[item.path := content];
      if ok {
        B.CopiesSnoc(source, items, k, buffer.Length, hash, sofar, content);
        ok, e := CopyPart(w, p, digest, stage, next);
      } else {
        var _, leftover := calls.Try();
        e := Interrupt(w, p, digest, Copying(stage), stage, leftover);
        forall t | Copies(t) ensures B.Yields(source, item, buffer.Length, hash, t[item.path]) {}
      }
    }

    /** The copy, file by file. It is complete, or stops at a file that cannot be had. */
    method CopyBundle(ghost w: World, p: nat, ghost digest: string, stage: string)
      returns (ok: bool, ghost tree: Tree, ghost events: seq<Event>, ghost v: World)
      requires At(w, p, digest, Copying(stage)) && Holds(stage, Some(map[]))
      modifies this`staging, calls, ctx, buffer
      ensures Run(w, events, v) && At(v, p, digest, if ok then Copying(stage) else Cleaning(stage, Failed))
      ensures ok ==> Copies(tree) && Holds(stage, Some(tree))
      ensures Undisturbed() && !ok ==> !exists t :: Copies(t)
      ensures |events| <= |items|
    {
      events, v, ok := [], w, true;
      var now: Tree := map[];
      var k := 0;
      while k < |items| && ok
        invariant k <= |items| && |events| == k
        invariant Run(w, events, v) && At(v, p, digest, if ok then Copying(stage) else Cleaning(stage, Failed))
        invariant ok ==> HoldsFirst(stage, k, now)
        invariant Undisturbed() && !ok ==> !exists t :: Copies(t)
      {
        ghost var e;
        ok, now, e := StageItem(v, p, digest, stage, k, now);
        RunOn(w, events, v, e);
        events, v, k := events + [e], Next(v, e), k + 1;
      }
      tree := now;
      assert items[..|items|] == items;
    }

    /** The marker, the bundle's directory, then the copy. */
    method FillStage(ghost w: World, p: nat, ghost digest: string, stage: string)
      returns (ok: bool, ghost tree: Tree, ghost events: seq<Event>, ghost v: World)
      requires At(w, p, digest, Marking(stage))
      modifies this`staging, calls, ctx, buffer
      ensures Run(w, events, v) && At(v, p, digest, if ok then Copying(stage) else Cleaning(stage, Failed))
      ensures ok ==> Copies(tree) && Holds(stage, Some(tree))
      ensures Undisturbed() && !ok ==> !exists t :: Copies(t)
      ensures |events| <= |items| + 2
    {
      ghost var e, more, u;
      tree := map[];
      ok, e := WriteMarker(w, p, digest, stage);
      events, v := [e], Next(w, e);
      assert [e][1..] == [];
      if !ok { return; }
      ok, e := CopyPart(v, p, digest, stage, map[]);
      RunOn(w, events, v, e);
      events, v := events + [e], Next(v, e);
      if !ok { return; }
      ok, tree, more, u := CopyBundle(v, p, digest, stage);
      RunJoin(w, events, v, more, u);
      events, v := events + more, u;
    }

    /** Both verifications of the staged copy. */
    method CheckCopy(ghost w: World, p: nat, digest: string, stage: string)
      returns (ok: bool, ghost events: seq<Event>, ghost v: World)
      requires At(w, p, digest, Copying(stage))
      modifies this`staging, calls
      ensures Run(w, events, v) && At(v, p, digest, if ok then Verified(stage) else Cleaning(stage, Failed))
      ensures ok ==> StageVerifies(stage, digest)
      ensures ok ==> staging == old(staging)
      ensures calls.Reliable() ==> ok == old(StageVerifies(stage, digest))
      ensures |events| <= 2
    {
      ghost var e;
      events, v := [], w;
      ok, e := EndCopy(v, p, digest, stage);
      RunOn(w, events, v, e);
      events, v := events + [e], Next(v, e);
      if !ok { return; }
      ok, e := VerifyStage(v, p, digest, stage);
      RunOn(w, events, v, e);
      events, v := events + [e], Next(v, e);
    }

    /** Marker, copy, verification: up to a stage that is ready to publish. */
    method PrepareStage(ghost w: World, p: nat, digest: string, stage: string)
      returns (ok: bool, ghost events: seq<Event>, ghost v: World)
      requires At(w, p, digest, Marking(stage))
      modifies this`staging, calls, ctx, buffer
      ensures Run(w, events, v) && At(v, p, digest, if ok then Verified(stage) else Cleaning(stage, Failed))
      ensures ok ==> StageVerifies(stage, digest) && exists tree :: Copies(tree) && Holds(stage, Some(tree))
      ensures Undisturbed() ==> (ok <==> SourceVerifies(digest))
      ensures |events| <= |items| + 4
    {
      ghost var tree, more, u;
      ok, tree, events, v := FillStage(w, p, digest, stage);
      if !ok { return; }
      forall t | Copies(t) ensures t == tree { B.CopiesOnce(source, items, buffer.Length, hash, t, tree); }
      ok, more, u := CheckCopy(v, p, digest, stage);
      RunJoin(w, events, v, more, u);
      events, v := events + more, u;
    }

    /** After the rename its directory is closed and the publication synchronized. */
    method SyncPublication(ghost w: World, p: nat, ghost digest: string, stage: string)
      returns (ok: bool, ghost events: seq<Event>, ghost v: World)
      requires At(w, p, digest, Published(stage))
      modifies this`staging, calls
      ensures Run(w, events, v) && At(v, p, digest, if ok then Published(stage) else Cleaning(stage, Failed))
      ensures calls.Reliable() ==> ok
      ensures |events| == if ok then 0 else 1
    {
      var leftover;
      ok, leftover := calls.Try();
      events, v := [], w;
      if !ok {
        ghost var e := Interrupt(w, p, digest, Published(stage), stage, leftover);
        events, v := [e], Next(w, e);
        assert events[1..] == [];
      }
    }

    /** Removal of the emptied stage, then opening: the stage is owned until it is removed. */
    method FinishPublication(ghost w: World, p: nat, digest: string, stage: string)
      returns (outcome: Outcome, stageOwned: bool, ghost events: seq<Event>, ghost v: World)
      requires At(w, p, digest, Published(stage))
      modifies this`staging, calls
      ensures Run(w, events, v) && At(v, p, digest, if stageOwned then Cleaning(stage, outcome) else Unlocking(outcome))
      ensures outcome.Ready? ==> FinalName(digest) in bundles && bundles[FinalName(digest)] == outcome.tree
      ensures calls.Reliable() && FinalName(digest) in bundles && verify(bundles[FinalName(digest)]) == Some(digest) ==>
        !stageOwned && outcome.Ready?
      ensures |events| <= 2
    {
      ghost var e;
      var ok;
      ok, events, v := SyncPublication(w, p, digest, stage);
      outcome, stageOwned := Failed, true;
      if !ok { return; }
      ok, e := RemovePublishedStage(v, p, digest, stage);
      RunOn(w, events, v, e);
      events, v := events + [e], Next(v, e);
      stageOwned := !ok;
      if !ok { return; }
      outcome, e := OpenDelivered(v, p, digest);
      RunOn(w, events, v, e);
      events, v := events + [e], Next(v, e);
    }

    /** Rename, removal and opening. */
    method PublishStage(ghost w: World, p: nat, digest: string, stage: string)
      returns (outcome: Outcome, stageOwned: bool, ghost events: seq<Event>, ghost v: World)
      requires At(w, p, digest, Verified(stage))
      modifies this, calls
      ensures Run(w, events, v) && At(v, p, digest, if stageOwned then Cleaning(stage, outcome) else Unlocking(outcome))
      ensures calls.Reliable() && FinalName(digest) !in old(bundles) && old(StageVerifies(stage, digest)) ==>
        !stageOwned && outcome.Ready?
      ensures outcome.Ready? && FinalName(digest) !in old(bundles) ==> old(Holds(stage, Some(outcome.tree)))
      ensures |events| <= 3
    {
      ghost var e;
      var ok;
      events, v, stageOwned := [], w, true;
      ok, outcome, e := RenameNoReplace(v, p, digest, stage);
      RunOn(w, events, v, e);
      events, v := events + [e], Next(v, e);
      if !ok { return; }
      ghost var more, u;
      outcome, stageOwned, more, u := FinishPublication(v, p, digest, stage);
      RunJoin(w, events, v, more, u);
      events, v := events + more, u;
    }

    /** From the new stage to the end of its deferred cleanup. */
    method DeliverStage(ghost w: World, p: nat, digest: string, stage: string)
      returns (outcome: Outcome, ghost events: seq<Event>, ghost v: World)
      requires At(w, p, digest, Marking(stage))
      modifies this, calls, ctx, buffer
      ensures Run(w, events, v) && At(v, p, digest, Unlocking(outcome))
      ensures Undisturbed() && FinalName(digest) !in old(bundles) ==> (outcome.Ready? <==> SourceVerifies(digest))
      ensures outcome.Ready? && FinalName(digest) !in old(bundles) ==> Copies(outcome.tree)
      ensures |events| <= |items| + 8
    {
      var ok, stageOwned;
      outcome, stageOwned := Failed, true;
      ok, events, v := PrepareStage(w, p, digest, stage);
      if ok {
        ghost var more, u;
        outcome, stageOwned, more, u := PublishStage(v, p, digest, stage);
        RunJoin(w, events, v, more, u);
        events, v := events + more, u;
      }
      if stageOwned {
        ghost var e;
        outcome, e := CleanUp(v, p, digest, stage, outcome);
        RunOn(w, events, v, e);
        events, v := events + [e], Next(v, e);
      }
    }

    /** Recovery of everything found when the lock was taken. */
    method Recover(ghost w: World, p: nat, ghost digest: string, names: seq<string>)
      returns (ok: bool, ghost events: seq<Event>, ghost v: World)
      requires Inv(w) && At(w, p, digest, Recovering(names)) && w.procs[p].skipped == {}
      modifies this`staging, calls
      ensures Run(w, events, v) && At(v, p, digest, if ok then Recovering([]) else Unlocking(Failed))
      ensures calls.Reliable() ==> ok && staging == Recovered(w.procs[p].found, {})
      ensures |events| <= |names|
    {
      ok, events, v := RecoverStages(names, w, p, digest);
      if ok {
        InvRun(w, events, v);
        FoundIsKept(w, events, v, p);
        RecoveryEnds(v.procs[p].found, v.procs[p].skipped, staging);
      }
    }

    /** The look for an existing publication, then the new stage's directory. Without a stage the call
        ends, with the publication if it is there and verifies. */
    method EnterStage(ghost w: World, p: nat, digest: string, random: string)
      returns (outcome: Outcome, stage: Option<string>, ghost events: seq<Event>, ghost v: World)
      requires At(w, p, digest, Recovering([])) && |random| == RANDOM_LENGTH && IsLowerHex(random)
      modifies this`staging, calls
      ensures Run(w, events, v) && At(v, p, digest, if stage.Some? then Marking(stage.value) else Unlocking(outcome))
      ensures stage.Some? ==> FinalName(digest) !in bundles && StageName(digest, random) !in old(staging)
      ensures calls.Reliable() && FinalName(digest) !in bundles && StageName(digest, random) !in old(staging) ==> stage.Some?
      ensures calls.Reliable() && stage.None? ==>
        (outcome.Ready? <==> FinalName(digest) in bundles && verify(bundles[FinalName(digest)]) == Some(digest))
      ensures stage.None? && outcome.Ready? ==> FinalName(digest) in bundles
      ensures |events| <= 2
    {
      ghost var e;
      var found;
      stage := None;
      found, outcome, e := LookForPublication(w, p, digest);
      events, v := [e], Next(w, e);
      assert [e][1..] == [];
      if found { return; }
      stage, e := MakeStage(v, p, digest, random);
      RunOn(w, events, v, e);
      events, v, outcome := events + [e], Next(v, e), Failed;
    }

    /** Everything between taking the lock and releasing it. */
    method MaterializeLocked(ghost w: World, p: nat, digest: string, random: string, names: seq<string>)
      returns (outcome: Outcome, ghost events: seq<Event>, ghost v: World)
      requires Inv(w) && At(w, p, digest, Recovering(names)) && |random| == RANDOM_LENGTH && IsLowerHex(random)
      requires w.procs[p].skipped == {}
      modifies this, calls, ctx, buffer
      ensures Run(w, events, v) && At(v, p, digest, Unlocking(outcome))
      ensures Undisturbed() ==>
        (outcome.Ready? <==> Succeeds(verify, w.procs[p].found, old(bundles), digest, random, SourceVerifies(digest)))
      ensures outcome.Ready? && FinalName(digest) !in old(bundles) ==> Copies(outcome.tree)
      ensures |events| <= |names| + |items| + 10
    {
      ghost var more, u;
      var ok, stage;
      outcome := Failed;
      ok, events, v := Recover(w, p, digest, names);
      if !ok { return; }
      outcome, stage, more, u := EnterStage(v, p, digest, random);
      RunJoin(w, events, v, more, u);
      events, v := events + more, u;
      if stage == None { return; }
      outcome, more, u := DeliverStage(v, p, digest, stage.value);
      RunJoin(w, events, v, more, u);
      events, v := events + more, u;
    }

    /** A call made while nobody has the lock. It is a run of the protocol that ends with the lock
        free, of at most one step for each entry found and each file copied and twelve more;
        publications only ever appear and are complete; a call that succeeds returns the verified
        publication of its digest, a complete copy of the source if the call made it, and leaves the
        staging directory recovered, with no stage of its own; and a call that meets no failure succeeds exactly when it can. */
    method Materialize(ghost w: World, p: nat, digest: string, random: string)
      returns (outcome: Outcome, ghost events: seq<Event>, ghost v: World)
      requires Inv(w) && w.verify == verify && w.disk == Disk(staging, bundles) && w.lock == None
      requires p in w.procs && w.procs[p].pc == Waiting && w.procs[p].digest == digest
      requires |random| == RANDOM_LENGTH && IsLowerHex(random)
      modifies this, calls, ctx, buffer
      ensures Run(w, events, v) && v.verify == verify && v.disk == Disk(staging, bundles) && v.lock == None
      ensures p in v.procs && v.procs[p].digest == digest && v.procs[p].pc == Done(outcome)
      ensures |events| <= |old(staging)| + |items| + 12
      ensures OnlyPublished(verify, old(bundles), bundles)
      ensures outcome.Ready? ==> "sha256-" + digest in bundles && bundles["sha256-" + digest] == outcome.tree
      ensures forall name :: name in bundles && name !in old(bundles) ==>
        |name| == 7 + 64 && name[..7] == "sha256-" && verify(bundles[name]) == Some(name[7..])
      ensures outcome.Ready? ==> verify(outcome.tree) == Some(digest)
      ensures outcome.Ready? ==> staging == Recovered(old(staging), v.procs[p].skipped)
      ensures outcome.Ready? && FinalName(digest) !in old(bundles) ==> Copies(outcome.tree)
      ensures Undisturbed() ==>
        (outcome.Ready? <==> Succeeds(verify, old(staging), old(bundles), digest, random, SourceVerifies(digest)))
    {
      var locked, leftover := calls.Try();
      if !locked {
        outcome, events, v := Failed, [GiveUp(p)], Next(w, GiveUp(p));
        return;
      }
      var names := ReadDir();
      ghost var start, more, u := TakeLock(p, names), [], w;
      InvStep(w, start);
      outcome, more, u := MaterializeLocked(Next(w, start), p, digest, random, names);
      // the deferred unlock
      var unlocked;
      unlocked, leftover := calls.Try();
      CallEnds(w, p, names, more, u, outcome, unlocked);
      events, v := [start] + more + [Unlock(p, unlocked)], Next(u, Unlock(p, unlocked));
      if !unlocked { outcome := Failed; }
      forall name | name in bundles && name !in old(bundles)
        ensures |name| == 7 + 64 && name[..7] == "sha256-" && verify(bundles[name]) == Some(name[7..])
      {
        NameIsIdentity(verify, name, bundles[name]);
      }
    }

    /** The source serves the bundle `tree`, which verifies as `digest`, and what is copied is what its
        manifest declares. */
    ghost predicate ServesVerified(f: BundleTree.Format, tree: Tree, digest: string) {
      && BundleTree.Parses(f) && hash == f.hash && (forall t :: verify(t) == BundleTree.Identity(f, t))
      && BundleTree.Identity(f, tree) == Some(digest)
      && B.ServesTree(source, buffer.Length, tree)
      && items == B.Items(f.parse(tree[BundleFiles.MANIFEST]).value, digest)
    }

    /** A verified bundle that does not change can always be published. With nothing failing, the call
        succeeds unless the name of its stage is taken, or a publication already there does not
        verify; and what it publishes is the source's bundle, file for file. */
    method MaterializeVerified(ghost f: BundleTree.Format, ghost tree: Tree, ghost w: World, p: nat, digest: string, random: string)
      returns (outcome: Outcome)
      requires ServesVerified(f, tree, digest)
      requires Inv(w) && w.verify == verify && w.disk == Disk(staging, bundles) && w.lock == None
      requires p in w.procs && w.procs[p].pc == Waiting && w.procs[p].digest == digest
      requires |random| == RANDOM_LENGTH && IsLowerHex(random)
      modifies this, calls, ctx, buffer
      ensures Undisturbed() ==>
        (outcome.Ready? <==>
          if "sha256-" + digest in old(bundles) then BundleTree.Identity(f, old(bundles)["sha256-" + digest]) == Some(digest)
          else StageName(digest, random) !in Recovered(old(staging), {}))
      ensures outcome.Ready? ==> "sha256-" + digest in bundles && bundles["sha256-" + digest] == outcome.tree
      ensures outcome.Ready? && "sha256-" + digest !in old(bundles) ==> outcome.tree == tree
      ensures OnlyPublished(verify, old(bundles), bundles)
    {
      B.VerifiedSourceIsCopiedWhole(f, source, buffer.Length, tree, digest);
      assert Copies(tree);
      ghost var events, v;
      outcome, events, v := Materialize(w, p, digest, random);
      if outcome.Ready? && FinalName(digest) !in old(bundles) {
        B.CopiesOnce(source, items, buffer.Length, hash, outcome.tree, tree);
      }
    }

    /** In a directory that held no bundles at first, whatever was published in it before and whatever
        crashed, a call for a verified bundle that meets no failure succeeds whenever its stage's name
        is free. */
    method MaterializeFromEmpty(ghost start: World, ghost before: seq<Event>, ghost f: BundleTree.Format, ghost tree: Tree,
                                ghost w: World, p: nat, digest: string, random: string)
      returns (outcome: Outcome)
      requires Initial(start) && start.disk.bundles == map[] && Run(start, before, w)
      requires ServesVerified(f, tree, digest)
      requires w.verify == verify && w.disk == Disk(staging, bundles) && w.lock == None
      requires p in w.procs && w.procs[p].pc == Waiting && w.procs[p].digest == digest
      requires |random| == RANDOM_LENGTH && IsLowerHex(random)
      modifies this, calls, ctx, buffer
      ensures Undisturbed() && digest + "-" + random !in Recovered(old(staging), {}) ==> outcome.Ready?
      ensures outcome.Ready? ==> "sha256-" + digest in bundles && bundles["sha256-" + digest] == outcome.tree
      ensures forall name :: name in old(bundles) ==> name in bundles && bundles[name] == old(bundles)[name]
    {
      InvRun(start, before, w);
      NothingElseUnderADigestsName(start, before, w, digest);
      PublicationsAreFinal(start, before, w);
      outcome := MaterializeVerified(f, tree, w, p, digest, random);
    }
  }
}
