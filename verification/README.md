# Verified model of laya-go

laya-go puts a typed question-answering model behind ONNX Runtime. This project models the parts of it
that are its own code and hard to get right, and proves what callers rely on, for every input, every
interleaving and every failure:

- **Admission and closing** (`ModelSlots`, `Admission`, `AdmissionTheorems`): one model's inference slot, its
  bounded queue, the grant that races with cancellation, and drain-then-close. The critical sections of the
  handle are methods of a class; each is proved equal to a function on the guarded fields, and a transition
  system over those same functions carries the invariants over all interleavings of callers and closers.
- **Ownership** (`RuntimeSlots`, `Lifecycle`, `NativeCoordinator`): a runtime composed with every model it
  ever returned, and the process-wide count of leases on one native environment.
- **Publication on disk** (`Materialize`, `MaterializeTheorems`, `MaterializeCall`, `BundleStage`, `StageCopy`): any number
  of processes lock, recover, stage, verify, publish and clean up in one shared directory, each of them
  failing or crashing anywhere, calls on the file system included. `MaterializeCall` is the program itself,
  with its copy loops and its deferred clean-up, proved to make exactly steps of that protocol; a verified
  source that does not change is published file for file. `StageCopy` is the copy loop against any reader,
  writer and context.
- **Inference** (`Questions`, `Preprocess`, `HeadBudget`, `Collate`, `Numerics`, `Calibration`, `Results`, `Postprocess`,
  `Inference`): from a request to a checked prediction. `Reference` and `ReferenceAnswers` are the exporter's
  independent Python description; `PreprocessTheorems` and `AnswerTheorems` prove that the engine refines it.
- **Routing and bundles** (`Routing`, `RoutingTheorems`, `BundleFiles`, `BundleTree`, `JsonKeys`): the routing table and its
  edges, the acceptance test, the exact-file-set check, the identity of a tree and the recursive
  duplicate-key check.

`Wrappers` and `Text` hold shared datatypes and the two text helpers. `dafny verify dfyconfig.toml` checks everything.

The tokenizer, the model run, hashing, lower-casing, the exponential and the logarithm are parameters. A
tokenizer may refuse any text; the exponential is positive, strictly increasing, one at zero and turns
sums into products; the logarithm is positive from two on. Failures of native calls, of files, readers,
writers and contexts are inputs that may take any value.

## Where the code does less than its documentation says

- `Model.Close` documents that a close whose context ends leaves the model Closing (`model.go:108-110`). A model
  is left open if and only if the call's first look finds it open with the context already ended
  (`model.go:126-130`): `AdmissionTheorems.FailedCloseLeavesOpenExactly`, with an instance in
  `EndedContextLeavesModelOpen`.
- `RejectOverflow` documents that the input is not changed (`options.go:20-21`), and `TruncateOverflow` that a change
  is recorded. Instructions and options are cut to the head budget before the limit is looked at, under
  either policy, and the item is not marked (`preprocess.go:226-245`). `HeadBudget.UntruncatedIsWholeExactly`
  says when an unmarked item is whole; `RejectOverflowStillShortens` is a concrete loss.

## Two exact limits

- Recovery promises to remove marked stages only (`docs/source-operations.md:99-101`), so what a crash leaves of a
  stage is removed by the next complete recovery if and only if it still is a directory with the exact
  marker: `MaterializeTheorems.NextRecoveryRemovesExactlyMarked` and, whatever happens in between,
  `LeftoverStaysExactlyUnmarked`. A crash between creating a stage and writing its marker leaves a
  directory for ever: `CrashBeforeMarkerLeavesStageForEver`.
- The engine rounds halves away from zero and the Python reference to even. That is the only difference
  between their answers, and it shows exactly on ties above an even fourth place
  (`AnswerTheorems.ResultIsReferenceAnswerUnlessEvenTie`): a choice among 32 criteria with equal logits is
  answered 0.0313 by the engine and 0.0312 by the reference (`EvenChoiceOf32Differs`).

## Model

| member | source | states |
|---|---|---|
| ModelSlots.Model.constructor | model.go:193-202 | a new model is open, idle and empty |
| ModelSlots.Model.Acquire | model.go:204-231 | admits, queues or refuses by state, activity and capacity, and changes nothing else |
| ModelSlots.Model.CancelWaiter | model.go:257-273 | a waiter giving up passes a grant it already has on, or leaves the queue in place and signals a completed drain |
| ModelSlots.Model.RemoveWaiter | model.go:264-271 | the scan takes exactly that waiter out and keeps the order of the others |
| ModelSlots.Model.ReleaseLocked | model.go:281-293 | hands the slot to the oldest waiter or frees it |
| ModelSlots.Model.SignalIdleLocked | model.go:295-300 | closes the idle channel exactly when a closing model is drained, and never twice |
| ModelSlots.Model.CloseLock | model.go:120-168 | the locked part of one turn of the close loop: its verdict and the whole new state |
| ModelSlots.Model.CloseUnlock | model.go:178-184 | the locked part after the engine's close: closed on success, retryable on failure, waiters for the outcome released |
| ModelSlots.Waiter.Grant | model.go:287-288 | a waiter's ready channel is closed with its grant, and only once |
| Admission.InvStep | model.go:112-300 | every critical section and wait keeps slot ownership, queue, close and order invariants |
| Admission.InvRun | model.go:112-300 | hence every interleaving does |
| AdmissionTheorems.ArrivalDecided | model.go:204-231 | over the handle's fields: refused as closed unless open, runs in a free slot, waits at the tail while there is room, refused as full exactly when there is none; nothing else changes |
| AdmissionTheorems.ReleaseDecided | model.go:275-300 | over the fields: the slot goes to the head of the queue, or is free and a closing model's idle channel closed |
| AdmissionTheorems.CancelDecided | model.go:257-273 | over the fields: an ungranted call leaves its place, the others keep theirs, the slot stays taken |
| AdmissionTheorems.LookDecided | model.go:119-168 | over the fields: what each look of a closer finds and does, in all six cases |
| AdmissionTheorems.OutcomeDecided | model.go:173-184 | over the fields: closed or still Closing by the engine's answer, and those waiting for it woken |
| AdmissionTheorems.SlotConservation | model.go:204-293 | exactly one owner while active and none otherwise; the bound on waiters; no caller is lost between queue and slot |
| AdmissionTheorems.GrantsAreFifo | model.go:204-293 | grants happen in arrival order, less those that gave up ungranted, each once |
| AdmissionTheorems.RacedGrantIsPassedOn | model.go:257-273 | a grant that meets a cancellation goes to the oldest waiter, or the slot is free again |
| AdmissionTheorems.EngineClosesOnlyWhenDrained | model.go:139-184 | while the engine is being closed no call runs or waits; one closer at a time; at most one close ever succeeds |
| AdmissionTheorems.DrainedForEver | model.go:204-300 | a drained closing model never runs or queues a call again |
| AdmissionTheorems.IdleSignalIsExact | model.go:295-300 | the idle channel is closed exactly when the model is out of Open and drained |
| AdmissionTheorems.PendingStep | model.go:257-300 | each release or cancellation of a closing model takes exactly one pending call off, and no other step changes the count |
| AdmissionTheorems.DrainCountdown | model.go:257-300 | so over any run the model is drained exactly after as many such steps as calls were pending |
| AdmissionTheorems.SomeOwnerCanStep | model.go:238-255 | while calls are pending some owner of the slot can take its next step |
| AdmissionTheorems.NoLostWakeup | model.go:139-163 | a waiting closer has its signal, or what it waits for can still move |
| AdmissionTheorems.ClosedForEver | model.go:118-123 | a closed model never changes again and its engine was closed once |
| AdmissionTheorems.FailedCloseCanBeRetried | model.go:173-189 | after a failed engine close the next closer claims it again |
| AdmissionTheorems.FailedCloseLeavesOpenExactly | model.go:105-191 | a whole Close call that returns an error leaves the model open if and only if its first look found it open with the context already ended |
| AdmissionTheorems.LiveLookEndsOpen | model.go:125-133 | once a close has looked with a live context the model is never open again |
| AdmissionTheorems.EndedContextLeavesModelOpen | model.go:126-130 | a reachable instance: the failed close leaves the model open |
| RuntimeSlots.RuntimeHandle.BeginOpen | runtime.go:193-204 | an open is counted exactly while the runtime is open |
| RuntimeSlots.RuntimeHandle.FinishOpen | runtime.go:206-222 | outcome and registration of an open, for every answer of the native side |
| RuntimeSlots.RuntimeHandle.Unregister | runtime.go:224-228 | removes that model and changes nothing else |
| RuntimeSlots.RuntimeHandle.CloseLock | runtime.go:120-163 | verdict and whole new state of one turn of the runtime's close loop |
| RuntimeSlots.RuntimeHandle.CloseUnlock | runtime.go:167-173 | closed on success, retryable on failure |
| Lifecycle.BeginDecided | runtime.go:193-204 | over the fields: an open is let in and counted exactly while the runtime is open |
| Lifecycle.FinishDecided | runtime.go:206-222 | over the fields: an error, a nil model or a new, idle, registered model, as the native side answers |
| Lifecycle.LookDecided | runtime.go:120-163 | over the fields: what each look of a runtime's closer finds and does |
| Lifecycle.OutcomeDecided | runtime.go:165-173 | over the fields: closed or still Closing by the engine's answer |
| Lifecycle.ModelStepDecided | runtime.go:224-228 | a model's step changes that model alone, and its leaving the registry takes out nothing else |
| Lifecycle.InvStep | runtime.go:112-228 | every step of a runtime and all its models together keeps the joint invariants |
| Lifecycle.InvRun | runtime.go:112-228 | hence every interleaving of opens, predictions and closes does |
| Lifecycle.ModelSeesItsOwnRun | model.go:173-184 | seen from one model, a run of the whole is a run of that model, so its theorems hold in the composition |
| Lifecycle.EveryModelIsReachable | runtime.go:206-222 | every model in the composition is in a state reachable by a model alone |
| Lifecycle.OpenNeverFindsRuntimeStopped | runtime.go:216-218 | an open in flight keeps the runtime open: the branch for a stopped runtime is unreachable |
| Lifecycle.RuntimeEngineClosesLast | runtime.go:120-173 | once a runtime leaves Open every model ever returned has had its engine closed and owns, queues and runs nothing |
| Lifecycle.UnregisteredMeansClosed | model.go:173-176 | a model leaves the registry only after its engine was closed |
| Lifecycle.NoModelAfterClosing | runtime.go:193-222 | a runtime out of Open stays out and never returns or registers a model again |
| Lifecycle.RefusedExactlyWhileInUse | runtime.go:131-136 | an open runtime refuses to close if and only if an open is in flight or a returned model is registered |
| NativeCoordinator.CoordinatorHandle.AcquireLease | native_lifecycle.go:44-98 | result, new state and native calls made, for every context and every answer of the native side |
| NativeCoordinator.LeaseHandle.CloseLease | native_lifecycle.go:100-139 | result, new state, native calls, and whether the lease is released |
| NativeCoordinator.RefusalDecided | native_lifecycle.go:44-98 | over the fields: which refusal a request gets and what each leaves recorded |
| NativeCoordinator.GrantDecided | native_lifecycle.go:71-97 | over the fields: one more lease of the loaded environment, or the first of the one just initialized |
| NativeCoordinator.CloseDecided | native_lifecycle.go:100-139 | over the fields: what closing a lease leaves, in each outcome |
| NativeCoordinator.EnvironmentBalance | native_lifecycle.go:44-139 | in every run the counter is the number of held leases, all for one library; one environment is alive exactly while leases are held or a teardown is owed; no owed teardown beside two leases |
| NativeCoordinator.IssuedLeaseClosesUnlessTeardownFails | native_lifecycle.go:100-139 | an issued lease never finds the counter at zero; with a live context it is released exactly unless the last holder's teardown fails; an ended one refuses and changes nothing |
| NativeCoordinator.AcquireSucceedsExactly | native_lifecycle.go:44-98 | a lease is granted if and only if the request is complete, its context stays live and the native side lets it through |
| Materialize.StageNameIsValid | internal/source/materialize.go:538-551 | a stage name made for a digest is one recovery recognises |
| Materialize.StageNameShape | internal/source/materialize.go:538-551 | character by character: 64 and 32 lower-case hexadecimal digits around a dash, which is how names are made |
| Materialize.StepFrame | internal/source/materialize.go:126-190 | a step changes only its own process, and the disk only if that process has the lock |
| Materialize.RecoverOneStep | internal/source/materialize.go:558-581 | one turn of the recovery loop keeps what recovery means so far |
| Materialize.InvStep | internal/source/materialize.go:126-274 | every step, failure and crash keeps lock, disk and handle invariants |
| Materialize.InvRun | internal/source/materialize.go:126-274 | hence every run of any number of processes does, from any initial directory |
| MaterializeTheorems.RenameNeverLosesARace | internal/source/materialize.go:231-245 | the final name is free at the rename and the tree published verifies: the lost-race branch is unreachable |
| MaterializeTheorems.PublicationsAreFinal | internal/source/materialize.go:143-274 | no publication is ever changed or removed, and every new one is complete under its own name |
| MaterializeTheorems.NewPublicationsCarryTheirIdentity | internal/source/materialize.go:143 | every publication made in a run has a name of "sha256-" and 64 digits, which are the identity it verifies with |
| MaterializeTheorems.NothingElseUnderADigestsName | internal/source/materialize.go:143-161 | in a directory that held no bundles at first, what is under a digest's name verifies with that digest |
| MaterializeTheorems.DifferentManifestsDifferentPublications | internal/source/materialize.go:143-274 | two successful calls for different manifests hold different publications under different names |
| MaterializeTheorems.SameManifestSamePublication | internal/source/materialize.go:143-274 | two successful calls for one manifest, at any times, hold the same verified publication |
| MaterializeTheorems.LiveStageIsUntouched | internal/source/materialize.go:126-190 | until the owner of a stage moves, nothing other processes do changes the disk or takes its lock |
| MaterializeTheorems.RecoveryIsExact | internal/source/materialize.go:553-583 | recovery removes exactly the well-named, exactly marked, readable stages; success leaves none of its own |
| MaterializeTheorems.ForeignEntriesAreKept | internal/source/materialize.go:553-583 | anything else in the staging directory that no live process uses is kept for ever |
| MaterializeTheorems.NextRecoveryRemovesExactlyMarked | internal/source/materialize.go:553-583 | the next complete recovery has removed what a crash left of a stage if and only if it still was a marked directory |
| MaterializeTheorems.LeftoverStaysExactlyUnmarked | internal/source/materialize.go:553-583 | the same whatever calls come in between: a leftover is still there if and only if it was not one |
| MaterializeTheorems.UnmarkedLeftoverIsNeverRecovered | internal/source/materialize.go:553-583 | and an unmarked one stays at every moment of every later run |
| MaterializeTheorems.CrashBeforeMarkerLeavesStageForEver | internal/source/materialize.go:171-196 | a run from an empty directory whose crash leaves a stage that nothing ever removes |
| MaterializeTheorems.HolderCountdown | internal/source/materialize.go:126-274 | besides writes into its stage, the holder of the lock takes a bounded number of steps before it releases it, in any interleaving |
| MaterializeTheorems.HolderIsNeverStuck | internal/source/materialize.go:126-274 | the holder always has an enabled step of its own |
| MaterializeCall.Namespace.RecoverEntry | internal/source/materialize.go:558-581 | one entry: skipped, left, removed, or a failure that leaves part of it |
| MaterializeCall.Namespace.RecoverStages | internal/source/materialize.go:553-583 | the loop over the listing is a run of the protocol's recovery steps, and skips nothing when no call fails |
| MaterializeCall.Namespace.LookForPublication | internal/source/materialize.go:146-161 | an existing publication ends the call with what opening it gives |
| MaterializeCall.Namespace.MakeStage | internal/source/materialize.go:163-174 | a new directory under a free stage name, or nothing |
| MaterializeCall.Namespace.WriteMarker | internal/source/materialize.go:194-196 | the marker, or a failure that leaves part of the stage |
| MaterializeCall.Namespace.StageItem | internal/source/stage.go:119-128 | one more file copied as the source has it, or none to be had and the end of the stage |
| MaterializeCall.Namespace.CopyBundle | internal/source/stage.go:119-128 | a complete copy of what the source yields, or with nothing failing there is none |
| MaterializeCall.Namespace.FillStage | internal/source/materialize.go:191-204 | marker, directory and copy: the stage holds a complete copy of the source |
| MaterializeCall.Namespace.EndCopy | internal/source/materialize.go:201-207 | goes on exactly when the copy verifies with the wanted identity |
| MaterializeCall.Namespace.VerifyStage | internal/source/materialize.go:217-227 | goes on exactly when the staged tree still verifies |
| MaterializeCall.Namespace.PrepareStage | internal/source/materialize.go:191-229 | up to a stage that verifies and copies the source; with no failing call exactly when what the source yields verifies |
| MaterializeCall.Namespace.RenameNoReplace | internal/source/lock_linux.go:56-74 | publishes onto a free name only, and opens the winner otherwise |
| MaterializeCall.Namespace.SyncPublication | internal/source/lock_linux.go:61-65 | a rename that worked can still fail the call, when its directory is closed or the publication synchronized |
| MaterializeCall.Namespace.FinishPublication | internal/source/materialize.go:246-273 | the stage is owned until it is removed; then the publication is opened |
| MaterializeCall.Namespace.PublishStage | internal/source/materialize.go:231-274 | rename, removal and opening; a verified stage and no failing call make it succeed |
| MaterializeCall.Namespace.CleanUp | internal/source/materialize.go:175-190 | the deferred clean-up removes an owned stage, and its failure takes the result away |
| MaterializeCall.Namespace.DeliverStage | internal/source/materialize.go:174-274 | from the new stage to the end of its deferred clean-up, on every path |
| MaterializeCall.CallEnds | internal/source/materialize.go:131-135 | what holds once the deferred unlock has run, and a failing unlock takes the result away |
| MaterializeCall.Namespace.Recover | internal/source/materialize.go:137-142 | with no failing call the staging directory is exactly what recovery leaves of what was found |
| MaterializeCall.Namespace.EnterStage | internal/source/materialize.go:143-174 | an existing publication ends the call; otherwise a new stage under a free name |
| MaterializeCall.Namespace.MaterializeLocked | internal/source/materialize.go:137-274 | everything under the lock is a run of the protocol, whatever fails |
| MaterializeCall.Namespace.Materialize | internal/source/materialize.go:120-285 | the whole call is a run of the protocol of bounded length that ends with the lock free; what it returns, publishes and leaves behind; with no failing call it succeeds if and only if the publication verifies, or the stage name is free and what the source yields verifies |
| MaterializeCall.Namespace.MaterializeVerified | internal/source/materialize.go:46-285 | a verified, unchanging source is published file for file; with nothing failing the call succeeds unless the stage name is taken or an existing publication does not verify |
| MaterializeCall.Namespace.MaterializeFromEmpty | internal/source/materialize.go:46-285 | in a directory that held no bundles at first, a verified bundle is published whatever was published or crashed before, if nothing fails and its stage's name is free |
| BundleStage.CopyItem | internal/source/stage.go:151-275 | the file as the source has it; with nothing failing, copied if and only if the source yields the declared one |
| BundleStage.CopiesOnce | internal/source/stage.go:119-128 | what a complete copy holds is determined by the source |
| BundleStage.VerifiedSourceIsCopiedWhole | internal/source/stage.go:45-128 | copying what a verified manifest declares copies the whole bundle |
| StageCopy.WriteAll | internal/source/stage.go:277-295 | writes all, or stops on a prefix; always succeeds when nothing fails |
| StageCopy.TakeTurn | internal/source/stage.go:210-246 | one turn: what is hashed, written and delivered agree, and what must have happened when it stops |
| StageCopy.Pump | internal/source/stage.go:208-246 | the loop ends within the size bound with exactly what the reader delivered |
| StageCopy.ExplainedIsHopeless | internal/source/stage.go:208-246 | with an undisturbed context and writer, whatever stops the loop rules out an end of the file within the bound |
| StageCopy.Settle | internal/source/stage.go:247-275 | after the loop: the first of size, digest, synchronization and closing that is wrong |
| StageCopy.CopyStagedFile | internal/source/stage.go:151-275 | never above the bound, never anything the reader did not deliver; success only if every call around the loop worked; with an undisturbed context and writer, success if and only if the file is readable to its end and is the declared one; every other answer is that of the first check that fails, or of what stopped the loop |
| Questions.ValidateQuestion | question.go:65-206 | accepts exactly the valid questions |
| Questions.ValidateQuestions | model.go:302-318 | accepts exactly non-empty lists of valid questions with distinct ids |
| Questions.QuestionByCounting | question.go:65-206 | validity by counting: at least two options, as many names as options, nothing empty |
| Questions.RequestByCounting | model.go:302-318 | as many ids as questions, and at least one |
| Text.DecimalInjective | adklaya/routing.go:117 | different numbers are written differently |
| Text.DecimalReadsBack | preprocess.go:171 | the rendering is digits only, denotes the number by their codes, and has no leading zero |
| Text.NumeralIsUnique | preprocess.go:171 | there is one such text for each number |
| Text.ReplaceAllJoins | preprocess.go:214-222 | the replacement stands exactly where the left-to-right occurrences stood, and all between is kept |
| Text.ReplaceAllIs | preprocess.go:214-222 | whatever pieces lie between the occurrences, the result joins them |
| Preprocess.TotalLength | preprocess.go:330-336 | the sum of the lengths |
| Preprocess.EncodeAllOptions | preprocess.go:220-230 | every option behind its mask token, clipped, or a refusal |
| Preprocess.FitWithinHead | preprocess.go:232-245 | the two nested cuts |
| Preprocess.LayFrame | preprocess.go:247-256 | the sequence up to the state, with the position of every option |
| Preprocess.AppendState | preprocess.go:262-302 | with all its checks, equals the form without the final clamp and the refusal for markers: both are unreachable |
| Preprocess.PrepareItem | preprocess.go:204-303 | the whole preparation equals its specification |
| HeadBudget.AcceptedShape | preprocess.go:247-302 | length, truncation flag, one strictly increasing marker per option, each on its mask token |
| HeadBudget.AcceptedLayout | preprocess.go:247-280 | the order of an accepted sequence, and that head, options and state are kept prefixes of what the tokenizer gave |
| HeadBudget.RefusedExactly | preprocess.go:204-303 | when preparation refuses, with which error and which numbers, over the lengths |
| HeadBudget.ShareMeans | preprocess.go:234 | the share of an option: at least four, and as much as the budget less the reserve allows |
| HeadBudget.FittedLengths | preprocess.go:232-245 | the lengths kept of options and head, over the lengths encoded |
| HeadBudget.HeadBudgetBound | preprocess.go:232-245 | the bound on head and option tokens after both cuts, for all texts |
| HeadBudget.TruncationAcceptsUpTo253Options | preprocess.go:204-303 | under a supported manifest no question with at most 253 options is refused for length when truncating |
| HeadBudget.TruncationRefuses254Options | preprocess.go:204-303 | and 253 is exact |
| HeadBudget.UntruncatedIsWholeExactly | preprocess.go:226-302 | an unmarked item is the complete layout if and only if three guards of the head budget hold |
| HeadBudget.RejectOverflowStillShortens | options.go:18-24 | a concrete input shortened under RejectOverflow without a mark |
| PreprocessTheorems.NormalizeAgrees | tools/export/src/laya_export/reference.py:67-107 | normalization renders a question as the reference does |
| PreprocessTheorems.ChoiceTexts | preprocess.go:143-163 | the texts, ids and tensor value of a choice |
| PreprocessTheorems.ScoreTexts | preprocess.go:165-181 | option i of a score is "level ", the numeral of i, ": " and the description |
| PreprocessTheorems.NoulTexts | preprocess.go:183-202 | the two texts of a boolean question, with their defaults |
| PreprocessTheorems.EncodedTexts | preprocess.go:213-258 | what the tokenizer is given, with a blank for every mask text |
| PreprocessTheorems.PrepareRefinesReference | tools/export/src/laya_export/reference.py:110-157 | a successful preparation is the reference's sequence, markers and type, for every tokenizer, question and limit |
| PreprocessTheorems.DroppedMarkerIsRefused | preprocess.go:271-298 | where the reference would drop a marker the input is refused as too long |
| Collate.PadRow | preprocess.go:354-368 | fills, then copies: the row padded to the width |
| Collate.Widths | preprocess.go:339-344 | the widest rows |
| Collate.CollatePrepared | preprocess.go:338-376 | the loop builds the collated batch |
| Collate.CollateRefinesReference | tools/export/src/laya_export/reference.py:160-184 | the five tensors are the reference's |
| Collate.UnpaddingRecoversItems | preprocess.go:353-368 | the masks recover every item's tokens and markers |
| Collate.CountsAreConserved | preprocess.go:370-373 | usage is the number of attended positions; truncated exactly when tokens were lost |
| Collate.PrepareBatch | preprocess.go:75-98 | the first failing question or the collated batch, every item within both limits and prepared under the one that decides |
| Collate.PreparedOneByOne | preprocess.go:85-97 | item i is what question i prepares to under that state, limit and policy; a failure is the first question's that fails |
| Collate.BatchKeepsBothLimits | preprocess.go:73-97 | no item exceeds the manifest's limit or the caller's; the caller's decides exactly where it is positive and smaller |
| Collate.PreparedItems | preprocess.go:85-97 | a prepared batch has one well-counted item per question, in order |
| Collate.PreparedTensorDimensions | native_backend_enabled.go:262-280 | accepts exactly rectangular non-empty batches, with their dimensions |
| Collate.RectangularMeans | native_backend_enabled.go:262-280 | rectangular, over the five tensors |
| Collate.PreparedIsRectangular | native_backend_enabled.go:262-280 | so every prepared batch of valid questions passes it |
| Collate.FlattenRows | native_backend_enabled.go:356-365 | concatenates the rows |
| Collate.SplitRows | native_backend_enabled.go:367-374 | cuts row-major data into rows |
| Collate.SplitUndoesFlatten | native_backend_enabled.go:356-374 | and gives every rectangular matrix back |
| Numerics.StableSoftmax | postprocess.go:170-199 | refuses only no logits or a non-positive temperature, and computes the plain softmax |
| Numerics.ShiftCancels | postprocess.go:186-198 | no shift changes the quotients |
| Numerics.SoftmaxIsDistribution | postprocess.go:170-199 | sums to one, strictly positive, ordered as the logits |
| Numerics.MaximumIndex | postprocess.go:213-221 | the first index of the maximum |
| Numerics.FirstMaximumOfLogits | postprocess.go:213-221 | the first largest probability is at the first largest logit, and conversely |
| Numerics.ConfidenceFromProbabilities | postprocess.go:201-211 | the loop computes the clamped normalized entropy |
| Numerics.ExpectedWithin | postprocess.go:109-113 | the expected index lies between zero and the last index |
| Numerics.RoundMonotone | postprocess.go:223-225 | rounding never reverses an order |
| Numerics.RoundStaysWithin | postprocess.go:223-225 | rounding stays between whole bounds and moves by at most half a unit |
| Calibration.Parse | calibration.go:59-72 | every parsed temperature lies within the manifest's bounds |
| Calibration.EffectiveMeans | calibration.go:138-151 | within the bounds as it is, outside at the nearer bound, and the fallback for what is no finite number |
| Calibration.SelectionSucceeds | calibration.go:179-189 | a prepared question always gets a positive, bounded temperature |
| Calibration.SelectionMeans | calibration.go:179-202 | the override of exactly the kind and number of options wins over the kind's value |
| Calibration.SelectionRefinesReference | tools/export/src/laya_export/reference.py:187-246 | selecting among clamped values is the reference's clamping of the selected value |
| Results.ValidateResult | result.go:124-392 | accepts exactly the valid results of each kind |
| Results.ValidateTruncation | result.go:401-412 | accepts exactly consistent truncation metadata |
| Results.ValidatePrediction | result.go:345-364 | accepts exactly the valid predictions |
| Results.ValidateResultForQuestion | model.go:339-391 | accepts exactly results of the question's kind listing its options in order |
| Results.ValidatePredictionForQuestions | model.go:320-391 | accepts exactly the predictions that answer the questions |
| Results.ChoiceByCounting | result.go:124-159 | a valid choice by counting, over its fields |
| Results.ScoreOverFields | result.go:228-256 | a valid score over its fields |
| Results.NoulOverFields | result.go:298-309 | a valid boolean result over its fields |
| Results.PredictionByCounting | result.go:345-412 | a valid prediction by counting, and what its truncation metadata say |
| Results.AnswersOverFields | model.go:320-391 | ids, kinds and listed options are the questions', in order |
| Postprocess.ValidateRawOutputs | postprocess.go:56-84 | accepts exactly outputs of the batch's shape |
| Postprocess.DeriveOutputRow | postprocess.go:86-122 | succeeds exactly on a row of the right width, with that row's distribution |
| Postprocess.ResultFromDerivation | postprocess.go:124-168 | the result is the one the row's logits denote |
| Postprocess.RowIsValid | postprocess.go:124-168 | which is valid, within bounds after rounding, and answers its question |
| Postprocess.PreparedIsFormattable | preprocess.go:54-98 | preparing valid questions yields a batch formatting accepts |
| Postprocess.FormatInferencePrediction | postprocess.go:22-54 | succeeds if and only if the outputs have the batch's shape, and then answers the questions, each from its own row; the shape is its only failure |
| Inference.Prepared | preprocess.go:54-98 | the batch if and only if state, request and options are valid and every question fits; otherwise the failure of the first check, and of the first question that does not fit |
| Inference.PreparesExactly | preprocess.go:73-97 | a request prepares if and only if the manifest's limit is positive and every question fits it, or the caller's where that is positive and smaller |
| Inference.EnginePredict | native_lifecycle.go:313-361 | an answer if and only if the context stays live, the engine is open, the request prepares and the model runs in the batch's shape; every result is the one its row of the model's outputs denotes; otherwise the failure of the first look that fails |
| Inference.RefusalIsUnique | model.go:53-77 | no two failures fit one call, and none fits a call that is answered |
| Inference.Predict | model.go:53-77 | a prediction if and only if, besides, state and request are valid and the call gets the slot; every result is the one its row of the model's outputs denotes, and the batch keeps both limits; otherwise the failure of the first look that fails; the last check never refuses |
| AnswerTheorems.SoftmaxesAgree | tools/export/src/laya_export/reference.py:208-220 | the reference's own shift and second clamp change nothing |
| AnswerTheorems.BestIsFirstMaximum | tools/export/src/laya_export/reference.py:280 | the reference selects the first maximum |
| AnswerTheorems.ResultRefinesReference | tools/export/src/laya_export/reference.py:249-308 | a result is the reference's answer if and only if the two roundings agree on the values rounded |
| AnswerTheorems.RoundingsDifferExactlyOnEvenTies | postprocess.go:223-225 | the two roundings differ on exactly the ties above an even fourth place |
| AnswerTheorems.EqualLogitsShareEqually | postprocess.go:170-199 | equal logits get equal shares at every temperature |
| AnswerTheorems.EvenChoiceOf32Differs | postprocess.go:124-142 | a choice of 32 equal logits, where engine and reference differ under every calibration |
| AnswerTheorems.ResultIsReferenceAnswerUnlessEvenTie | tools/export/src/laya_export/reference.py:249-308 | so results and reference answers are the same if and only if no value is such a tie |
| Routing.LabelsDiffer | adklaya/routing.go:117 | every branch has its own label, none the fallback's |
| Routing.ValidateTarget | adklaya/routing.go:177-190 | exactly usable names that no other node has |
| Routing.AddCriteria | adklaya/routing.go:122-128 | routes a branch's criteria, refusing exactly a repeated one |
| Routing.AddTarget | adklaya/routing.go:117-121 | targets in order of first use with the labels of all their branches |
| Routing.EdgesKeepOrder | adklaya/routing.go:169-173 | the edges are in order of first use, the fallback's last |
| Routing.LabelsOfAscend | adklaya/routing.go:117-121 | an edge's labels are those of exactly its branches, ascending, each the prefix and the branch's numeral |
| Routing.CriteriaInOrder | adklaya/routing.go:122-128 | the question asks about the criteria branch by branch, in order |
| Routing.BuildEdges | adklaya/routing.go:169-173 | one edge per target, and the fallback's last |
| Routing.EdgesCarryLabels | adklaya/routing.go:117-173 | each label on exactly one edge, to the configured node; edge targets distinct |
| Routing.NewChoiceRouting | adklaya/routing.go:81-175 | accepts exactly the acceptable configurations, and then routes, question and edges are right |
| Routing.AcceptableOverFields | adklaya/routing.go:81-139 | what is accepted, over the fields of the configuration |
| Routing.AcceptedRoute | adklaya/routing.go:192-215 | the branch is taken if and only if the selection is the strict maximum and every threshold holds |
| Routing.RouteOverFields | adklaya/routing.go:192-215 | the route over the result's fields and the three inclusive thresholds |
| RoutingTheorems.EveryAnswerIsDelivered | adklaya/routing.go:81-215 | whatever valid answer comes, its label is on one edge, to the branch that lists the criterion or to the fallback |
| RoutingTheorems.EngineAnswerIsBestUnlessRoundedTie | adklaya/routing.go:192-206 | an engine answer is the strict maximum if and only if nothing ties with it after rounding |
| RoutingTheorems.EngineFallbackExactly | adklaya/routing.go:192-215 | an engine answer falls back if and only if there is such a tie or a threshold fails |
| BundleFiles.UniquePaths | internal/bundle/parse.go:396-413 | accepts exactly lists without two paths equal up to case |
| BundleFiles.CountRoles | internal/bundle/verify.go:100-108 | declarations by path and the number of files in each role |
| BundleFiles.ValidateLayout | internal/bundle/verify.go:99-159 | accepts exactly the manifests that are laid out, over the helper lists and field by field |
| BundleFiles.LayoutOverFields | internal/bundle/verify.go:99-159 | the layout field by field: the role each path is declared with, the number of files in each role, no file named as the manifest |
| BundleFiles.RolesAreFilledExactly | internal/bundle/verify.go:99-159 | in every role but the notices' the declared files are exactly the named ones |
| BundleFiles.EveryFileIsNamedOnce | internal/bundle/verify.go:99-159 | each other file is named by exactly one field, in its role |
| BundleFiles.FieldsNameTheirFiles | internal/bundle/verify.go:128-157 | a file has the role of a field if and only if that field names it |
| BundleFiles.VerifyFiles | internal/bundle/verify.go:161-205 | undisturbed, the walk accepts exactly allowed entries that cover every declaration; a disturbance refuses |
| BundleFiles.VerifiedExactlyWhenClosed | internal/bundle/verify.go:161-205 | which is exactly the closed world the manifest declares |
| BundleTree.WalkSeesTheTree | internal/bundle/verify.go:161-205 | in whatever order it walks, the closed world it sees is the tree's |
| BundleTree.EntriesDecideIdentity | internal/bundle/verify.go:19-61 | a tree whose manifest parses has an identity exactly when the layout holds and the walked entries are allowed and complete |
| BundleTree.Verify | internal/bundle/verify.go:19-61 | the whole verification finds nothing but the tree's identity, and finds it when undisturbed |
| JsonKeys.ConsumeValue | internal/bundle/parse.go:107-159 | on any value's tokens: succeeds if and only if keys are unique and bounded and nesting is bounded, consuming exactly the value; terminates on any stream |
| JsonKeys.ConsumeFields | internal/bundle/parse.go:120-145 | the same for the fields of an object |
| JsonKeys.ConsumeItems | internal/bundle/parse.go:146-154 | the same for the items of an array |
| JsonKeys.RejectDuplicateFields | internal/bundle/parse.go:98-105 | the same for a whole document and nothing after it |
| JsonKeys.WellKeyedMeans | internal/bundle/parse.go:107-159 | well keyed means of every value inside the document: its depth and, of an object, its keys |
| JsonKeys.CheckManifest | internal/bundle/parse.go:98-105 | one document, nothing inside more than 64 containers, every object's keys distinct and of at most 512 bytes |
| JsonKeys.CheckCalibration | calibration.go:75-89 | the same whatever the length of keys |
| JsonKeys.CheckersAgree | calibration.go:75-136 | the calibration checker accepts the same values but for the length of keys |

## Left out

- IEEE rounding, NaN and infinities: numbers are reals, so the checks that a value is finite do not appear, and a value has one rounding instead of the nearest double's.
- Overflow of 64-bit sizes, counts and token ids: they are unbounded integers.
- ONNX Runtime, the tokenizer library, telemetry and the library digest: native calls are inputs that may succeed or fail.
- Closing a model's own native resources (`native_lifecycle.go:363-401`) and cancelling a run (`native_run.go`): one succeeds or fails as a whole, the other is part of the model run.
- Calibration.Parse: starts from decoded values; the size bound and the decoding of the file are not part of this model, its duplicate check is in `JsonKeys`.
- Creating the namespace and retrying while another process creates it, path and symbolic-link checks, and durability across power loss: the protocol starts from an existing namespace and a crash is a process crash.
- The Google ADK runner and its events: workflow nodes are identities with names.
- SHA-256, JSON lexing, exact-field checks by reflection, regular expressions and the compatibility table, but for the limits of a supported manifest: hashing is any function and a document is its token stream.
- Error texts, wrapping and categories: an error is which check refused.
- Nil contexts, nil receivers, nil interfaces and pointer variants of questions and results: the types rule them out.
- BundleFiles.VerifyFiles: takes a file's content whole instead of reading it in chunks; an ended context or an error, wherever in a file it comes, is one disturbance of that entry.
- MaterializeCall.Namespace.Materialize: starts when nobody has the lock; waiting for it and other processes' steps meanwhile are in the protocol of `Materialize`, whose theorem on live stages shows they cannot change the disk under it.
- Materialize.InvStep: a process's identity, once used, is not used again, and a call that fails or crashes in the middle may leave anything of the one entry it was working on.
- AnswerTheorems.ResultRefinesReference: as in the other comparisons of answers, does not compare the reference's extra confidence of boolean questions, its legend of level names and its record of raw temperatures, which results do not carry.
- PreprocessTheorems.PrepareRefinesReference: is for the option length 48 and the reserve 16 that the reference fixes, as every supported manifest does.
- Accessors, option validation, the parity corpus, provenance tools and command-line programs: they would only add easy members.
