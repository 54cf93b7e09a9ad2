/** One prediction from end to end: the checks on the request, preparation, the model run, the
    formatting of its outputs, and the check that guards the caller. */
module Inference {
  import opened Wrappers
  import opened Questions
  import opened Preprocess
  import opened Calibration
  import opened Numerics
  import opened Results
  import opened Postprocess
  import C = Collate

  /** How waiting for the model's slot ends. */
  datatype Slot = Owned | ModelClosed | QueueFull | GaveUp | TimedOut

  /** Why a run fails: its outputs are not what they should be, or the native library failed. */
  datatype RunFault = InvalidOutputs | NativeFault

  datatype Failure = ContextEnded | BadState | BadRequest | NoSlot(slot: Slot) | EngineClosed | BadOptions
                   | NotPrepared(reason: C.BatchError) | RunFailed(fault: RunFault) | BadOutput(cause: FormatError) | WrongAnswers

  /** One call: what it asks, whether its context is live each time it is looked at, and how it fares
      in the queue. */
  datatype Call = Call(state: string, stateValid: bool, questions: seq<Question>, live: nat -> bool, slot: Slot)

  /** The parts of an opened model that inference uses. */
  datatype Engine = Engine(closed: bool, validOptions: bool, budget: Budget, special: Special, tokenizer: Tokenizer,
                           maxLen: int, inputTokenLimit: int, policy: Policy, run: C.Batch -> Result<Outputs, RunFault>,
                           calibration: Config)

  function Items(e: Engine, state: string, questions: seq<Question>): Result<seq<Item>, PrepareError> {
    C.PrepareAll(state, questions, e.budget, e.special, e.tokenizer, C.LimitOf(e.maxLen, e.inputTokenLimit), e.policy)
  }

  /** The input limit is positive and every question fits it. */
  predicate Prepares(e: Engine, state: string, questions: seq<Question>) {
    C.LimitOf(e.maxLen, e.inputTokenLimit) > 0 && Items(e, state, questions).Ok?
  }

  function BatchOf(e: Engine, state: string, questions: seq<Question>): C.Batch
    requires Prepares(e, state, questions)
  {
    C.Collated(Items(e, state, questions).value, e.special.pad)
  }

  /** The model runs and answers every marker position of every row, and two actions. */
  ghost predicate Runs(e: Engine, batch: C.Batch) {
    && e.run(batch).Ok?
    && |batch.markerPos| == |batch.items| > 0
    && WellShaped(|batch.markerPos[0]|, |batch.items|, e.run(batch).value)
  }

  /** What the engine needs to answer: a live context whenever it looks, an open engine, and a valid
      request that fits and runs. */
  ghost predicate Answerable(e: Engine, c: Call) {
    && c.live(1) && !e.closed && c.stateValid && ValidRequest(c.questions) && e.validOptions
    && Prepares(e, c.state, c.questions) && c.live(2)
    && Runs(e, BatchOf(e, c.state, c.questions)) && c.live(3)
  }

  /** The prediction answers the questions, every result is the one its row of the model's outputs
      denotes, and the token counts are the batch's. */
  ghost predicate IsAnswer(m: Math, e: Engine, c: Call, p: Prediction) {
    && Prepares(e, c.state, c.questions)
    && Runs(e, BatchOf(e, c.state, c.questions))
    && RowsAnswered(m, c.questions, e.run(BatchOf(e, c.state, c.questions)).value, e.calibration, p.results)
    && Results.Answers(p, c.questions)
    && p.outputTokens == 0
    && p.truncation == BatchOf(e, c.state, c.questions).truncation
    && p.inputTokens == p.truncation.effective
    && C.WithinLimits(BatchOf(e, c.state, c.questions).items, e.maxLen, e.inputTokenLimit)
    && p.inputTokens == C.Sum(C.Lengths(BatchOf(e, c.state, c.questions).items))
  }

  /** The limits are kept over the engine's own settings. */
  lemma AnswersKeepLimits(e: Engine, state: string, questions: seq<Question>)
    requires Prepares(e, state, questions)
    ensures var batch := BatchOf(e, state, questions);
      && C.WithinLimits(batch.items, e.maxLen, e.inputTokenLimit)
      && batch.truncation.effective == C.Sum(C.Lengths(batch.items))
  {
    C.BatchKeepsBothLimits(state, questions, e.budget, e.special, e.tokenizer, e.maxLen, e.inputTokenLimit, e.policy);
    C.TotalsAreSums(Items(e, state, questions).value);
  }

  /** What it takes to prepare a request, question by question: the manifest's limit is positive, and
      every question fits it, or the caller's limit where that is positive and smaller. */
  lemma PreparesExactly(e: Engine, state: string, questions: seq<Question>)
    ensures Prepares(e, state, questions) <==>
      && e.maxLen > 0
      && forall i :: 0 <= i < |questions| ==>
           && (e.inputTokenLimit <= 0 || e.inputTokenLimit >= e.maxLen ==> QuestionFits(e, state, questions[i], e.maxLen))
           && (0 < e.inputTokenLimit < e.maxLen ==> QuestionFits(e, state, questions[i], e.inputTokenLimit))
  {
    C.PreparedOneByOne(state, questions, e.budget, e.special, e.tokenizer, C.LimitOf(e.maxLen, e.inputTokenLimit), e.policy);
  }

  ghost predicate QuestionFits(e: Engine, state: string, q: Question, limit: int) {
    Prepare(state, Normalize(q), e.budget, e.special, e.tokenizer, limit, e.policy).Ok?
  }

  /** The manifest's limit is not positive, or this is why the first question that does not fit is
      refused, under the caller's limit where it is positive and below the manifest's. */
  ghost predicate Unprepared(e: Engine, c: Call, reason: C.BatchError) {
    var limit := if 0 < e.inputTokenLimit < e.maxLen then e.inputTokenLimit else e.maxLen;
    match reason
    case NoLimit => e.maxLen <= 0
    case Item(error) =>
      e.maxLen > 0 && C.FailsFirst(error, c.state, c.questions, e.budget, e.special, e.tokenizer, limit, e.policy)
  }

  /** Exactly one failure is possible for a call that the engine does not answer: the first of these
      that applies, in the order in which the engine looks. */
  ghost predicate EngineRefuses(e: Engine, c: Call, failure: Failure) {
    var requested := c.live(1) && !e.closed && c.stateValid && ValidRequest(c.questions);
    var fits := requested && e.validOptions && Prepares(e, c.state, c.questions);
    var ran := fits && c.live(2) && e.run(BatchOf(e, c.state, c.questions)).Ok?;
    match failure
    case ContextEnded => !c.live(1) || (fits && !(c.live(2) && c.live(3)))
    case EngineClosed => c.live(1) && e.closed
    case BadState => c.live(1) && !e.closed && !c.stateValid
    case BadRequest => c.live(1) && !e.closed && c.stateValid && !ValidRequest(c.questions)
    case BadOptions => requested && !e.validOptions
    case NotPrepared(reason) => requested && e.validOptions && Unprepared(e, c, reason)
    case RunFailed(fault) =>
      fits && c.live(2) && c.live(3) && e.run(BatchOf(e, c.state, c.questions)) == Err(fault)
    case BadOutput(cause) => ran && c.live(3) && !Runs(e, BatchOf(e, c.state, c.questions)) && cause == BadShape
    case NoSlot(_) => false
    case WrongAnswers => false
  }

  lemma FailsOnce(a: PrepareError, b: PrepareError, e: Engine, c: Call, limit: int)
    requires C.FailsFirst(a, c.state, c.questions, e.budget, e.special, e.tokenizer, limit, e.policy)
    requires C.FailsFirst(b, c.state, c.questions, e.budget, e.special, e.tokenizer, limit, e.policy)
    ensures a == b
  {
    var i :| C.FailsAt(i, a, c.state, c.questions, e.budget, e.special, e.tokenizer, limit, e.policy);
    var j :| C.FailsAt(j, b, c.state, c.questions, e.budget, e.special, e.tokenizer, limit, e.policy);
    assert i == j;
  }

  /** The same for a whole call: context, state, request and slot come before the engine. */
  ghost predicate Refuses(e: Engine, c: Call, failure: Failure) {
    if !c.live(0) then failure == ContextEnded
    else if !c.stateValid then failure == BadState
    else if !ValidRequest(c.questions) then failure == BadRequest
    else if c.slot != Owned then failure == NoSlot(c.slot)
    else EngineRefuses(e, c, failure)
  }

  /** So a refusal says which look failed: no two failures fit one call, and none fits a call that is
      answered. */
  lemma RefusalIsUnique(e: Engine, c: Call, failure: Failure, other: Failure)
    requires Refuses(e, c, failure)
    ensures Refuses(e, c, other) ==> other == failure
    ensures !(c.live(0) && c.slot == Owned && Answerable(e, c))
  {
    PreparesExactly(e, c.state, c.questions);
    var limit := if 0 < e.inputTokenLimit < e.maxLen then e.inputTokenLimit else e.maxLen;
    if Refuses(e, c, other) && failure.NotPrepared? && other.NotPrepared? && failure.reason.Item? && other.reason.Item? {
      FailsOnce(failure.reason.error, other.reason.error, e, c, limit);
    }
    if failure.NotPrepared? && failure.reason.Item? {
      var i :| C.FailsAt(i, failure.reason.error, c.state, c.questions, e.budget, e.special, e.tokenizer, limit, e.policy);
      assert !QuestionFits(e, c.state, c.questions[i], limit);
    }
    if other.NotPrepared? && other.reason.Item? && Unprepared(e, c, other.reason) {
      var i :| C.FailsAt(i, other.reason.error, c.state, c.questions, e.budget, e.special, e.tokenizer, limit, e.policy);
      assert !QuestionFits(e, c.state, c.questions[i], limit);
    }
  }

  /** The checks that come before preparation. */
  method Prepared(e: Engine, c: Call) returns (r: Result<C.Batch, Failure>)
    ensures r.Ok? <==> c.stateValid && ValidRequest(c.questions) && e.validOptions && Prepares(e, c.state, c.questions)
    ensures r.Ok? ==> r.value == BatchOf(e, c.state, c.questions)
    ensures !c.stateValid ==> r == Err(BadState)
    ensures c.stateValid && !ValidRequest(c.questions) ==> r == Err(BadRequest)
    ensures c.stateValid && ValidRequest(c.questions) && !e.validOptions ==> r == Err(BadOptions)
    ensures r.Err? && c.stateValid && ValidRequest(c.questions) && e.validOptions ==>
      r.error.NotPrepared? && Unprepared(e, c, r.error.reason)
  {
    if !c.stateValid {
      return Err(BadState);
    }
    var valid := ValidateQuestions(c.questions);
    if !valid {
      return Err(BadRequest);
    }
    if !e.validOptions {
      return Err(BadOptions);
    }
    C.PreparedOneByOne(c.state, c.questions, e.budget, e.special, e.tokenizer, C.LimitOf(e.maxLen, e.inputTokenLimit), e.policy);
    var batch := C.PrepareBatch(c.state, c.questions, e.budget, e.special, e.tokenizer, e.maxLen, e.inputTokenLimit, e.policy);
    match batch {
      case Err(reason) => r := Err(NotPrepared(reason));
      case Ok(value) => r := Ok(value);
    }
  }

  method EnginePredict(m: Math, e: Engine, c: Call, ghost b: Bounds) returns (r: Result<Prediction, Failure>)
    requires Lawful(m) && Accepted(e.calibration, b)
    ensures r.Ok? <==> Answerable(e, c)
    ensures r.Ok? ==> IsAnswer(m, e, c, r.value)
    ensures r.Err? ==> EngineRefuses(e, c, r.error)
  {
    if !c.live(1) {
      return Err(ContextEnded);
    }
    if e.closed {
      return Err(EngineClosed);
    }
    var prepared := Prepared(e, c);
    match prepared {
      case Err(failure) => return Err(failure);
      case Ok(batch) =>
        if !c.live(2) {
          return Err(ContextEnded);
        }
        PreparedIsFormattable(c.state, c.questions, e.budget, e.special, e.tokenizer,
                              C.LimitOf(e.maxLen, e.inputTokenLimit), e.policy);
        var outputs := e.run(batch);
        if outputs.Err? {
          if !c.live(3) {
            return Err(ContextEnded);
          }
          return Err(RunFailed(outputs.error));
        }
        if !c.live(3) {
          return Err(ContextEnded);
        }
        var formatted := FormatInferencePrediction(m, batch, outputs.value, e.calibration, c.questions, b);
        match formatted {
          case Err(cause) => r := Err(BadOutput(cause));
          case Ok(prediction) =>
            AnswersKeepLimits(e, c.state, c.questions);
            r := Ok(prediction);
        }
    }
  }

  /** For every call and every engine with a parsed calibration, a prediction is returned exactly when
      the context is live whenever it is looked at, the state and the request are valid, the call gets
      the slot, and the open engine can prepare, run and read back its batch. The prediction then
      answers the questions; the last check never refuses what the engine returned. */
  method Predict(m: Math, e: Engine, c: Call, ghost b: Bounds) returns (r: Result<Prediction, Failure>)
    requires Lawful(m) && Accepted(e.calibration, b)
    ensures r.Ok? <==> c.live(0) && c.slot == Owned && Answerable(e, c)
    ensures r.Ok? ==> IsAnswer(m, e, c, r.value)
    ensures r.Err? ==> Refuses(e, c, r.error) && r.error != WrongAnswers
  {
    if !c.live(0) {
      return Err(ContextEnded);
    }
    if !c.stateValid {
      return Err(BadState);
    }
    var valid := ValidateQuestions(c.questions);
    if !valid {
      return Err(BadRequest);
    }
    if c.slot != Owned {
      return Err(NoSlot(c.slot));
    }
    var predicted := EnginePredict(m, e, c, b);
    match predicted {
      case Err(cause) => return Err(cause);
      case Ok(prediction) =>
        var answers := ValidatePredictionForQuestions(prediction, c.questions);
        if !answers {
          return Err(WrongAnswers);
        }
        r := Ok(prediction);
    }
  }
}
