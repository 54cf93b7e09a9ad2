/** Turning one state and one question into one token sequence with option markers, under the
    head budget and the input limit. */
module Preprocess {
  import opened Wrappers
  import opened Questions
  import opened Text

  /** A tokenizer may refuse a text. */
  type Tokenizer = string -> Option<seq<int>>

  datatype Kind = ChoiceKind | ScoreKind | NoulKind

  datatype Special = Special(cls: int, sep: int, mask: int, pad: int)

  /** The manifest's preprocessing limits; a parsed manifest has them all positive. */
  datatype Budget = Budget(headMax: nat, optionMax: nat, reserve: nat)

  /** The budget and sequence length of every supported manifest. */
  const SUPPORTED := Budget(256, 48, 16)
  const SUPPORTED_LENGTH := 1024

  datatype Policy = RejectOverflow | TruncateOverflow

  datatype Prepared = Prepared(
    id: string,
    kind: Kind,
    instructions: string,
    optionIds: seq<string>,
    optionLabels: seq<string>,
    options: seq<string>,
    qtype: int)

  datatype Item = Item(
    question: Prepared,
    inputIds: seq<int>,
    markers: seq<int>,
    originalTokens: nat,
    truncated: bool)

  datatype PrepareError = TokenizerFailed | InputTooLong(tokens: nat, limit: int)

  const MASK_TEXT := "<mask>"

  function KindName(kind: Kind): string {
    match kind
    case ChoiceKind => "choice"
    case ScoreKind => "score"
    case NoulKind => "noul"
  }

  /** The tensor value of each kind in a supported manifest. */
  function QType(kind: Kind): int {
    match kind
    case ChoiceKind => 0
    case ScoreKind => 1
    case NoulKind => 2
  }

  function Normalize(q: Question): Prepared {
    match q
    case Choice(id, instructions, criteria) =>
      Prepared(id, ChoiceKind, instructions,
               seq(|criteria|, i requires 0 <= i < |criteria| => criteria[i].id), [],
               seq(|criteria|, i requires 0 <= i < |criteria| => ChoiceOption(criteria[i])),
               QType(ChoiceKind))
    case Score(id, instructions, rubric) =>
      Prepared(id, ScoreKind, instructions, [],
               seq(|rubric|, i requires 0 <= i < |rubric| => rubric[i].name),
               seq(|rubric|, i requires 0 <= i < |rubric| => "level " + Decimal(i) + ": " + rubric[i].description),
               QType(ScoreKind))
    case Noul(id, instructions, falseText, trueText) =>
      Prepared(id, NoulKind, instructions, [], [],
               ["false: " + (if falseText == "" then "no, the statement does not hold" else falseText),
                "true: " + (if trueText == "" then "yes, the statement holds" else trueText)],
               QType(NoulKind))
  }

  function ChoiceOption(c: Criterion): string {
    if c.description == "" then c.id else c.id + ": " + c.description
  }

  // ---- sequences of token sequences ----

  function Max(a: int, b: int): int {
    if a >= b then a else b
  }

  function Min(a: int, b: int): int {
    if a <= b then a else b
  }

  /** At most the first `n` elements. */
  function Clip<T>(s: seq<T>, n: int): seq<T>
    requires n >= 0
  {
    if |s| > n then s[..n] else s
  }

  function ClipAll<T>(xs: seq<seq<T>>, n: int): seq<seq<T>>
    requires n >= 0
  {
    seq(|xs|, i requires 0 <= i < |xs| => Clip(xs[i], n))
  }

  function Total<T>(xs: seq<seq<T>>): nat {
    if xs == [] then 0 else |xs[0]| + Total(xs[1..])
  }

  function Flat<T>(xs: seq<seq<T>>): seq<T> {
    if xs == [] then [] else xs[0] + Flat(xs[1..])
  }

  /** Where each element of `xs` starts once they are laid out one after another from `start`. */
  function Starts<T>(start: int, xs: seq<seq<T>>): seq<int>
    decreases |xs|
  {
    if xs == [] then [] else [start] + Starts(start + |xs[0]|, xs[1..])
  }

  lemma {:induction false} Snoc<T>(start: int, xs: seq<seq<T>>, x: seq<T>)
    ensures Total(xs + [x]) == Total(xs) + |x|
    ensures Flat(xs + [x]) == Flat(xs) + x
    ensures Starts(start, xs + [x]) == Starts(start, xs) + [start + Total(xs)]
    decreases |xs|
  {
    if xs == [] {
      assert xs + [x] == [x];
    } else {
      assert (xs + [x])[1..] == xs[1..] + [x];
      Snoc(start + |xs[0]|, xs[1..], x);
    }
  }

  lemma {:induction false} FlatLength<T>(start: int, xs: seq<seq<T>>)
    ensures |Flat(xs)| == Total(xs) && |Starts(start, xs)| == |xs|
    decreases |xs|
  {
    if xs != [] { FlatLength(start + |xs[0]|, xs[1..]); }
  }

  /** Division as the programming language does it, towards zero. */
  function Quotient(a: int, b: int): int
    requires b > 0
  {
    if a >= 0 then a / b else -(-a / b)
  }

  // ---- the budget ----

  function PerOption(b: Budget, n: nat): int {
    Max(4, Quotient(b.headMax - b.reserve, Max(1, n)))
  }

  /** The encoded options, each behind a mask token; cut a second time when they leave less than
      the reserve of the head budget. */
  function FitOptions(b: Budget, options: seq<seq<int>>): seq<seq<int>> {
    if b.headMax - Total(options) < b.reserve then ClipAll(options, PerOption(b, |options|)) else options
  }

  function FitHead(b: Budget, head: seq<int>, fitted: seq<seq<int>>): seq<int> {
    Clip(head, Max(8, b.headMax - Total(fitted)))
  }

  function HeadText(q: Prepared): string {
    KindName(q.kind) + " question: " + ReplaceAll(q.instructions, MASK_TEXT, " ")
  }

  function OptionText(option: string): string {
    " " + ReplaceAll(option, MASK_TEXT, " ")
  }

  function StateText(state: string): string {
    ReplaceAll(state, MASK_TEXT, " ")
  }

  function EncodeOptions(tokenizer: Tokenizer, mask: int, optionMax: nat, options: seq<string>): Option<seq<seq<int>>> {
    if options == [] then Some([])
    else
      match (EncodeOptions(tokenizer, mask, optionMax, options[..|options| - 1]),
             tokenizer(OptionText(options[|options| - 1])))
      case (Some(before), Some(last)) => Some(before + [[mask] + Clip(last, optionMax)])
      case _ => None
  }

  /** CLS, head, SEP, options, SEP. */
  function Frame(special: Special, head: seq<int>, options: seq<seq<int>>): seq<int> {
    [special.cls] + head + [special.sep] + Flat(options) + [special.sep]
  }

  function Layout(special: Special, head: seq<int>, options: seq<seq<int>>, state: seq<int>): seq<int> {
    Frame(special, head, options) + state + [special.sep]
  }

  /** What preparing an item yields, as a function: the two fitted parts, then as much of the state
      as the limit leaves room for. */
  function Prepare(state: string, q: Prepared, b: Budget, special: Special, tokenizer: Tokenizer,
                   limit: int, policy: Policy): Result<Item, PrepareError>
  {
    var head := tokenizer(HeadText(q));
    var options := EncodeOptions(tokenizer, special.mask, b.optionMax, q.options);
    var rest := tokenizer(StateText(state));
    if head.None? || options.None? || rest.None? then Err(TokenizerFailed)
    else
      Assemble(q, special, FitHead(b, head.value, FitOptions(b, options.value)),
               FitOptions(b, options.value), rest.value, limit, policy)
  }

  function Assemble(q: Prepared, special: Special, head: seq<int>, options: seq<seq<int>>, state: seq<int>,
                    limit: int, policy: Policy): Result<Item, PrepareError>
  {
    var frame := Frame(special, head, options);
    var original := |frame| + |state| + 1;
    if (original > limit && policy == RejectOverflow) || |frame| + 1 > limit then
      Err(InputTooLong(original, limit))
    else
      Ok(Item(q, Layout(special, head, options, Clip(state, limit - |frame| - 1)),
              Starts(|head| + 2, options), original, original > limit))
  }

  method TotalLength(values: seq<seq<int>>) returns (total: nat)
    ensures total == Total(values)
  {
    total := 0;
    for i := 0 to |values|
      invariant total == Total(values[..i])
    {
      assert values[..i + 1] == values[..i] + [values[i]];
      Snoc(0, values[..i], values[i]);
      total := total + |values[i]|;
    }
    assert values[..|values|] == values;
  }

  method EncodeAllOptions(tokenizer: Tokenizer, mask: int, optionMax: nat, options: seq<string>)
      returns (r: Option<seq<seq<int>>>)
    ensures r == EncodeOptions(tokenizer, mask, optionMax, options)
  {
    var optionIds: seq<seq<int>> := [];
    for i := 0 to |options|
      invariant EncodeOptions(tokenizer, mask, optionMax, options[..i]) == Some(optionIds)
    {
      assert options[..i + 1][..i] == options[..i];
      var encoded := tokenizer(OptionText(options[i]));
      if encoded.None? {
        EncodingFails(tokenizer, mask, optionMax, options, i + 1);
        return None;
      }
      var ids := encoded.value;
      if |ids| > optionMax {
        ids := ids[..optionMax];
      }
      optionIds := optionIds + [[mask] + ids];
    }
    assert options[..|options|] == options;
    r := Some(optionIds);
  }

  lemma {:induction false} EncodingFails(tokenizer: Tokenizer, mask: int, optionMax: nat, options: seq<string>, i: nat)
    requires i <= |options| && EncodeOptions(tokenizer, mask, optionMax, options[..i]) == None
    ensures EncodeOptions(tokenizer, mask, optionMax, options) == None
    decreases |options| - i
  {
    if i == |options| {
      assert options[..i] == options;
    } else {
      assert options[..i + 1][..i] == options[..i];
      EncodingFails(tokenizer, mask, optionMax, options, i + 1);
    }
  }

  method FitWithinHead(b: Budget, head: seq<int>, options: seq<seq<int>>)
      returns (fittedHead: seq<int>, fitted: seq<seq<int>>)
    ensures fitted == FitOptions(b, options) && fittedHead == FitHead(b, head, fitted)
  {
    fitted := options;
    var total := TotalLength(fitted);
    var optionBudget := b.headMax - total;
    if optionBudget < b.reserve {
      var perOption := Max(4, Quotient(b.headMax - b.reserve, Max(1, |fitted|)));
      for i := 0 to |fitted|
        invariant |fitted| == |options|
        invariant forall j :: 0 <= j < i ==> fitted[j] == Clip(options[j], perOption)
        invariant forall j :: i <= j < |fitted| ==> fitted[j] == options[j]
      {
        if |fitted[i]| > perOption {
          fitted := fitted[i := fitted[i][..perOption]];
        }
      }
      assert fitted == ClipAll(options, perOption);
      total := TotalLength(fitted);
      optionBudget := b.headMax - total;
    }
    var headLimit := Max(8, optionBudget);
    fittedHead := head;
    if |fittedHead| > headLimit {
      fittedHead := fittedHead[..headLimit];
    }
  }

  method LayFrame(special: Special, head: seq<int>, options: seq<seq<int>>)
      returns (inputIds: seq<int>, markers: seq<int>)
    ensures inputIds == Frame(special, head, options)
    ensures markers == Starts(|head| + 2, options)
  {
    inputIds := [special.cls];
    inputIds := inputIds + head;
    inputIds := inputIds + [special.sep];
    markers := [];
    ghost var opening := inputIds;
    for i := 0 to |options|
      invariant inputIds == opening + Flat(options[..i])
      invariant markers == Starts(|head| + 2, options[..i])
    {
      assert options[..i + 1] == options[..i] + [options[i]];
      Snoc(|head| + 2, options[..i], options[i]);
      FlatLength(|head| + 2, options[..i]);
      markers := markers + [|inputIds|];
      inputIds := inputIds + options[i];
    }
    assert options[..|options|] == options;
    inputIds := inputIds + [special.sep];
  }

  /** Drops the markers at or beyond the limit. */
  method RetainMarkers(markers: seq<int>, limit: int) returns (retained: seq<int>)
    ensures (forall i :: 0 <= i < |markers| ==> markers[i] < limit) ==> retained == markers
  {
    retained := [];
    for i := 0 to |markers|
      invariant (forall k :: 0 <= k < i ==> markers[k] < limit) ==> retained == markers[..i]
    {
      if markers[i] < limit {
        retained := retained + [markers[i]];
      }
    }
  }

  /** The part of the preparation after the frame, with every check the original makes; its result
      shows that the final clamp and the "markers do not fit" refusal never change anything. */
  method AppendState(q: Prepared, special: Special, head: seq<int>, options: seq<seq<int>>,
                     frame: seq<int>, markers: seq<int>, state: seq<int>, limit: int, policy: Policy)
      returns (r: Result<Item, PrepareError>)
    requires frame == Frame(special, head, options) && markers == Starts(|head| + 2, options)
    requires |options| == |q.options|
    ensures r == Assemble(q, special, head, options, state, limit, policy)
  {
    var inputIds, stateIds := frame, state;
    var originalTokens: nat := |inputIds| + |stateIds| + 1;
    if originalTokens > limit && policy == RejectOverflow {
      return Err(InputTooLong(originalTokens, limit));
    }
    if |inputIds| + 1 > limit {
      return Err(InputTooLong(originalTokens, limit));
    }
    var room := Max(0, limit - |inputIds| - 1);
    if |stateIds| > room {
      stateIds := stateIds[..room];
    }
    inputIds := inputIds + stateIds;
    inputIds := inputIds + [special.sep];
    inputIds := Clip(inputIds, limit);
    FlatLength(|head| + 2, options);
    StartsBelow(|head| + 2, options);
    var retained := RetainMarkers(markers, limit);
    if |retained| != |q.options| {
      return Err(InputTooLong(originalTokens, limit));
    }
    r := Ok(Item(q, inputIds, retained, originalTokens, originalTokens > |inputIds|));
  }

  method PrepareItem(state: string, q: Prepared, b: Budget, special: Special, tokenizer: Tokenizer,
                     limit: int, policy: Policy) returns (r: Result<Item, PrepareError>)
    ensures r == Prepare(state, q, b, special, tokenizer, limit, policy)
  {
    var encodedHead := tokenizer(HeadText(q));
    if encodedHead.None? {
      return Err(TokenizerFailed);
    }
    var encodedOptions := EncodeAllOptions(tokenizer, special.mask, b.optionMax, q.options);
    if encodedOptions.None? {
      return Err(TokenizerFailed);
    }
    EncodedCount(tokenizer, special.mask, b.optionMax, q.options);
    var head, options := FitWithinHead(b, encodedHead.value, encodedOptions.value);
    var inputIds, markers := LayFrame(special, head, options);
    var encodedState := tokenizer(StateText(state));
    if encodedState.None? {
      return Err(TokenizerFailed);
    }
    r := AppendState(q, special, head, options, inputIds, markers, encodedState.value, limit, policy);
  }

  lemma {:induction false} StartsBelow<T>(start: int, xs: seq<seq<T>>)
    ensures |Starts(start, xs)| == |xs|
    ensures forall i :: 0 <= i < |xs| ==> start <= Starts(start, xs)[i] <= start + Total(xs)
    decreases |xs|
  {
    if xs != [] { StartsBelow(start + |xs[0]|, xs[1..]); }
  }

  lemma {:induction false} EncodedCount(tokenizer: Tokenizer, mask: int, optionMax: nat, options: seq<string>)
    requires EncodeOptions(tokenizer, mask, optionMax, options).Some?
    ensures |EncodeOptions(tokenizer, mask, optionMax, options).value| == |options|
  {
    if options != [] { EncodedCount(tokenizer, mask, optionMax, options[..|options| - 1]); }
  }
}
