/** What preparation guarantees: it refines the exporter's reference, refuses what the reference
    would silently lose, and keeps the head budget. */
module PreprocessTheorems {
  import opened Wrappers
  import opened Questions
  import opened Preprocess
  import opened Text
  import R = Reference

  /** `encode` answers whatever the tokenizer answers. */
  ghost predicate Agrees(tokenizer: Tokenizer, encode: R.Encoder) {
    forall text :: tokenizer(text).Some? ==> tokenizer(text).value == encode(text)
  }

  function TokensOf(special: Special): R.Tokens {
    R.Tokens(special.cls, special.sep, special.mask)
  }

  // ---- the texts that are prepared ----

  /** A choice offers each criterion under its id, with the description behind it if there is one. */
  lemma ChoiceTexts(q: Question, i: nat)
    requires q.Choice? && i < |q.criteria|
    ensures var p, c := Normalize(q), q.criteria[i];
      && |p.options| == |p.optionIds| == |q.criteria| && p.optionLabels == [] && p.qtype == 0
      && p.id == q.id && p.instructions == q.instructions && p.kind == ChoiceKind
      && p.optionIds[i] == c.id && p.options[i] == if c.description == "" then c.id else c.id + ": " + c.description
  {}

  /** A score offers each level under its number, counted from zero, whatever the number is written as
      being read back. */
  lemma ScoreTexts(q: Question, i: nat, numeral: string)
    requires q.Score? && i < |q.rubric| && IsNumeral(numeral, i)
    ensures var p := Normalize(q);
      && |p.options| == |p.optionLabels| == |q.rubric| && p.optionIds == [] && p.qtype == 1
      && p.id == q.id && p.instructions == q.instructions && p.kind == ScoreKind
      && p.optionLabels[i] == q.rubric[i].name
      && p.options[i] == "level " + numeral + ": " + q.rubric[i].description
  {
    DecimalIs(numeral, i);
  }

  lemma NoulTexts(q: Question)
    requires q.Noul?
    ensures var p := Normalize(q);
      && |p.options| == 2 && p.optionIds == [] && p.optionLabels == [] && p.qtype == 2
      && p.id == q.id && p.instructions == q.instructions && p.kind == NoulKind
      && p.options[0] == "false: " + (if q.falseText == "" then "no, the statement does not hold" else q.falseText)
      && p.options[1] == "true: " + (if q.trueText == "" then "yes, the statement holds" else q.trueText)
  {}

  /** What the tokenizer is given: the kind and the instructions, each option behind a blank, and the
      state, with a blank in place of every mask text. */
  lemma EncodedTexts(q: Prepared, option: string, state: string, head: seq<string>, body: seq<string>, rest: seq<string>)
    requires AreBetween(head, q.instructions, "<mask>") && AreBetween(body, option, "<mask>") && AreBetween(rest, state, "<mask>")
    ensures HeadText(q) == (match q.kind
                            case ChoiceKind => "choice"
                            case ScoreKind => "score"
                            case NoulKind => "noul") + " question: " + Join(head, " ")
    ensures OptionText(option) == " " + Join(body, " ") && StateText(state) == Join(rest, " ")
  {
    ReplaceAllIs(q.instructions, "<mask>", " ", head);
    ReplaceAllIs(option, "<mask>", " ", body);
    ReplaceAllIs(state, "<mask>", " ", rest);
  }

  // ---- the reference, piece by piece ----

  lemma {:induction false} SumsAgree(options: seq<seq<int>>)
    ensures R.SumOfLengths(options) == Total(options)
  {
    if options != [] { SumsAgree(options[1..]); }
  }

  lemma ClipIsSlice<T>(s: seq<T>, n: nat)
    ensures R.Slice(s, n) == Clip(s, n)
  {
  }

  lemma {:induction false} ExtendIsLayout(ids: seq<int>, markers: seq<int>, options: seq<seq<int>>)
    ensures R.Extend(ids, markers, options) == (ids + Flat(options), markers + Starts(|ids|, options))
    decreases |options|
  {
    if options == [] {
      assert ids + Flat(options) == ids && markers + Starts(|ids|, options) == markers;
    } else {
      ExtendIsLayout(ids + options[0], markers + [|ids|], options[1..]);
      assert ids + options[0] + Flat(options[1..]) == ids + Flat(options);
      assert markers + [|ids|] + Starts(|ids + options[0]|, options[1..]) == markers + Starts(|ids|, options);
    }
  }

  lemma {:induction false} BelowKeepsAll(markers: seq<int>, bound: int)
    requires forall i :: 0 <= i < |markers| ==> markers[i] < bound
    ensures R.Below(markers, bound) == markers
  {
    if markers != [] { BelowKeepsAll(markers[1..], bound); }
  }

  lemma {:induction false} EncodedOptionsAgree(tokenizer: Tokenizer, encode: R.Encoder, mask: int, options: seq<string>)
    requires Agrees(tokenizer, encode) && EncodeOptions(tokenizer, mask, 48, options).Some?
    ensures EncodeOptions(tokenizer, mask, 48, options).value == R.EncodedOptions(encode, mask, options)
  {
    if options == [] {
      assert R.EncodedOptions(encode, mask, options) == [];
    } else {
      var n := |options| - 1;
      EncodedOptionsAgree(tokenizer, encode, mask, options[..n]);
      ClipIsSlice(encode(OptionText(options[n])), 48);
      var whole := R.EncodedOptions(encode, mask, options);
      assert whole == R.EncodedOptions(encode, mask, options[..n]) + [whole[n]];
    }
  }

  lemma CutsAgree(headMax: nat, options: seq<seq<int>>)
    ensures FitOptions(Budget(headMax, 48, 16), options) == R.CutOptions(options, headMax)
  {
    SumsAgree(options);
    var share := (headMax - 16) / Max(1, |options|);
    assert headMax < 16 ==> share <= 0 && Quotient(headMax - 16, Max(1, |options|)) <= 0;
    var n := PerOption(Budget(headMax, 48, 16), |options|);
    forall i | 0 <= i < |options| ensures R.Slice(options[i], n) == Clip(options[i], n) { ClipIsSlice(options[i], n); }
    assert ClipAll(options, n) == R.Truncated(options, n);
  }

  lemma NormalizeAgrees(q: Question)
    ensures KindName(Normalize(q).kind) == R.QuestionType(q) && Normalize(q).qtype == R.QuestionTypeIndex(q)
    ensures Normalize(q).options == R.RenderOptions(q) && Normalize(q).instructions == q.instructions
  {
  }

  /** The fitted frame and its markers are the reference's opening. */
  lemma OpeningsAgree(special: Special, headMax: nat, head: seq<int>, fitted: seq<seq<int>>)
    ensures var fittedHead := FitHead(Budget(headMax, 48, 16), head, fitted);
      R.Opening(TokensOf(special), head, fitted, headMax)
        == (Frame(special, fittedHead, fitted), Starts(|fittedHead| + 2, fitted))
  {
    var fittedHead := FitHead(Budget(headMax, 48, 16), head, fitted);
    SumsAgree(fitted);
    ClipIsSlice(head, Max(8, headMax - Total(fitted)));
    ExtendIsLayout([special.cls] + fittedHead + [special.sep], [], fitted);
    assert [] + Starts(|fittedHead| + 2, fitted) == Starts(|fittedHead| + 2, fitted);
  }

  lemma MarkersInsideFrame(special: Special, head: seq<int>, options: seq<seq<int>>)
    ensures var markers := Starts(|head| + 2, options);
      |markers| == |options|
      && forall i :: 0 <= i < |markers| ==> |head| + 2 <= markers[i] < |Frame(special, head, options)|
  {
    FlatLength(|head| + 2, options);
    StartsBelow(|head| + 2, options);
  }

  lemma RestAgrees(special: Special, fittedHead: seq<int>, fitted: seq<seq<int>>, state: seq<int>,
                   q: Prepared, limit: nat, policy: Policy)
    requires Assemble(q, special, fittedHead, fitted, state, limit, policy).Ok?
    ensures var item := Assemble(q, special, fittedHead, fitted, state, limit, policy).value;
      var frame := Frame(special, fittedHead, fitted);
      && limit - |frame| - 1 >= 0
      && R.Slice(frame + R.Slice(state, limit - |frame| - 1) + [special.sep], limit) == item.inputIds
      && R.Below(Starts(|fittedHead| + 2, fitted), limit) == item.markers
  {
    var frame := Frame(special, fittedHead, fitted);
    ClipIsSlice(state, limit - |frame| - 1);
    MarkersInsideFrame(special, fittedHead, fitted);
    BelowKeepsAll(Starts(|fittedHead| + 2, fitted), limit);
  }

  /** For every tokenizer, state, question and limit: a successful preparation is exactly the
      reference's sequence, markers and question type for that limit. */
  lemma PrepareRefinesReference(tokenizer: Tokenizer, encode: R.Encoder, state: string, q: Question,
                                special: Special, headMax: nat, limit: nat, policy: Policy)
    requires Agrees(tokenizer, encode)
    requires Prepare(state, Normalize(q), Budget(headMax, 48, 16), special, tokenizer, limit, policy).Ok?
    ensures var item := Prepare(state, Normalize(q), Budget(headMax, 48, 16), special, tokenizer, limit, policy).value;
      R.BuildSequence(encode, TokensOf(special), state, q, limit, headMax)
        == R.SequenceItem(item.inputIds, item.markers, item.question.qtype)
  {
    var prepared, b := Normalize(q), Budget(headMax, 48, 16);
    var head := tokenizer(HeadText(prepared)).value;
    var options := EncodeOptions(tokenizer, special.mask, 48, prepared.options).value;
    NormalizeAgrees(q);
    EncodedOptionsAgree(tokenizer, encode, special.mask, prepared.options);
    CutsAgree(headMax, options);
    OpeningsAgree(special, headMax, head, FitOptions(b, options));
    var fitted := FitOptions(b, options);
    RestAgrees(special, FitHead(b, head, fitted), fitted, tokenizer(StateText(state)).value, prepared, limit, policy);
  }

  ghost predicate Encodes(tokenizer: Tokenizer, state: string, q: Prepared) {
    && tokenizer(HeadText(q)).Some?
    && tokenizer(StateText(state)).Some?
    && EncodeOptions(tokenizer, 0, 48, q.options).Some?
  }

  /** Where the reference would silently drop an option's marker, preparation refuses the input. */
  lemma DroppedMarkerIsRefused(tokenizer: Tokenizer, encode: R.Encoder, state: string, q: Question,
                               special: Special, headMax: nat, limit: nat, policy: Policy)
    requires Agrees(tokenizer, encode) && Encodes(tokenizer, state, Normalize(q))
    requires |R.BuildSequence(encode, TokensOf(special), state, q, limit, headMax).markers| < |R.RenderOptions(q)|
    ensures var r := Prepare(state, Normalize(q), Budget(headMax, 48, 16), special, tokenizer, limit, policy);
      r.Err? && r.error.InputTooLong? && r.error.limit == limit
  {
    var prepared, b := Normalize(q), Budget(headMax, 48, 16);
    MaskDoesNotMatter(tokenizer, 0, special.mask, 48, prepared.options);
    if Prepare(state, prepared, b, special, tokenizer, limit, policy).Ok? {
      PrepareRefinesReference(tokenizer, encode, state, q, special, headMax, limit, policy);
      NormalizeAgrees(q);
      EncodedCount(tokenizer, special.mask, 48, prepared.options);
      var options := EncodeOptions(tokenizer, special.mask, 48, prepared.options).value;
      var fitted := FitOptions(b, options);
      var head := FitHead(b, tokenizer(HeadText(prepared)).value, fitted);
      MarkersInsideFrame(special, head, fitted);
    }
  }

  lemma {:induction false} MaskDoesNotMatter(tokenizer: Tokenizer, m: int, n: int, optionMax: nat, options: seq<string>)
    ensures EncodeOptions(tokenizer, m, optionMax, options).Some? <==> EncodeOptions(tokenizer, n, optionMax, options).Some?
  {
    if options != [] { MaskDoesNotMatter(tokenizer, m, n, optionMax, options[..|options| - 1]); }
  }
}
