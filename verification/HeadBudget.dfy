/** The shape of a prepared item, the bound both truncation levels keep, and what they cut
    without saying so. */
module HeadBudget {
  import opened Wrappers
  import opened Preprocess

  // ---- shape ----

  lemma {:induction false} PartsAt<T>(before: seq<T>, xs: seq<seq<T>>, after: seq<T>, i: nat)
    requires i < |xs|
    ensures |Starts(|before|, xs)| == |xs|
    ensures var start := Starts(|before|, xs)[i];
      && |before| <= start && start + |xs[i]| <= |before + Flat(xs) + after|
      && (before + Flat(xs) + after)[start..start + |xs[i]|] == xs[i]
    decreases |xs|
  {
    FlatLength(|before|, xs);
    var whole := before + Flat(xs) + after;
    if i == 0 {
      assert whole == before + xs[0] + (Flat(xs[1..]) + after);
    } else {
      assert whole == (before + xs[0]) + Flat(xs[1..]) + after;
      PartsAt(before + xs[0], xs[1..], after, i - 1);
    }
  }

  lemma {:induction false} StartsIncrease<T>(start: int, xs: seq<seq<T>>)
    requires forall i :: 0 <= i < |xs| ==> xs[i] != []
    ensures |Starts(start, xs)| == |xs|
    ensures forall i, j :: 0 <= i < j < |xs| ==> Starts(start, xs)[i] < Starts(start, xs)[j]
    decreases |xs|
  {
    if xs != [] {
      StartsIncrease(start + |xs[0]|, xs[1..]);
      StartsBelow(start + |xs[0]|, xs[1..]);
    }
  }

  lemma {:induction false} EncodedShape(tokenizer: Tokenizer, mask: int, optionMax: nat, options: seq<string>)
    requires EncodeOptions(tokenizer, mask, optionMax, options).Some?
    ensures var encoded := EncodeOptions(tokenizer, mask, optionMax, options).value;
      |encoded| == |options| && forall i :: 0 <= i < |encoded| ==> encoded[i] != [] && encoded[i][0] == mask
  {
    if options != [] { EncodedShape(tokenizer, mask, optionMax, options[..|options| - 1]); }
  }

  lemma FittedShape(b: Budget, options: seq<seq<int>>, mask: int)
    requires forall i :: 0 <= i < |options| ==> options[i] != [] && options[i][0] == mask
    ensures var fitted := FitOptions(b, options);
      |fitted| == |options|
      && forall i :: 0 <= i < |fitted| ==> fitted[i] != [] && fitted[i] <= options[i] && fitted[i][0] == mask
  {
  }

  /** Every accepted item: its length is the untruncated length or the limit, whichever is
      smaller, and it is marked truncated exactly when that loses tokens; there is one marker per
      option, strictly increasing, each pointing at the mask token in front of its option. */
  lemma AcceptedShape(state: string, q: Prepared, b: Budget, special: Special, tokenizer: Tokenizer,
                      limit: int, policy: Policy)
    requires Prepare(state, q, b, special, tokenizer, limit, policy).Ok?
    ensures var item := Prepare(state, q, b, special, tokenizer, limit, policy).value;
      && |item.inputIds| == Min(item.originalTokens, limit)
      && (item.truncated <==> item.originalTokens > limit)
      && (policy == RejectOverflow ==> !item.truncated)
      && |item.markers| == |q.options|
      && (forall i :: 0 <= i < |item.markers| ==>
           0 <= item.markers[i] < |item.inputIds| && item.inputIds[item.markers[i]] == special.mask)
      && (forall i, j :: 0 <= i < j < |item.markers| ==> item.markers[i] < item.markers[j])
      && item.question == q
  {
    var item := Prepare(state, q, b, special, tokenizer, limit, policy).value;
    var options := EncodeOptions(tokenizer, special.mask, b.optionMax, q.options).value;
    EncodedShape(tokenizer, special.mask, b.optionMax, q.options);
    FittedShape(b, options, special.mask);
    var fitted := FitOptions(b, options);
    var head := FitHead(b, tokenizer(HeadText(q)).value, fitted);
    StartsIncrease(|head| + 2, fitted);
    var before := [special.cls] + head + [special.sep];
    var after := item.inputIds[|before| + |Flat(fitted)|..];
    assert item.inputIds == before + Flat(fitted) + after;
    forall i | 0 <= i < |fitted|
      ensures 0 <= item.markers[i] < |item.inputIds| && item.inputIds[item.markers[i]] == special.mask
    {
      PartsAt(before, fitted, after, i);
      assert item.inputIds[item.markers[i]..item.markers[i] + |fitted[i]|][0] == special.mask;
    }
  }

  /** The order of an accepted sequence: the start token, the head, a separator, the options each
      behind its mask token, a separator, the state, a separator; head, options and state each as far
      as they were kept. */
  lemma AcceptedLayout(state: string, q: Prepared, b: Budget, special: Special, tokenizer: Tokenizer,
                       limit: int, policy: Policy) returns (head: seq<int>, options: seq<seq<int>>, rest: seq<int>)
    requires Prepare(state, q, b, special, tokenizer, limit, policy).Ok?
    ensures var item := Prepare(state, q, b, special, tokenizer, limit, policy).value;
      item.inputIds == [special.cls] + head + [special.sep] + Flat(options) + [special.sep] + rest + [special.sep]
    ensures tokenizer(HeadText(q)).Some? && head <= tokenizer(HeadText(q)).value
    ensures tokenizer(StateText(state)).Some? && rest <= tokenizer(StateText(state)).value
    ensures |options| == |q.options| && forall i :: 0 <= i < |options| ==>
      && tokenizer(OptionText(q.options[i])).Some?
      && options[i] <= [special.mask] + tokenizer(OptionText(q.options[i])).value
  {
    EncodedIsClipped(tokenizer, special.mask, b.optionMax, q.options);
    EncodedShape(tokenizer, special.mask, b.optionMax, q.options);
    var encoded := EncodeOptions(tokenizer, special.mask, b.optionMax, q.options).value;
    FittedShape(b, encoded, special.mask);
    options := FitOptions(b, encoded);
    head := FitHead(b, tokenizer(HeadText(q)).value, options);
    rest := Clip(tokenizer(StateText(state)).value, limit - |Frame(special, head, options)| - 1);
    var uncut := Uncut(tokenizer, special.mask, q.options);
    forall i | 0 <= i < |options| ensures options[i] <= uncut[i] {
      assert options[i] <= encoded[i] && encoded[i] == Clip(uncut[i], b.optionMax + 1);
    }
  }

  // ---- what is refused ----

  lemma QuotientBounds(a: nat, m: nat)
    requires m > 0
    ensures (a / m) * m <= a < (a / m + 1) * m
  {
    assert (a / m + 1) * m == (a / m) * m + m;
  }

  lemma ProductGrows(a: int, b: int, m: nat)
    requires a <= b
    ensures a * m <= b * m
  {}

  /** The share of each option, over the limits: at least four tokens; more only as far as the head
      budget less the reserve, divided among them, goes; and as much as that. */
  lemma ShareMeans(b: Budget, n: nat)
    requires n > 0
    ensures var share, budget := PerOption(b, n), b.headMax - b.reserve;
      share >= 4 && (share > 4 ==> share * n <= budget) && budget < (share + 1) * n
  {
    var share, budget := PerOption(b, n), b.headMax - b.reserve;
    if budget >= 0 {
      QuotientBounds(budget, n);
      ProductGrows(budget / n + 1, share + 1, n);
    } else {
      assert -budget / n >= 0;
      ProductGrows(0, share + 1, n);
    }
  }

  /** The lengths kept of the options and of the head, over the lengths encoded. */
  lemma FittedLengths(b: Budget, head: seq<int>, options: seq<seq<int>>, i: nat)
    requires i < |options|
    ensures var fitted, share := FitOptions(b, options), PerOption(b, |options|);
      && |fitted| == |options| && fitted[i] <= options[i]
      && |fitted[i]| == (if b.headMax - Total(options) < b.reserve && |options[i]| > share then share else |options[i]|)
    ensures var room := b.headMax - Total(FitOptions(b, options));
      && FitHead(b, head, FitOptions(b, options)) <= head
      && |FitHead(b, head, FitOptions(b, options))|
        == (if room <= 8 && |head| > 8 then 8 else if room > 8 && |head| > room then room else |head|)
  {}

  /** Preparation fails because the tokenizer does, or because what must be kept, the head, the options
      and the four tokens around them, exceeds the limit, or because everything together exceeds it
      and overflow is rejected. The refusal names the untruncated length and the limit. */
  lemma RefusedExactly(state: string, q: Prepared, b: Budget, special: Special, tokenizer: Tokenizer,
                       limit: int, policy: Policy)
    ensures var r := Prepare(state, q, b, special, tokenizer, limit, policy);
      var encoded := EncodeOptions(tokenizer, special.mask, b.optionMax, q.options);
      if tokenizer(HeadText(q)).None? || encoded.None? || tokenizer(StateText(state)).None? then r == Err(TokenizerFailed)
      else
        var fitted := FitOptions(b, encoded.value);
        var kept := |FitHead(b, tokenizer(HeadText(q)).value, fitted)| + Total(fitted) + 4;
        var whole := kept + |tokenizer(StateText(state)).value|;
        if kept > limit || (whole > limit && policy == RejectOverflow) then r == Err(InputTooLong(whole, limit))
        else r.Ok? && r.value.originalTokens == whole && |r.value.inputIds| == (if whole > limit then limit else whole)
  {
    var encoded := EncodeOptions(tokenizer, special.mask, b.optionMax, q.options);
    if encoded.Some? { FlatLength(0, FitOptions(b, encoded.value)); }
  }

  // ---- the bound ----

  lemma {:induction false} ClippedTotal<T>(xs: seq<seq<T>>, n: nat)
    ensures Total(ClipAll(xs, n)) <= n * |xs|
    ensures (forall x :: x in xs ==> |x| >= n) ==> Total(ClipAll(xs, n)) == n * |xs|
  {
    if xs == [] {
      assert ClipAll(xs, n) == [];
    } else {
      ClippedTotal(xs[1..], n);
      assert ClipAll(xs, n)[1..] == ClipAll(xs[1..], n);
      assert n * (1 + |xs[1..]|) == n + n * |xs[1..]|;
    }
  }

  ghost predicate AllWithin<T>(xs: seq<seq<T>>, n: nat) {
    forall i :: 0 <= i < |xs| ==> |xs[i]| <= n
  }

  /** Clipping changes nothing when everything is short enough, and loses elements otherwise. */
  lemma {:induction false} ClippedLoss<T>(xs: seq<seq<T>>, n: nat)
    ensures if AllWithin(xs, n) then ClipAll(xs, n) == xs else Total(ClipAll(xs, n)) < Total(xs)
    ensures Total(ClipAll(xs, n)) <= Total(xs)
  {
    if xs == [] {
      assert ClipAll(xs, n) == xs;
    } else {
      ClippedLoss(xs[1..], n);
      assert ClipAll(xs, n)[1..] == ClipAll(xs[1..], n);
      assert xs == [xs[0]] + xs[1..];
      assert AllWithin(xs, n) <==> |xs[0]| <= n && AllWithin(xs[1..], n);
    }
  }

  lemma ShareFits(budget: int, n: nat)
    requires n > 0
    ensures Max(4, Quotient(budget, n)) * n <= budget || Max(4, Quotient(budget, n)) == 4
  {
    if budget >= 0 {
      assert (budget / n) * n <= budget;
    } else {
      assert -budget / n >= 0;
    }
  }

  lemma FittedTotal(b: Budget, options: seq<seq<int>>)
    ensures var used := Total(FitOptions(b, options));
      used <= b.headMax - b.reserve || used <= 4 * |options|
  {
    var n := |options|;
    if b.headMax - Total(options) < b.reserve && n > 0 {
      var share := PerOption(b, n);
      ClippedTotal(options, share);
      ShareFits(b.headMax - b.reserve, n);
      assert share == Max(4, Quotient(b.headMax - b.reserve, n));
    }
  }

  /** Whatever the instructions and options tokenize to, the head and option tokens that are kept
      stay within the larger of the head budget, the budget plus eight less the reserve, and
      eight plus four per option. */
  lemma HeadBudgetBound(b: Budget, head: seq<int>, options: seq<seq<int>>)
    ensures var fitted := FitOptions(b, options);
      |FitHead(b, head, fitted)| + Total(fitted)
        <= Max(b.headMax, Max(b.headMax + 8 - b.reserve, 8 + 4 * |options|))
  {
    var used := Total(FitOptions(b, options));
    FittedTotal(b, options);
    assert |FitHead(b, head, FitOptions(b, options))| <= Max(8, b.headMax - used);
  }

  /** Under a supported manifest no question with at most 253 options is ever refused for its
      length when truncation is allowed, however long its texts are. */
  lemma TruncationAcceptsUpTo253Options(state: string, q: Prepared, special: Special, tokenizer: Tokenizer)
    requires |q.options| <= 253
    requires tokenizer(HeadText(q)).Some? && tokenizer(StateText(state)).Some?
    requires EncodeOptions(tokenizer, special.mask, 48, q.options).Some?
    ensures Prepare(state, q, SUPPORTED, special, tokenizer, SUPPORTED_LENGTH, TruncateOverflow).Ok?
  {
    var options := EncodeOptions(tokenizer, special.mask, 48, q.options).value;
    EncodedCount(tokenizer, special.mask, 48, q.options);
    HeadBudgetBound(SUPPORTED, tokenizer(HeadText(q)).value, options);
    FlatLength(0, FitOptions(SUPPORTED, options));
  }

  /** A tokenizer that answers eight tokens for every text. */
  const EIGHT: Tokenizer := text => Some([7, 7, 7, 7, 7, 7, 7, 7])

  lemma {:induction false} EightTokensEach(mask: int, options: seq<string>)
    ensures EncodeOptions(EIGHT, mask, 48, options).Some?
    ensures var encoded := EncodeOptions(EIGHT, mask, 48, options).value;
      |encoded| == |options| && forall i :: 0 <= i < |encoded| ==> |encoded[i]| == 9
  {
    if options != [] { EightTokensEach(mask, options[..|options| - 1]); }
  }

  /** 253 is exact: from 254 options on there are texts for which the question is refused. */
  lemma TruncationRefuses254Options(state: string, q: Prepared, special: Special)
    requires |q.options| >= 254
    ensures Prepare(state, q, SUPPORTED, special, EIGHT, SUPPORTED_LENGTH, TruncateOverflow).Err?
  {
    EightTokensEach(special.mask, q.options);
    var options := EncodeOptions(EIGHT, special.mask, 48, q.options).value;
    ClippedTotal(options, 9);
    assert ClipAll(options, 9) == options;
    ClippedTotal(options, 4);
    assert PerOption(SUPPORTED, |options|) == 4;
    FlatLength(0, FitOptions(SUPPORTED, options));
  }

  // ---- what is cut silently ----

  ghost predicate AllEncode(tokenizer: Tokenizer, options: seq<string>) {
    forall i :: 0 <= i < |options| ==> tokenizer(OptionText(options[i])).Some?
  }

  /** The options as the tokenizer gives them, uncut, each behind its mask token. */
  ghost function Uncut(tokenizer: Tokenizer, mask: int, options: seq<string>): seq<seq<int>>
    requires AllEncode(tokenizer, options)
  {
    seq(|options|, i requires 0 <= i < |options| => [mask] + tokenizer(OptionText(options[i])).value)
  }

  lemma {:induction false} EncodedIsClipped(tokenizer: Tokenizer, mask: int, optionMax: nat, options: seq<string>)
    ensures EncodeOptions(tokenizer, mask, optionMax, options).Some? <==> AllEncode(tokenizer, options)
    ensures AllEncode(tokenizer, options) ==>
      EncodeOptions(tokenizer, mask, optionMax, options).value == ClipAll(Uncut(tokenizer, mask, options), optionMax + 1)
  {
    if options != [] {
      var n := |options| - 1;
      EncodedIsClipped(tokenizer, mask, optionMax, options[..n]);
      assert forall i :: 0 <= i < n ==> options[..n][i] == options[i];
      if AllEncode(tokenizer, options) {
        var uncut := Uncut(tokenizer, mask, options);
        assert uncut == Uncut(tokenizer, mask, options[..n]) + [uncut[n]];
        assert Clip(uncut[n], optionMax + 1) == [mask] + Clip(tokenizer(OptionText(options[n])).value, optionMax);
      }
    }
  }

  /** The three guards that decide whether the head budget cuts anything. */
  ghost predicate NothingCut(b: Budget, head: seq<int>, uncut: seq<seq<int>>) {
    && AllWithin(uncut, b.optionMax + 1)
    && (b.headMax - Total(uncut) < b.reserve ==> AllWithin(uncut, PerOption(b, |uncut|)))
    && |head| <= Max(8, b.headMax - Total(uncut))
  }

  lemma FittedIsWholeExactly(b: Budget, head: seq<int>, uncut: seq<seq<int>>)
    ensures var fitted := FitOptions(b, ClipAll(uncut, b.optionMax + 1));
      && Total(fitted) <= Total(uncut)
      && |FitHead(b, head, fitted)| <= |head|
      && (if NothingCut(b, head, uncut) then fitted == uncut && FitHead(b, head, fitted) == head
          else |FitHead(b, head, fitted)| + Total(fitted) < |head| + Total(uncut))
  {
    var clipped := ClipAll(uncut, b.optionMax + 1);
    ClippedLoss(uncut, b.optionMax + 1);
    ClippedLoss(clipped, PerOption(b, |clipped|));
  }

  /** An item that is not marked truncated is the complete, uncut layout of what was asked if and
      only if the head budget cuts nothing. Rejecting overflow does not prevent such a cut: only
      the limit is checked, and only after the instructions and options have been shortened. */
  lemma UntruncatedIsWholeExactly(state: string, q: Prepared, b: Budget, special: Special, tokenizer: Tokenizer,
                                  limit: int, policy: Policy)
    requires Prepare(state, q, b, special, tokenizer, limit, policy).Ok?
    requires !Prepare(state, q, b, special, tokenizer, limit, policy).value.truncated
    ensures AllEncode(tokenizer, q.options)
    ensures var item := Prepare(state, q, b, special, tokenizer, limit, policy).value;
      var head, rest := tokenizer(HeadText(q)).value, tokenizer(StateText(state)).value;
      var uncut := Uncut(tokenizer, special.mask, q.options);
      item.inputIds == Layout(special, head, uncut, rest) <==> NothingCut(b, head, uncut)
  {
    var item := Prepare(state, q, b, special, tokenizer, limit, policy).value;
    EncodedIsClipped(tokenizer, special.mask, b.optionMax, q.options);
    var head, rest := tokenizer(HeadText(q)).value, tokenizer(StateText(state)).value;
    var uncut := Uncut(tokenizer, special.mask, q.options);
    var fitted := FitOptions(b, ClipAll(uncut, b.optionMax + 1));
    FittedIsWholeExactly(b, head, uncut);
    FlatLength(0, uncut);
    FlatLength(0, fitted);
    assert item.inputIds == Layout(special, FitHead(b, head, fitted), fitted, rest);
  }

  /** A tokenizer that answers three hundred tokens for every text. */
  const LONG: Tokenizer := text => Some(seq(300, i => 7))

  /** So a caller that rejects overflow can be given an item whose instructions were shortened
      from 300 tokens to 158, and that is not marked truncated. */
  lemma RejectOverflowStillShortens(q: Prepared, special: Special, state: string)
    requires |q.options| == 2
    ensures var r := Prepare(state, q, SUPPORTED, special, LONG, SUPPORTED_LENGTH, RejectOverflow);
      r.Ok? && !r.value.truncated && |r.value.inputIds| == 3 + 158 + 2 * 49 + 300 + 1
  {
    EncodedIsClipped(LONG, special.mask, 48, q.options);
    var uncut := Uncut(LONG, special.mask, q.options);
    ClippedTotal(uncut, 49);
    FlatLength(0, FitOptions(SUPPORTED, ClipAll(uncut, 49)));
  }
}
