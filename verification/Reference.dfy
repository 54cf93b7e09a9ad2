/** The exporter's own description of preprocessing: a total encoder, no budgets other than two
    lengths, and truncation of whatever does not fit. Written independently of `Preprocess`. */
module Reference {
  import opened Wrappers
  import opened Questions
  import opened Text

  type Encoder = string -> seq<int>

  datatype Tokens = Tokens(cls: int, sep: int, mask: int)

  datatype SequenceItem = SequenceItem(inputIds: seq<int>, markers: seq<int>, qtype: int)

  function QuestionType(q: Question): string {
    match q
    case Choice(_, _, _) => "choice"
    case Score(_, _, _) => "score"
    case Noul(_, _, _, _) => "noul"
  }

  function QuestionTypeIndex(q: Question): int {
    match q
    case Choice(_, _, _) => 0
    case Score(_, _, _) => 1
    case Noul(_, _, _, _) => 2
  }

  function RenderOptions(q: Question): seq<string> {
    match q
    case Choice(_, _, criteria) =>
      seq(|criteria|, i requires 0 <= i < |criteria| =>
        if criteria[i].description == "" then criteria[i].id else criteria[i].id + ": " + criteria[i].description)
    case Score(_, _, rubric) =>
      seq(|rubric|, i requires 0 <= i < |rubric| => "level " + Decimal(i) + ": " + rubric[i].description)
    case Noul(_, _, falseText, trueText) =>
      ["false: " + (if falseText != "" then falseText else "no, the statement does not hold"),
       "true: " + (if trueText != "" then trueText else "yes, the statement holds")]
  }

  /** `s[:n]` for a non-negative bound. */
  function Slice<T>(s: seq<T>, n: nat): seq<T> {
    s[..if n <= |s| then n else |s|]
  }

  function SumOfLengths(options: seq<seq<int>>): nat {
    if options == [] then 0 else |options[0]| + SumOfLengths(options[1..])
  }

  function Truncated(options: seq<seq<int>>, n: nat): seq<seq<int>> {
    seq(|options|, i requires 0 <= i < |options| => Slice(options[i], n))
  }

  /** Appends each option, noting where it starts. */
  function Extend(ids: seq<int>, markers: seq<int>, options: seq<seq<int>>): (seq<int>, seq<int>)
    decreases |options|
  {
    if options == [] then (ids, markers)
    else Extend(ids + options[0], markers + [|ids|], options[1..])
  }

  function Below(markers: seq<int>, bound: int): seq<int> {
    if markers == [] then []
    else (if markers[0] < bound then [markers[0]] else []) + Below(markers[1..], bound)
  }

  function EncodedOptions(encode: Encoder, mask: int, options: seq<string>): seq<seq<int>> {
    seq(|options|, i requires 0 <= i < |options| =>
      [mask] + Slice(encode(" " + ReplaceAll(options[i], "<mask>", " ")), 48))
  }

  /** The options after the second cut, which keeps at least four tokens of each. */
  function CutOptions(options: seq<seq<int>>, headMaxLen: nat): seq<seq<int>> {
    if headMaxLen - SumOfLengths(options) < 16 then
      var share := (headMaxLen - 16) / (if |options| >= 1 then |options| else 1);
      Truncated(options, if share >= 4 then share else 4)
    else options
  }

  /** Everything up to and including the separator behind the options. */
  function Opening(tokens: Tokens, head: seq<int>, options: seq<seq<int>>, headMaxLen: nat): (seq<int>, seq<int>) {
    var budget := headMaxLen - SumOfLengths(options);
    var (ids, markers) :=
      Extend([tokens.cls] + Slice(head, if budget >= 8 then budget else 8) + [tokens.sep], [], options);
    (ids + [tokens.sep], markers)
  }

  function BuildSequence(encode: Encoder, tokens: Tokens, state: string, q: Question, maxLen: nat, headMaxLen: nat)
      : SequenceItem
  {
    var head := encode(QuestionType(q) + " question: " + ReplaceAll(q.instructions, "<mask>", " "));
    var options := CutOptions(EncodedOptions(encode, tokens.mask, RenderOptions(q)), headMaxLen);
    var (opening, markers) := Opening(tokens, head, options, headMaxLen);
    var room := if maxLen - |opening| - 1 >= 0 then maxLen - |opening| - 1 else 0;
    var ids := opening + Slice(encode(ReplaceAll(state, "<mask>", " ")), room) + [tokens.sep];
    SequenceItem(Slice(ids, maxLen), Below(markers, maxLen), QuestionTypeIndex(q))
  }

  datatype Batch = Batch(
    inputIds: seq<seq<int>>,
    attentionMask: seq<seq<int>>,
    markerPos: seq<seq<int>>,
    markerMask: seq<seq<bool>>,
    qtype: seq<int>)

  function Longest<T>(rows: seq<seq<T>>): nat {
    if rows == [] then 0
    else if |rows[0]| >= Longest(rows[1..]) then |rows[0]|
    else Longest(rows[1..])
  }

  function Repeat<T>(x: T, n: int): seq<T> {
    if n <= 0 then [] else [x] + Repeat(x, n - 1)
  }

  /** Pads both axes independently to their longest row. */
  function Collate(items: seq<SequenceItem>, pad: int): Batch {
    var n := |items|;
    var width := Longest(seq(n, i requires 0 <= i < n => items[i].inputIds));
    var markers := Longest(seq(n, i requires 0 <= i < n => items[i].markers));
    Batch(
      seq(n, i requires 0 <= i < n => items[i].inputIds + Repeat(pad, width - |items[i].inputIds|)),
      seq(n, i requires 0 <= i < n => Repeat(1, |items[i].inputIds|) + Repeat(0, width - |items[i].inputIds|)),
      seq(n, i requires 0 <= i < n => items[i].markers + Repeat(0, markers - |items[i].markers|)),
      seq(n, i requires 0 <= i < n => Repeat(true, |items[i].markers|) + Repeat(false, markers - |items[i].markers|)),
      seq(n, i requires 0 <= i < n => items[i].qtype))
  }

  function ClampTemperature(raw: Option<real>): real {
    match raw
    case None => 1.0
    case Some(value) => if value < 0.5 then 0.5 else if value > 5.0 then 5.0 else value
  }

  function TemperatureBucket(qtype: nat, count: nat): string
    requires qtype < 3
  {
    ["choice", "score", "noul"][qtype] + ":"
      + (if count > 10 then "11+" else if count > 5 then "6-10" else if count > 2 then "3-5" else "2")
  }

  /** The raw value of the bucket, or of the question type, clamped. */
  function SelectTemperature(qtype: nat, count: nat, temperature: seq<Option<real>>,
                             byOptions: map<string, Option<real>>): real
    requires qtype < 3 && |temperature| == 3
  {
    var bucket := TemperatureBucket(qtype, count);
    ClampTemperature(if bucket in byOptions then byOptions[bucket] else temperature[qtype])
  }
}
