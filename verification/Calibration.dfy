/** Choosing the softmax temperature of a question from a bundle's calibration. */
module Calibration {
  import opened Wrappers
  import opened Preprocess
  import opened Numerics
  import R = Reference

  /** A configured value: a finite number, or none when it is not one. */
  type Raw = Option<real>

  datatype Bounds = Bounds(low: real, high: real, fallback: real)

  datatype Config = Config(byQType: seq<real>, byOptions: map<string, real>)

  const SUPPORTED_BOUNDS := Bounds(0.5, 5.0, 1.0)

  predicate Ordered(b: Bounds) {
    0.0 < b.low <= b.high
  }

  function Effective(b: Bounds, raw: Raw): (t: real)
    ensures Ordered(b) ==> b.low <= t <= b.high
  {
    MinReal(b.high, MaxReal(b.low, if raw.Some? then raw.value else b.fallback))
  }

  /** A finite value within the bounds is taken as it is, one outside at the nearer bound, and what is
      not a finite number counts as the fallback. */
  lemma EffectiveMeans(b: Bounds, raw: Raw)
    requires b.low <= b.high
    ensures var value := if raw.Some? then raw.value else b.fallback;
      && (b.low <= value <= b.high ==> Effective(b, raw) == value)
      && (value < b.low ==> Effective(b, raw) == b.low)
      && (value > b.high ==> Effective(b, raw) == b.high)
  {}

  /** Keeps three values, one per question type, and the overrides. */
  function Parse(b: Bounds, temperature: seq<Raw>, byOptions: map<string, Raw>): (c: Option<Config>)
    ensures c.Some? && Ordered(b) ==> Accepted(c.value, b)
  {
    if |temperature| != 3 then None
    else
      Some(Config(
        seq(3, i requires 0 <= i < 3 => Effective(b, temperature[i])),
        map bucket | bucket in byOptions :: Effective(b, byOptions[bucket])))
  }

  /** What every parsed calibration satisfies. */
  ghost predicate Accepted(c: Config, b: Bounds) {
    && Ordered(b)
    && |c.byQType| == 3
    && (forall i :: 0 <= i < 3 ==> b.low <= c.byQType[i] <= b.high)
    && (forall bucket :: bucket in c.byOptions ==> b.low <= c.byOptions[bucket] <= b.high)
  }

  function Size(count: nat): string {
    if count <= 2 then "2" else if count <= 5 then "3-5" else if count <= 10 then "6-10" else "11+"
  }

  function Bucket(kind: Kind, count: nat): string {
    KindName(kind) + ":" + Size(count)
  }

  /** The bucket's override when there is one, else the question type's value; a question type
      outside the configured range is refused. */
  function SelectValue(c: Config, q: Prepared): Option<real> {
    if q.qtype < 0 || q.qtype >= |c.byQType| then None
    else
      var bucket := Bucket(q.kind, |q.options|);
      Some(if bucket in c.byOptions then c.byOptions[bucket] else c.byQType[q.qtype])
  }

  /** The override of exactly this kind and number of options wins over the kind's own value. */
  lemma SelectionMeans(c: Config, q: Prepared)
    requires |c.byQType| == 3 && q.qtype == QType(q.kind)
    ensures var kind := if q.kind == ChoiceKind then "choice" else if q.kind == ScoreKind then "score" else "noul";
      var n := |q.options|;
      var bucket := kind + (if n <= 2 then ":2" else if 3 <= n <= 5 then ":3-5" else if 6 <= n <= 10 then ":6-10" else ":11+");
      SelectValue(c, q) == Some(if bucket in c.byOptions then c.byOptions[bucket]
                                else c.byQType[if q.kind == ChoiceKind then 0 else if q.kind == ScoreKind then 1 else 2])
  {
    var n := |q.options|;
    var size := if n <= 2 then "2" else if 3 <= n <= 5 then "3-5" else if 6 <= n <= 10 then "6-10" else "11+";
    var kind := if q.kind == ChoiceKind then "choice" else if q.kind == ScoreKind then "score" else "noul";
    assert kind + ":" + size == kind + (":" + size);
    assert ":" + size == (if n <= 2 then ":2" else if 3 <= n <= 5 then ":3-5" else if 6 <= n <= 10 then ":6-10" else ":11+");
  }

  /** A prepared question always gets a temperature, within the bundle's positive bounds. */
  lemma SelectionSucceeds(c: Config, b: Bounds, q: Prepared)
    requires Accepted(c, b) && q.qtype == QType(q.kind)
    ensures SelectValue(c, q).Some? && 0.0 < b.low <= SelectValue(c, q).value <= b.high
  {
  }

  /** What the reference's selection yields, under either of its clampings: selecting first and
      clamping the raw value is the same as selecting among values clamped when parsed, and
      clamping once more changes nothing. */
  lemma SelectionRefinesReference(temperature: seq<Raw>, byOptions: map<string, Raw>, q: Prepared)
    requires |temperature| == 3 && q.qtype == QType(q.kind)
    ensures var c := Parse(SUPPORTED_BOUNDS, temperature, byOptions).value;
      var reference := R.SelectTemperature(q.qtype, |q.options|, temperature, byOptions);
      && SelectValue(c, q) == Some(reference)
      && R.ClampTemperature(Some(reference)) == reference
  {
    assert ["choice", "score", "noul"][q.qtype] == KindName(q.kind);
  }
}
