/** The recursive check that no object of a JSON document repeats a key, over the token stream a
    decoder yields. The manifest checker bounds key lengths; the calibration checker does not. */
module JsonKeys {
  import opened Wrappers

  type Key = seq<byte>

  datatype Field = Field(key: Key, value: Value)

  datatype Value = Scalar | Text(text: Key) | Array(items: seq<Value>) | Object(fields: seq<Field>)

  datatype Token = ObjectOpen | ObjectClose | ArrayOpen | ArrayClose | TextToken(text: Key) | ScalarToken

  const MAX_DEPTH := 64
  const MAX_KEY_BYTES := 512

  // ---- documents ----

  function Tokens(v: Value): (ts: seq<Token>)
    ensures ts != [] && ts[0] !in {ObjectClose, ArrayClose}
    decreases v, 1
  {
    match v
    case Scalar => [ScalarToken]
    case Text(text) => [TextToken(text)]
    case Array(items) => [ArrayOpen] + ItemTokens(items) + [ArrayClose]
    case Object(fields) => [ObjectOpen] + FieldTokens(fields) + [ObjectClose]
  }

  function ItemTokens(items: seq<Value>): seq<Token>
    decreases items, 0
  {
    if items == [] then [] else Tokens(items[0]) + ItemTokens(items[1..])
  }

  function FieldTokens(fields: seq<Field>): seq<Token>
    decreases fields, 0
  {
    if fields == [] then []
    else [TextToken(fields[0].key)] + Tokens(fields[0].value) + FieldTokens(fields[1..])
  }

  /** Every object, at every depth, has distinct keys. */
  ghost predicate UniqueKeys(v: Value) {
    match v
    case Scalar => true
    case Text(_) => true
    case Array(items) => forall i :: 0 <= i < |items| ==> UniqueKeys(items[i])
    case Object(fields) =>
      && (forall i, j :: 0 <= i < j < |fields| ==> fields[i].key != fields[j].key)
      && (forall i :: 0 <= i < |fields| ==> UniqueKeys(fields[i].value))
  }

  /** Every key, at every depth, is within the bound, when there is one. */
  ghost predicate KeysWithin(v: Value, bound: Option<nat>) {
    match v
    case Scalar => true
    case Text(_) => true
    case Array(items) => forall i :: 0 <= i < |items| ==> KeysWithin(items[i], bound)
    case Object(fields) =>
      forall i :: 0 <= i < |fields| ==> WithinBound(fields[i].key, bound) && KeysWithin(fields[i].value, bound)
  }

  predicate WithinBound(key: Key, bound: Option<nat>) {
    bound.Some? ==> |key| <= bound.value
  }

  /** No value lies inside more than `depth` containers. */
  ghost predicate NestedWithin(v: Value, depth: int) {
    depth >= 0
    && match v
       case Scalar => true
       case Text(_) => true
       case Array(items) => forall i :: 0 <= i < |items| ==> NestedWithin(items[i], depth - 1)
       case Object(fields) => forall i :: 0 <= i < |fields| ==> NestedWithin(fields[i].value, depth - 1)
  }

  ghost predicate WellKeyed(v: Value, depth: int, bound: Option<nat>) {
    UniqueKeys(v) && KeysWithin(v, bound) && NestedWithin(v, depth)
  }

  // ---- streams ----

  class Decoder {
    const tokens: seq<Token>
    var pos: nat

    constructor (tokens: seq<Token>)
      ensures this.tokens == tokens && pos == 0
    {
      this.tokens := tokens;
      pos := 0;
    }

    /** Tokens still to come. */
    ghost function Left(): nat
      reads this
    {
      if pos <= |tokens| then |tokens| - pos else 0
    }

    /** Whether the current container has another element. */
    method More() returns (more: bool)
      ensures more <==> pos < |tokens| && tokens[pos] !in {ObjectClose, ArrayClose}
    {
      more := pos < |tokens| && tokens[pos] != ObjectClose && tokens[pos] != ArrayClose;
    }

    method Next() returns (token: Option<Token>)
      modifies this
      ensures old(pos) < |tokens| ==> token == Some(tokens[old(pos)]) && pos == old(pos) + 1
      ensures old(pos) >= |tokens| ==> token == None && pos == old(pos)
    {
      if pos >= |tokens| {
        return None;
      }
      token := Some(tokens[pos]);
      pos := pos + 1;
    }
  }

  /** `part` lies in the stream at `pos`. */
  ghost predicate At(tokens: seq<Token>, pos: nat, part: seq<Token>) {
    pos + |part| <= |tokens| && tokens[pos..pos + |part|] == part
  }

  lemma AtSplit(tokens: seq<Token>, pos: nat, a: seq<Token>, b: seq<Token>)
    requires At(tokens, pos, a + b)
    ensures At(tokens, pos, a) && At(tokens, pos + |a|, b)
  {
    assert (a + b)[..|a|] == a && (a + b)[|a|..] == b;
  }

  lemma AtHead(tokens: seq<Token>, pos: nat, part: seq<Token>)
    requires At(tokens, pos, part) && part != []
    ensures pos < |tokens| && tokens[pos] == part[0]
  {
    assert tokens[pos] == tokens[pos..pos + |part|][0];
  }

  // ---- the checker ----

  /** Consumes one value. On the token stream of a well-formed value it succeeds exactly when the
      value is well keyed from this depth on, and then has consumed exactly that value. On any
      other stream it still terminates, moving forward. */
  method ConsumeValue(d: Decoder, depth: nat, bound: Option<nat>, ghost v: Option<Value>) returns (ok: bool)
    requires v.Some? ==> At(d.tokens, d.pos, Tokens(v.value))
    modifies d
    ensures old(d.pos) <= d.pos && (ok ==> old(d.pos) < d.pos <= |d.tokens|)
    ensures v.Some? ==>
      && (ok <==> WellKeyed(v.value, MAX_DEPTH - depth, bound))
      && (ok ==> d.pos == old(d.pos) + |Tokens(v.value)|)
    decreases d.Left(), 0
  {
    if depth > MAX_DEPTH {
      return false;
    }
    if v.Some? { AtHead(d.tokens, d.pos, Tokens(v.value)); }
    ghost var start := d.pos;
    var token := d.Next();
    match token {
      case None => return false;
      case Some(ObjectOpen) =>
        if v.Some? { ContainerSplits(d.tokens, start, [ObjectOpen], FieldTokens(v.value.fields) + [ObjectClose], v.value); }
        ok := ConsumeFields(d, depth, bound, if v.Some? then Some(v.value.fields) else None);
      case Some(ArrayOpen) =>
        if v.Some? { ContainerSplits(d.tokens, start, [ArrayOpen], ItemTokens(v.value.items) + [ArrayClose], v.value); }
        ok := ConsumeItems(d, depth, bound, if v.Some? then Some(v.value.items) else None);
      case Some(ScalarToken) => return true;
      case Some(TextToken(_)) => return true;
      case Some(_) => return false;
    }
  }

  lemma ContainerSplits(tokens: seq<Token>, pos: nat, open: seq<Token>, rest: seq<Token>, v: Value)
    requires At(tokens, pos, Tokens(v)) && Tokens(v) == open + rest
    ensures At(tokens, pos + |open|, rest)
  {
    AtSplit(tokens, pos, open, rest);
  }

  /** One key and its value. */
  method ConsumeField(d: Decoder, depth: nat, bound: Option<nat>, seen: set<Key>, ghost field: Option<Field>)
      returns (ok: bool, key: Key)
    requires depth <= MAX_DEPTH
    requires field.Some? ==>
      At(d.tokens, d.pos, [TextToken(field.value.key)]) && At(d.tokens, d.pos + 1, Tokens(field.value.value))
    modifies d
    ensures old(d.pos) <= d.pos && (ok ==> old(d.pos) < d.pos <= |d.tokens|)
    ensures field.Some? ==>
      && (ok <==> Takeable(field.value, seen, MAX_DEPTH - depth, bound))
      && (ok ==> key == field.value.key && d.pos == old(d.pos) + 1 + |Tokens(field.value.value)|)
    decreases d.Left(), 1
  {
    key := [];
    if field.Some? { AtHead(d.tokens, d.pos, [TextToken(field.value.key)]); }
    var token := d.Next();
    if token.None? || !token.value.TextToken? {
      return false, key;
    }
    key := token.value.text;
    if !WithinBound(key, bound) {
      return false, key;
    }
    if key in seen {
      return false, key;
    }
    ok := ConsumeValue(d, depth + 1, bound, if field.Some? then Some(field.value.value) else None);
  }

  /** Where the loop over the fields of an object stands. */
  ghost predicate FieldsConsumed(tokens: seq<Token>, pos: nat, start: nat, fields: seq<Field>, i: int, seen: set<Key>,
                                 depth: int, bound: Option<nat>)
  {
    && 0 <= i <= |fields|
    && At(tokens, pos, FieldTokens(fields[i..]) + [ObjectClose])
    && pos + |FieldTokens(fields[i..])| == start + |FieldTokens(fields)|
    && seen == (set k | 0 <= k < i :: fields[k].key)
    && FieldsSoFar(fields, i, depth, bound)
  }

  /** What the next field must be for the object to stay well keyed. */
  ghost predicate Takeable(f: Field, seen: set<Key>, depth: int, bound: Option<nat>) {
    WithinBound(f.key, bound) && f.key !in seen && WellKeyed(f.value, depth - 1, bound)
  }

  lemma FieldTaken(tokens: seq<Token>, pos: nat, start: nat, fields: seq<Field>, i: nat, seen: set<Key>, depth: int,
                   bound: Option<nat>)
    requires FieldsConsumed(tokens, pos, start, fields, i, seen, depth, bound) && i < |fields|
    requires Takeable(fields[i], seen, depth, bound)
    ensures FieldsConsumed(tokens, pos + 1 + |Tokens(fields[i].value)|, start, fields, i + 1, seen + {fields[i].key},
                           depth, bound)
  {
    FieldSplits(tokens, pos, fields, i);
    forall k | 0 <= k < i ensures fields[k].key != fields[i].key { assert fields[k].key in seen; }
  }

  lemma FieldRefused(tokens: seq<Token>, pos: nat, start: nat, fields: seq<Field>, i: nat, seen: set<Key>, depth: int,
                     bound: Option<nat>)
    requires FieldsConsumed(tokens, pos, start, fields, i, seen, depth, bound) && i < |fields|
    requires !Takeable(fields[i], seen, depth, bound)
    ensures !WellKeyed(Object(fields), depth, bound)
  {
  }

  /** At a field there is more, and at the end there is not. */
  lemma FieldsEnd(tokens: seq<Token>, pos: nat, start: nat, fields: seq<Field>, i: nat, seen: set<Key>, depth: int,
                  bound: Option<nat>)
    requires FieldsConsumed(tokens, pos, start, fields, i, seen, depth, bound) && depth >= 0
    ensures pos < |tokens| && (i < |fields| <==> tokens[pos] !in {ObjectClose, ArrayClose})
    ensures i == |fields| ==> WellKeyed(Object(fields), depth, bound)
  {
    AtHead(tokens, pos, FieldTokens(fields[i..]) + [ObjectClose]);
  }

  /** One turn of the loop over the fields of an object. */
  method ConsumeNextField(d: Decoder, depth: nat, bound: Option<nat>, seen: set<Key>, ghost fields: Option<seq<Field>>,
                          ghost start: nat, ghost i: nat) returns (more: bool, ok: bool, now: set<Key>)
    requires depth <= MAX_DEPTH
    requires fields.Some? ==>
      FieldsConsumed(d.tokens, d.pos, start, fields.value, i, seen, MAX_DEPTH - depth, bound)
    modifies d
    ensures old(d.pos) <= d.pos && (more && ok ==> old(d.pos) < d.pos <= |d.tokens|)
    ensures !more ==> ok && now == seen && d.pos == old(d.pos) && (fields.Some? ==> i == |fields.value|)
    ensures fields.Some? && more && ok ==>
      FieldsConsumed(d.tokens, d.pos, start, fields.value, i + 1, now, MAX_DEPTH - depth, bound)
    ensures fields.Some? && !ok ==> !WellKeyed(Object(fields.value), MAX_DEPTH - depth, bound)
    decreases d.Left(), 2
  {
    ghost var at, left := d.pos, MAX_DEPTH - depth;
    if fields.Some? { FieldsEnd(d.tokens, at, start, fields.value, i, seen, left, bound); }
    ok, now := true, seen;
    more := d.More();
    if !more {
      return;
    }
    if fields.Some? { FieldSplits(d.tokens, at, fields.value, i); }
    var key;
    ok, key := ConsumeField(d, depth, bound, seen, if fields.Some? then Some(fields.value[i]) else None);
    if !ok {
      if fields.Some? { FieldRefused(d.tokens, at, start, fields.value, i, seen, left, bound); }
      return;
    }
    if fields.Some? { FieldTaken(d.tokens, at, start, fields.value, i, seen, left, bound); }
    now := seen + {key};
  }

  /** The fields of an object that has just been opened, and its closing token. */
  method ConsumeFields(d: Decoder, depth: nat, bound: Option<nat>, ghost fields: Option<seq<Field>>)
      returns (ok: bool)
    requires depth <= MAX_DEPTH
    requires fields.Some? ==> At(d.tokens, d.pos, FieldTokens(fields.value) + [ObjectClose])
    modifies d
    ensures old(d.pos) <= d.pos && (ok ==> d.pos <= |d.tokens|)
    ensures fields.Some? ==>
      && (ok <==> WellKeyed(Object(fields.value), MAX_DEPTH - depth, bound))
      && (ok ==> d.pos == old(d.pos) + |FieldTokens(fields.value)| + 1)
    decreases d.Left(), 3
  {
    ghost var start, i, left := d.pos, 0, MAX_DEPTH - depth;
    var seen: set<Key> := {};
    while true
      invariant start <= d.pos
      invariant fields.Some? ==> FieldsConsumed(d.tokens, d.pos, start, fields.value, i, seen, left, bound)
      invariant fields.Some? ==> i <= |fields.value|
      decreases |d.tokens| - d.pos
    {
      var more;
      more, ok, seen := ConsumeNextField(d, depth, bound, seen, fields, start, i);
      if !more {
        break;
      }
      if !ok {
        return;
      }
      i := i + 1;
    }
    if fields.Some? { FieldsEnd(d.tokens, d.pos, start, fields.value, i, seen, left, bound); }
    var close := d.Next();
    ok := close.Some?;
  }

  /** Where the loop over the items of an array stands. */
  ghost predicate ItemsConsumed(tokens: seq<Token>, pos: nat, start: nat, items: seq<Value>, i: int, depth: int,
                                bound: Option<nat>)
  {
    && 0 <= i <= |items|
    && At(tokens, pos, ItemTokens(items[i..]) + [ArrayClose])
    && pos + |ItemTokens(items[i..])| == start + |ItemTokens(items)|
    && (forall k :: 0 <= k < i ==> WellKeyed(items[k], depth - 1, bound))
  }

  lemma ItemTaken(tokens: seq<Token>, pos: nat, start: nat, items: seq<Value>, i: nat, depth: int, bound: Option<nat>)
    requires ItemsConsumed(tokens, pos, start, items, i, depth, bound) && i < |items|
    requires WellKeyed(items[i], depth - 1, bound)
    ensures ItemsConsumed(tokens, pos + |Tokens(items[i])|, start, items, i + 1, depth, bound)
  {
    ItemSplits(tokens, pos, items, i);
  }

  lemma ItemRefused(items: seq<Value>, i: nat, depth: int, bound: Option<nat>)
    requires i < |items| && !WellKeyed(items[i], depth - 1, bound)
    ensures !WellKeyed(Array(items), depth, bound)
  {
  }

  /** At an item there is more, and at the end there is not. */
  lemma ItemsEnd(tokens: seq<Token>, pos: nat, start: nat, items: seq<Value>, i: nat, depth: int, bound: Option<nat>)
    requires ItemsConsumed(tokens, pos, start, items, i, depth, bound) && depth >= 0
    ensures pos < |tokens| && (i < |items| <==> tokens[pos] !in {ObjectClose, ArrayClose})
    ensures i == |items| ==> WellKeyed(Array(items), depth, bound)
  {
    AtHead(tokens, pos, ItemTokens(items[i..]) + [ArrayClose]);
  }

  /** The items of an array that has just been opened, and its closing token. */
  method ConsumeItems(d: Decoder, depth: nat, bound: Option<nat>, ghost items: Option<seq<Value>>)
      returns (ok: bool)
    requires depth <= MAX_DEPTH
    requires items.Some? ==> At(d.tokens, d.pos, ItemTokens(items.value) + [ArrayClose])
    modifies d
    ensures old(d.pos) <= d.pos && (ok ==> d.pos <= |d.tokens|)
    ensures items.Some? ==>
      && (ok <==> WellKeyed(Array(items.value), MAX_DEPTH - depth, bound))
      && (ok ==> d.pos == old(d.pos) + |ItemTokens(items.value)| + 1)
    decreases d.Left(), 1
  {
    ghost var start, i := d.pos, 0;
    ghost var left := MAX_DEPTH - depth;
    while true
      invariant start <= d.pos
      invariant items.Some? ==> ItemsConsumed(d.tokens, d.pos, start, items.value, i, left, bound)
      decreases |d.tokens| - d.pos
    {
      ghost var at := d.pos;
      if items.Some? { ItemsEnd(d.tokens, at, start, items.value, i, left, bound); }
      var more := d.More();
      if !more {
        break;
      }
      if items.Some? { ItemSplits(d.tokens, at, items.value, i); }
      var consumed := ConsumeValue(d, depth + 1, bound, if items.Some? then Some(items.value[i]) else None);
      if !consumed {
        if items.Some? { ItemRefused(items.value, i, left, bound); }
        return false;
      }
      if items.Some? { ItemTaken(d.tokens, at, start, items.value, i, left, bound); }
      i := i + 1;
    }
    var close := d.Next();
    ok := close.Some?;
  }

  ghost predicate FieldsSoFar(fields: seq<Field>, n: nat, depth: int, bound: Option<nat>)
    requires n <= |fields|
  {
    && (forall k, l :: 0 <= k < l < n ==> fields[k].key != fields[l].key)
    && (forall k :: 0 <= k < n ==> WithinBound(fields[k].key, bound) && WellKeyed(fields[k].value, depth - 1, bound))
  }

  lemma FieldSplits(tokens: seq<Token>, pos: nat, fields: seq<Field>, i: nat)
    requires i < |fields| && At(tokens, pos, FieldTokens(fields[i..]) + [ObjectClose])
    ensures At(tokens, pos, [TextToken(fields[i].key)]) && At(tokens, pos + 1, Tokens(fields[i].value))
    ensures At(tokens, pos + 1 + |Tokens(fields[i].value)|, FieldTokens(fields[i + 1..]) + [ObjectClose])
    ensures |FieldTokens(fields[i..])| == 1 + |Tokens(fields[i].value)| + |FieldTokens(fields[i + 1..])|
  {
    var head, value, rest := [TextToken(fields[i].key)], Tokens(fields[i].value), FieldTokens(fields[i + 1..]) + [ObjectClose];
    assert fields[i..][1..] == fields[i + 1..];
    assert FieldTokens(fields[i..]) + [ObjectClose] == head + (value + rest);
    AtSplit(tokens, pos, head, value + rest);
    AtSplit(tokens, pos + 1, value, rest);
  }

  lemma ItemSplits(tokens: seq<Token>, pos: nat, items: seq<Value>, i: nat)
    requires i < |items| && At(tokens, pos, ItemTokens(items[i..]) + [ArrayClose])
    ensures At(tokens, pos, Tokens(items[i]))
    ensures At(tokens, pos + |Tokens(items[i])|, ItemTokens(items[i + 1..]) + [ArrayClose])
    ensures |ItemTokens(items[i..])| == |Tokens(items[i])| + |ItemTokens(items[i + 1..])|
  {
    var value, rest := Tokens(items[i]), ItemTokens(items[i + 1..]) + [ArrayClose];
    assert items[i..][1..] == items[i + 1..];
    assert ItemTokens(items[i..]) + [ArrayClose] == value + rest;
    AtSplit(tokens, pos, value, rest);
  }

  /** The whole document: one value and nothing after it. */
  method RejectDuplicateFields(tokens: seq<Token>, bound: Option<nat>, ghost v: Value) returns (ok: bool)
    requires Tokens(v) <= tokens
    ensures ok <==> WellKeyed(v, MAX_DEPTH, bound) && tokens == Tokens(v)
  {
    var d := new Decoder(tokens);
    var consumed := ConsumeValue(d, 0, bound, Some(v));
    if !consumed {
      return false;
    }
    var trailing := d.Next();
    ok := trailing.None?;
  }

  // ---- what the checkers accept, value by value ----

  /** `u` occurs in `v` inside `d` containers. */
  ghost predicate Inside(u: Value, v: Value, d: nat)
    decreases v
  {
    || (u == v && d == 0)
    || (d > 0 && match v
                 case Array(items) => exists i :: 0 <= i < |items| && Inside(u, items[i], d - 1)
                 case Object(fields) => exists i :: 0 <= i < |fields| && Inside(u, fields[i].value, d - 1)
                 case _ => false)
  }

  /** An object whose keys differ from one another and are short enough. */
  ghost predicate ObjectKeyed(u: Value, longest: Option<nat>) {
    u.Object? ==>
      && (forall i, j :: 0 <= i < j < |u.fields| ==> u.fields[i].key != u.fields[j].key)
      && (longest.Some? ==> forall i :: 0 <= i < |u.fields| ==> |u.fields[i].key| <= longest.value)
  }

  /** Every value in the document is inside at most so many containers, and every object keyed. */
  ghost predicate KeyedThroughout(v: Value, deepest: int, longest: Option<nat>) {
    forall u, d: nat :: Inside(u, v, d) ==> d <= deepest && ObjectKeyed(u, longest)
  }

  lemma {:induction false} KeyedEverywhere(v: Value, depth: nat, bound: Option<nat>, u: Value, d: nat)
    requires WellKeyed(v, depth, bound) && Inside(u, v, d)
    ensures d <= depth && ObjectKeyed(u, bound)
    decreases v
  {
    if d > 0 {
      match v
      case Array(items) =>
        var i :| 0 <= i < |items| && Inside(u, items[i], d - 1);
        assert NestedWithin(items[i], depth - 1);
        KeyedEverywhere(items[i], depth - 1, bound, u, d - 1);
      case Object(fields) =>
        var i :| 0 <= i < |fields| && Inside(u, fields[i].value, d - 1);
        assert NestedWithin(fields[i].value, depth - 1);
        KeyedEverywhere(fields[i].value, depth - 1, bound, u, d - 1);
      case _ =>
    }
  }

  lemma {:induction false} EverywhereKeyed(v: Value, depth: nat, bound: Option<nat>)
    requires KeyedThroughout(v, depth, bound)
    ensures WellKeyed(v, depth, bound)
    decreases v
  {
    assert Inside(v, v, 0) && ObjectKeyed(v, bound);
    match v
    case Array(items) =>
      forall i | 0 <= i < |items| ensures depth > 0 && WellKeyed(items[i], depth - 1, bound) {
        forall u, d: nat | Inside(u, items[i], d) ensures d <= depth - 1 && ObjectKeyed(u, bound) {
          assert Inside(u, v, d + 1);
        }
        assert Inside(items[i], items[i], 0);
        EverywhereKeyed(items[i], depth - 1, bound);
      }
    case Object(fields) =>
      forall i | 0 <= i < |fields| ensures depth > 0 && WellKeyed(fields[i].value, depth - 1, bound) {
        forall u, d: nat | Inside(u, fields[i].value, d) ensures d <= depth - 1 && ObjectKeyed(u, bound) {
          assert Inside(u, v, d + 1);
        }
        assert Inside(fields[i].value, fields[i].value, 0);
        EverywhereKeyed(fields[i].value, depth - 1, bound);
      }
    case _ =>
  }

  lemma WellKeyedMeans(v: Value, depth: nat, bound: Option<nat>)
    ensures WellKeyed(v, depth, bound) <==> KeyedThroughout(v, depth, bound)
  {
    if WellKeyed(v, depth, bound) {
      forall u, d: nat | Inside(u, v, d) ensures d <= depth && ObjectKeyed(u, bound) { KeyedEverywhere(v, depth, bound, u, d); }
    }
    if KeyedThroughout(v, depth, bound) { EverywhereKeyed(v, depth, bound); }
  }

  /** The manifest's checker: one document, nothing after it, no value inside more than 64 containers,
      and in every object at every depth distinct keys of at most 512 bytes. */
  method CheckManifest(tokens: seq<Token>, ghost v: Value) returns (ok: bool)
    requires Tokens(v) <= tokens
    ensures ok <==> tokens == Tokens(v) && KeyedThroughout(v, 64, Some(512))
  {
    WellKeyedMeans(v, 64, Some(512));
    ok := RejectDuplicateFields(tokens, Some(MAX_KEY_BYTES), v);
  }

  /** The calibration's checker: the same, whatever the length of keys. */
  method CheckCalibration(tokens: seq<Token>, ghost v: Value) returns (ok: bool)
    requires Tokens(v) <= tokens
    ensures ok <==> tokens == Tokens(v) && KeyedThroughout(v, 64, None)
  {
    WellKeyedMeans(v, 64, None);
    ok := RejectDuplicateFields(tokens, None, v);
  }

  /** The two checkers differ in nothing but the length of keys. */
  lemma {:induction false} CheckersAgree(v: Value, depth: int)
    ensures WellKeyed(v, depth, Some(MAX_KEY_BYTES)) <==> WellKeyed(v, depth, None) && KeysWithin(v, Some(MAX_KEY_BYTES))
  {
    NoBound(v);
  }

  lemma {:induction false} NoBound(v: Value)
    ensures KeysWithin(v, None)
  {
    match v
    case Scalar =>
    case Text(_) =>
    case Array(items) => forall i | 0 <= i < |items| ensures KeysWithin(items[i], None) { NoBound(items[i]); }
    case Object(fields) =>
      forall i | 0 <= i < |fields| ensures KeysWithin(fields[i].value, None) { NoBound(fields[i].value); }
  }
}
