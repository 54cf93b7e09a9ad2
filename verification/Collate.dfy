/** Padding prepared items into one rectangular batch, and the row-major layout the tensors use. */
module Collate {
  import opened Wrappers
  import opened Questions
  import opened Preprocess
  import R = Reference
  import opened Results
  import HeadBudget

  datatype Batch = Batch(
    inputIds: seq<seq<int>>,
    attentionMask: seq<seq<int>>,
    markerPos: seq<seq<int>>,
    markerMask: seq<seq<bool>>,
    qtype: seq<int>,
    items: seq<Item>,
    inputTokens: int,
    truncation: Truncation)

  function Padded<T>(s: seq<T>, width: nat, fill: T): (row: seq<T>)
    requires |s| <= width
    ensures |row| == width
  {
    s + seq(width - |s|, i => fill)
  }

  function Constant<T>(x: T, n: nat): seq<T> {
    seq(n, i => x)
  }

  function Ids(items: seq<Item>): seq<seq<int>> {
    seq(|items|, i requires 0 <= i < |items| => items[i].inputIds)
  }

  function Marks(items: seq<Item>): seq<seq<int>> {
    seq(|items|, i requires 0 <= i < |items| => items[i].markers)
  }

  function Widest<T>(rows: seq<seq<T>>): (n: nat)
    ensures forall i :: 0 <= i < |rows| ==> |rows[i]| <= n
  {
    if rows == [] then 0 else
      assert forall i :: 1 <= i < |rows| ==> rows[i] == rows[1..][i - 1];
      Max(|rows[0]|, Widest(rows[1..]))
  }

  /** Tokens before and after truncation, and whether any item lost some. */
  function Totals(items: seq<Item>): Truncation {
    if items == [] then Truncation(false, 0, 0)
    else
      var before := Totals(items[..|items| - 1]);
      var last := items[|items| - 1];
      Truncation(before.truncated || last.truncated,
                 before.original + last.originalTokens,
                 before.effective + |last.inputIds|)
  }

  function Collated(items: seq<Item>, pad: int): Batch {
    var n := |items|;
    var ids, marks := Ids(items), Marks(items);
    var width, markers := Widest(ids), Widest(marks);
    Batch(
      seq(n, i requires 0 <= i < n => Padded(ids[i], width, pad)),
      seq(n, i requires 0 <= i < n => Padded(Constant(1, |ids[i]|), width, 0)),
      seq(n, i requires 0 <= i < n => Padded(marks[i], markers, 0)),
      seq(n, i requires 0 <= i < n => Padded(Constant(true, |marks[i]|), markers, false)),
      seq(n, i requires 0 <= i < n => items[i].question.qtype),
      items,
      Totals(items).effective,
      Totals(items))
  }

  /** Fills a buffer with `fill`, then copies `s` over its front. */
  method PadRow<T(0)>(s: seq<T>, width: nat, fill: T) returns (row: seq<T>)
    requires |s| <= width
    ensures row == Padded(s, width, fill)
  {
    var buffer := new T[width];
    for position := 0 to width
      invariant forall k :: 0 <= k < position ==> buffer[k] == fill
    {
      buffer[position] := fill;
    }
    for position := 0 to |s|
      invariant forall k :: 0 <= k < position ==> buffer[k] == s[k]
      invariant forall k :: position <= k < width ==> buffer[k] == fill
    {
      buffer[position] := s[position];
    }
    row := buffer[..];
  }

  method Widths(items: seq<Item>) returns (width: nat, markers: nat)
    ensures width == Widest(Ids(items)) && markers == Widest(Marks(items))
  {
    width, markers := 0, 0;
    for i := 0 to |items|
      invariant width == Widest(Ids(items[..i])) && markers == Widest(Marks(items[..i]))
    {
      WidestSnoc(Ids(items[..i]), items[i].inputIds);
      WidestSnoc(Marks(items[..i]), items[i].markers);
      assert Ids(items[..i + 1]) == Ids(items[..i]) + [items[i].inputIds];
      assert Marks(items[..i + 1]) == Marks(items[..i]) + [items[i].markers];
      width := Max(width, |items[i].inputIds|);
      markers := Max(markers, |items[i].markers|);
    }
    assert items[..|items|] == items;
  }

  ghost predicate Aligned(b: Batch) {
    |b.inputIds| == |b.attentionMask| == |b.markerPos| == |b.markerMask| == |b.qtype|
  }

  /** The first `n` rows of the batch of `items`. */
  ghost predicate HasRows(batch: Batch, whole: Batch, n: nat)
    requires Aligned(whole) && n <= |whole.inputIds|
  {
    && batch.inputIds == whole.inputIds[..n] && batch.attentionMask == whole.attentionMask[..n]
    && batch.markerPos == whole.markerPos[..n] && batch.markerMask == whole.markerMask[..n]
    && batch.qtype == whole.qtype[..n]
  }

  /** One row of each tensor. */
  method CollateRow(item: Item, width: nat, markers: nat, pad: int)
      returns (ids: seq<int>, attention: seq<int>, positions: seq<int>, mask: seq<bool>)
    requires |item.inputIds| <= width && |item.markers| <= markers
    ensures ids == Padded(item.inputIds, width, pad) && attention == Padded(Constant(1, |item.inputIds|), width, 0)
    ensures positions == Padded(item.markers, markers, 0) && mask == Padded(Constant(true, |item.markers|), markers, false)
  {
    ids := PadRow(item.inputIds, width, pad);
    attention := PadRow(Constant(1, |item.inputIds|), width, 0);
    positions := PadRow(item.markers, markers, 0);
    mask := PadRow(Constant(true, |item.markers|), markers, false);
  }

  lemma RowsSnoc(batch: Batch, whole: Batch, n: nat, next: Batch)
    requires Aligned(whole) && n < |whole.inputIds| && HasRows(batch, whole, n)
    requires next.inputIds == batch.inputIds + [whole.inputIds[n]]
    requires next.attentionMask == batch.attentionMask + [whole.attentionMask[n]]
    requires next.markerPos == batch.markerPos + [whole.markerPos[n]]
    requires next.markerMask == batch.markerMask + [whole.markerMask[n]]
    requires next.qtype == batch.qtype + [whole.qtype[n]]
    ensures HasRows(next, whole, n + 1)
  {}

  method CollatePrepared(items: seq<Item>, pad: int) returns (batch: Batch)
    ensures batch == Collated(items, pad)
  {
    var width, markers := Widths(items);
    ghost var whole := Collated(items, pad);
    batch := Batch([], [], [], [], [], items, 0, Truncation(false, 0, 0));
    for i := 0 to |items|
      invariant HasRows(batch, whole, i) && batch.items == items
      invariant batch.truncation == Totals(items[..i]) && batch.inputTokens == batch.truncation.effective
    {
      var item := items[i];
      assert Ids(items)[i] == item.inputIds && Marks(items)[i] == item.markers;
      assert items[..i + 1][..i] == items[..i];
      var ids, attention, positions, mask := CollateRow(item, width, markers, pad);
      var t := batch.truncation;
      ghost var before := batch;
      batch := Batch(
        batch.inputIds + [ids], batch.attentionMask + [attention],
        batch.markerPos + [positions], batch.markerMask + [mask],
        batch.qtype + [item.question.qtype], items,
        batch.inputTokens + |item.inputIds|,
        Truncation(t.truncated || item.truncated, t.original + item.originalTokens, t.effective + |item.inputIds|));
      RowsSnoc(before, whole, i, batch);
    }
    assert items[..|items|] == items;
  }

  lemma {:induction false} WidestSnoc<T>(rows: seq<seq<T>>, row: seq<T>)
    ensures Widest(rows + [row]) == Max(Widest(rows), |row|)
  {
    if rows == [] {
      assert rows + [row] == [row];
    } else {
      assert (rows + [row])[1..] == rows[1..] + [row];
      WidestSnoc(rows[1..], row);
    }
  }

  // ---- what padding keeps ----

  lemma {:induction false} LongestIsWidest<T>(rows: seq<seq<T>>)
    ensures R.Longest(rows) == Widest(rows)
  {
    if rows != [] { LongestIsWidest(rows[1..]); }
  }

  lemma {:induction false} RepeatIsConstant<T>(x: T, n: nat)
    ensures R.Repeat(x, n) == Constant(x, n)
  {
    if n > 0 {
      RepeatIsConstant(x, n - 1);
      assert Constant(x, n) == [x] + Constant(x, n - 1);
    }
  }

  lemma PaddedIsRepeat<T>(s: seq<T>, width: nat, fill: T)
    requires |s| <= width
    ensures Padded(s, width, fill) == s + R.Repeat(fill, width - |s|)
  {
    RepeatIsConstant(fill, width - |s|);
  }

  function ReferenceItem(item: Item): R.SequenceItem {
    R.SequenceItem(item.inputIds, item.markers, item.question.qtype)
  }

  /** The five tensors are the reference's, for the same items. */
  lemma CollateRefinesReference(items: seq<Item>, pad: int)
    ensures var references := seq(|items|, i requires 0 <= i < |items| => ReferenceItem(items[i]));
      var b := Collated(items, pad);
      R.Collate(references, pad) == R.Batch(b.inputIds, b.attentionMask, b.markerPos, b.markerMask, b.qtype)
  {
    var n := |items|;
    var references := seq(n, i requires 0 <= i < n => ReferenceItem(items[i]));
    var b, r := Collated(items, pad), R.Collate(references, pad);
    var ids, marks := Ids(items), Marks(items);
    assert ids == seq(n, i requires 0 <= i < n => references[i].inputIds);
    assert marks == seq(n, i requires 0 <= i < n => references[i].markers);
    LongestIsWidest(ids);
    LongestIsWidest(marks);
    forall i | 0 <= i < n
      ensures b.inputIds[i] == r.inputIds[i] && b.attentionMask[i] == r.attentionMask[i]
      ensures b.markerPos[i] == r.markerPos[i] && b.markerMask[i] == r.markerMask[i]
    {
      PaddedIsRepeat(ids[i], Widest(ids), pad);
      PaddedIsRepeat(Constant(1, |ids[i]|), Widest(ids), 0);
      RepeatIsConstant(1, |ids[i]|);
      PaddedIsRepeat(marks[i], Widest(marks), 0);
      PaddedIsRepeat(Constant(true, |marks[i]|), Widest(marks), false);
      RepeatIsConstant(true, |marks[i]|);
    }
  }

  /** The elements of a row whose mask is set. */
  function Selected<T>(row: seq<T>, mask: seq<bool>): seq<T>
    requires |row| == |mask|
  {
    if row == [] then []
    else (if mask[0] then [row[0]] else []) + Selected(row[1..], mask[1..])
  }

  lemma {:induction false} SelectNone<T>(row: seq<T>, mask: seq<bool>)
    requires |row| == |mask| && forall i :: 0 <= i < |mask| ==> !mask[i]
    ensures Selected(row, mask) == []
  {
    if row != [] { SelectNone(row[1..], mask[1..]); }
  }

  lemma {:induction false} SelectPrefix<T>(s: seq<T>, row: seq<T>, mask: seq<bool>)
    requires |row| == |mask| && s <= row
    requires forall i :: 0 <= i < |mask| ==> (mask[i] <==> i < |s|)
    ensures Selected(row, mask) == s
  {
    if s == [] {
      SelectNone(row, mask);
    } else {
      SelectPrefix(s[1..], row[1..], mask[1..]);
      assert s == [s[0]] + s[1..];
    }
  }

  /** Keeping the positions each row's masks mark gives back every item's tokens and markers, so
      padding loses nothing and invents nothing. */
  lemma UnpaddingRecoversItems(items: seq<Item>, pad: int, i: nat)
    requires i < |items|
    ensures var b := Collated(items, pad);
      && |b.inputIds| == |b.attentionMask| == |b.markerPos| == |b.markerMask| == |b.qtype| == |items|
      && |b.attentionMask[i]| == |b.inputIds[i]| && |b.markerMask[i]| == |b.markerPos[i]|
      && var attended := seq(|b.attentionMask[i]|, k requires 0 <= k < |b.attentionMask[i]| => b.attentionMask[i][k] == 1);
      && Selected(b.inputIds[i], attended) == items[i].inputIds
      && Selected(b.markerPos[i], b.markerMask[i]) == items[i].markers
  {
    var b := Collated(items, pad);
    var attended := seq(|b.attentionMask[i]|, k requires 0 <= k < |b.attentionMask[i]| => b.attentionMask[i][k] == 1);
    SelectPrefix(items[i].inputIds, b.inputIds[i], attended);
    SelectPrefix(items[i].markers, b.markerPos[i], b.markerMask[i]);
  }

  function Sum(row: seq<int>): int {
    if row == [] then 0 else row[0] + Sum(row[1..])
  }

  function SumAll(rows: seq<seq<int>>): int {
    if rows == [] then 0 else SumAll(rows[..|rows| - 1]) + Sum(rows[|rows| - 1])
  }

  lemma {:induction false} SumOfMask(row: seq<int>, n: nat)
    requires n <= |row|
    requires forall k :: 0 <= k < |row| ==> row[k] == if k < n then 1 else 0
    ensures Sum(row) == n
  {
    if row != [] { SumOfMask(row[1..], if n > 0 then n - 1 else 0); }
  }

  lemma {:induction false} AttentionSum(items: seq<Item>, pad: int, n: nat)
    requires n <= |items|
    ensures |Collated(items, pad).attentionMask| == |items|
    ensures SumAll(Collated(items, pad).attentionMask[..n]) == Totals(items[..n]).effective
  {
    if n > 0 {
      var rows := Collated(items, pad).attentionMask;
      AttentionSum(items, pad, n - 1);
      assert rows[..n][..n - 1] == rows[..n - 1] && items[..n][..n - 1] == items[..n - 1];
      SumOfMask(rows[n - 1], |items[n - 1].inputIds|);
    }
  }

  /** What each accepted item guarantees about its own counts. */
  ghost predicate Counted(item: Item) {
    && |item.inputIds| <= item.originalTokens
    && (item.truncated <==> |item.inputIds| < item.originalTokens)
  }

  lemma {:induction false} TotalsCount(items: seq<Item>)
    requires forall i :: 0 <= i < |items| ==> Counted(items[i])
    ensures var t := Totals(items);
      0 <= t.effective <= t.original && (t.truncated <==> t.effective < t.original)
  {
    if items != [] { TotalsCount(items[..|items| - 1]); }
  }

  function Originals(items: seq<Item>): seq<int> {
    seq(|items|, i requires 0 <= i < |items| => items[i].originalTokens)
  }

  function Lengths(items: seq<Item>): seq<int> {
    seq(|items|, i requires 0 <= i < |items| => |items[i].inputIds|)
  }

  lemma {:induction false} SumSnoc(row: seq<int>, x: int)
    ensures Sum(row + [x]) == Sum(row) + x
  {
    if row == [] {
      assert row + [x] == [x];
    } else {
      assert (row + [x])[1..] == row[1..] + [x];
      SumSnoc(row[1..], x);
    }
  }

  lemma {:induction false} TotalsAreSums(items: seq<Item>)
    ensures var t := Totals(items);
      && t.original == Sum(Originals(items)) && t.effective == Sum(Lengths(items))
      && (t.truncated <==> exists i :: 0 <= i < |items| && items[i].truncated)
  {
    if items != [] {
      var n := |items| - 1;
      TotalsAreSums(items[..n]);
      SumSnoc(Originals(items[..n]), items[n].originalTokens);
      SumSnoc(Lengths(items[..n]), |items[n].inputIds|);
      assert Originals(items) == Originals(items[..n]) + [items[n].originalTokens];
      assert Lengths(items) == Lengths(items[..n]) + [|items[n].inputIds|];
      assert forall i :: 0 <= i < n ==> items[..n][i] == items[i];
    }
  }

  /** The usage a batch reports is the number of attended positions, and it is marked truncated
      exactly when tokens were lost over the whole batch. */
  lemma CountsAreConserved(items: seq<Item>, pad: int)
    requires forall i :: 0 <= i < |items| ==> Counted(items[i])
    ensures var b := Collated(items, pad);
      && b.inputTokens == b.truncation.effective == SumAll(b.attentionMask)
      && 0 <= b.truncation.effective <= b.truncation.original
      && b.truncation.original == Sum(Originals(items)) && b.truncation.effective == Sum(Lengths(items))
      && (b.truncation.truncated <==> exists i :: 0 <= i < |items| && items[i].truncated)
      && (b.truncation.truncated <==> b.truncation.original > b.truncation.effective)
  {
    var rows := Collated(items, pad).attentionMask;
    AttentionSum(items, pad, |items|);
    assert rows[..|items|] == rows && items[..|items|] == items;
    TotalsCount(items);
    TotalsAreSums(items);
  }

  // ---- tensors ----

  method PreparedTensorDimensions(batch: Batch) returns (dimensions: Option<(nat, nat, nat)>)
    ensures dimensions.Some? <==> Rectangular(batch)
    ensures dimensions.Some? ==>
      dimensions.value == (|batch.items|, |batch.inputIds[0]|, |batch.markerPos[0]|)
  {
    var rows := |batch.items|;
    if rows == 0 || |batch.inputIds| != rows || |batch.attentionMask| != rows || |batch.markerPos| != rows
       || |batch.markerMask| != rows || |batch.qtype| != rows {
      return None;
    }
    var width, markers := |batch.inputIds[0]|, |batch.markerPos[0]|;
    if width == 0 || markers == 0 {
      return None;
    }
    for row := 0 to rows
      invariant forall k :: 0 <= k < row ==> RowFits(batch, k, width, markers)
    {
      if |batch.inputIds[row]| != width || |batch.attentionMask[row]| != width
         || |batch.markerPos[row]| != markers || |batch.markerMask[row]| != markers {
        assert !RowFits(batch, row, width, markers);
        return None;
      }
    }
    dimensions := Some((rows, width, markers));
  }

  predicate RowFits(batch: Batch, row: nat, width: nat, markers: nat) {
    && row < |batch.inputIds| && row < |batch.attentionMask|
    && row < |batch.markerPos| && row < |batch.markerMask|
    && |batch.inputIds[row]| == |batch.attentionMask[row]| == width
    && |batch.markerPos[row]| == |batch.markerMask[row]| == markers
  }

  ghost predicate Rectangular(batch: Batch) {
    && |batch.items| > 0
    && |batch.inputIds| == |batch.attentionMask| == |batch.markerPos| == |batch.markerMask| == |batch.qtype| == |batch.items|
    && |batch.inputIds[0]| > 0 && |batch.markerPos[0]| > 0
    && forall k :: 0 <= k < |batch.items| ==> RowFits(batch, k, |batch.inputIds[0]|, |batch.markerPos[0]|)
  }

  ghost predicate AllOfLength<T>(rows: seq<seq<T>>, width: nat) {
    forall row :: row in rows ==> |row| == width
  }

  lemma AllOfLengthByRow<T>(rows: seq<seq<T>>, width: nat)
    ensures AllOfLength(rows, width) <==> forall k :: 0 <= k < |rows| ==> |rows[k]| == width
  {
    if AllOfLength(rows, width) {
      forall k | 0 <= k < |rows| ensures |rows[k]| == width { assert rows[k] in rows; }
    }
  }

  /** Rectangular over the five tensors: as many rows as items, and in each tensor rows as long as the
      first, which is not empty. */
  lemma RectangularMeans(batch: Batch)
    ensures Rectangular(batch) <==>
      && 0 < |batch.items| == |batch.inputIds| == |batch.attentionMask| == |batch.markerPos| == |batch.markerMask| == |batch.qtype|
      && 0 < |batch.inputIds[0]| && 0 < |batch.markerPos[0]|
      && AllOfLength(batch.inputIds, |batch.inputIds[0]|) && AllOfLength(batch.attentionMask, |batch.inputIds[0]|)
      && AllOfLength(batch.markerPos, |batch.markerPos[0]|) && AllOfLength(batch.markerMask, |batch.markerPos[0]|)
  {
    if |batch.items| == |batch.inputIds| == |batch.attentionMask| == |batch.markerPos| == |batch.markerMask| && |batch.items| > 0 {
      var width, markers := |batch.inputIds[0]|, |batch.markerPos[0]|;
      AllOfLengthByRow(batch.inputIds, width);
      AllOfLengthByRow(batch.attentionMask, width);
      AllOfLengthByRow(batch.markerPos, markers);
      AllOfLengthByRow(batch.markerMask, markers);
      if forall k :: 0 <= k < |batch.items| ==> RowFits(batch, k, width, markers) {
        forall k | 0 <= k < |batch.items|
          ensures |batch.inputIds[k]| == |batch.attentionMask[k]| == width && |batch.markerPos[k]| == |batch.markerMask[k]| == markers
        {
          assert RowFits(batch, k, width, markers);
        }
      }
    }
  }

  /** A non-empty batch of non-empty items always has consistent tensor dimensions. */
  lemma CollatedIsRectangular(items: seq<Item>, pad: int)
    requires items != [] && forall i :: 0 <= i < |items| ==> items[i].inputIds != [] && items[i].markers != []
    ensures Rectangular(Collated(items, pad))
  {
    var b := Collated(items, pad);
    assert Ids(items)[0] == items[0].inputIds && Marks(items)[0] == items[0].markers;
    assert forall k :: 0 <= k < |items| ==> RowFits(b, k, |b.inputIds[0]|, |b.markerPos[0]|);
  }

  method FlattenRows<T>(rows: seq<seq<T>>) returns (values: seq<T>)
    ensures values == Flat(rows)
  {
    values := [];
    for i := 0 to |rows|
      invariant values == Flat(rows[..i])
    {
      assert rows[..i + 1] == rows[..i] + [rows[i]];
      Snoc(0, rows[..i], rows[i]);
      values := values + rows[i];
    }
    assert rows[..|rows|] == rows;
  }

  /** `cells` is row number `row` of row-major data of the given width. */
  ghost predicate IsRow<T>(values: seq<T>, width: nat, row: nat, cells: seq<T>) {
    && row * width + width <= |values|
    && cells == values[row * width..row * width + width]
  }

  /** Cuts row-major data into rows; as in the original, the data must hold them all. */
  method SplitRows<T>(values: seq<T>, rows: nat, width: nat) returns (result: seq<seq<T>>)
    requires rows * width <= |values|
    ensures |result| == rows
    ensures forall row :: 0 <= row < rows ==> IsRow(values, width, row, result[row])
  {
    result := [];
    for row := 0 to rows
      invariant |result| == row
      invariant forall k :: 0 <= k < row ==> IsRow(values, width, k, result[k])
    {
      RowEnds(row, rows, width);
      var start := row * width;
      result := result + [values[start..start + width]];
    }
  }

  lemma {:induction false} RowEnds(row: nat, rows: nat, width: nat)
    requires row < rows
    ensures row * width + width <= rows * width
    decreases rows - row
  {
    assert row * width + width == (row + 1) * width;
    if row + 1 < rows { RowEnds(row + 1, rows, width); }
  }

  lemma {:induction false} FlatAt<T>(rows: seq<seq<T>>, width: nat, row: nat, column: nat)
    requires forall k :: 0 <= k < |rows| ==> |rows[k]| == width
    requires row < |rows| && column < width
    ensures |Flat(rows)| == |rows| * width
    ensures 0 <= row * width + column < |Flat(rows)| && Flat(rows)[row * width + column] == rows[row][column]
  {
    FlatSize(rows, width);
    RowEnds(row, |rows|, width);
    if row > 0 {
      FlatAt(rows[1..], width, row - 1, column);
      assert row * width + column == width + ((row - 1) * width + column);
    }
  }

  lemma {:induction false} FlatSize<T>(rows: seq<seq<T>>, width: nat)
    requires forall k :: 0 <= k < |rows| ==> |rows[k]| == width
    ensures |Flat(rows)| == |rows| * width
  {
    if rows != [] {
      FlatSize(rows[1..], width);
      assert |rows| * width == width + (|rows| - 1) * width;
    }
  }

  /** Splitting what was flattened gives every rectangular matrix back. */
  lemma SplitUndoesFlatten<T>(rows: seq<seq<T>>, width: nat, result: seq<seq<T>>)
    requires forall k :: 0 <= k < |rows| ==> |rows[k]| == width
    requires |result| == |rows|
    requires forall k :: 0 <= k < |rows| ==> IsRow(Flat(rows), width, k, result[k])
    ensures result == rows
  {
    forall row | 0 <= row < |rows|
      ensures result[row] == rows[row]
    {
      assert IsRow(Flat(rows), width, row, result[row]);
      forall column | 0 <= column < width
        ensures result[row][column] == rows[row][column]
      {
        FlatAt(rows, width, row, column);
      }
    }
  }

  // ---- the whole batch ----

  datatype BatchError = Item(error: PrepareError) | NoLimit

  /** Every question prepared, or the first failure. */
  function PrepareAll(state: string, questions: seq<Question>, b: Budget, special: Special, tokenizer: Tokenizer,
                      limit: int, policy: Policy): Result<seq<Preprocess.Item>, PrepareError>
  {
    if questions == [] then Ok([])
    else
      match PrepareAll(state, questions[..|questions| - 1], b, special, tokenizer, limit, policy)
      case Err(e) => Err(e)
      case Ok(items) =>
        match Prepare(state, Normalize(questions[|questions| - 1]), b, special, tokenizer, limit, policy)
        case Err(e) => Err(e)
        case Ok(item) => Ok(items + [item])
  }

  /** An explicit input limit lowers the manifest's, and never raises it. */
  function LimitOf(maxLen: int, inputTokenLimit: int): int {
    if 0 < inputTokenLimit < maxLen then inputTokenLimit else maxLen
  }

  /** Item `i` is what preparing question `i` yields, under this state, limit and policy. */
  ghost predicate PreparedUnder(items: seq<Preprocess.Item>, state: string, questions: seq<Question>, b: Budget,
                                special: Special, tokenizer: Tokenizer, limit: int, policy: Policy)
  {
    && |items| == |questions|
    && forall i :: 0 <= i < |questions| ==>
         Prepare(state, Normalize(questions[i]), b, special, tokenizer, limit, policy) == Ok(items[i])
  }

  lemma PreparedUnderSnoc(items: seq<Preprocess.Item>, last: Preprocess.Item, state: string, questions: seq<Question>, b: Budget,
                          special: Special, tokenizer: Tokenizer, limit: int, policy: Policy)
    requires questions != [] && PreparedUnder(items, state, questions[..|questions| - 1], b, special, tokenizer, limit, policy)
    requires Prepare(state, Normalize(questions[|questions| - 1]), b, special, tokenizer, limit, policy) == Ok(last)
    ensures PreparedUnder(items + [last], state, questions, b, special, tokenizer, limit, policy)
  {
    var n := |questions| - 1;
    forall i | 0 <= i < n
      ensures Prepare(state, Normalize(questions[i]), b, special, tokenizer, limit, policy) == Ok(items[i])
    {
      assert questions[..n][i] == questions[i];
    }
  }

  /** The items of a batch are what its questions prepare to, one by one; a failure is that of the
      first question that cannot be prepared. */
  lemma {:induction false} PreparedOneByOne(state: string, questions: seq<Question>, b: Budget, special: Special,
                                            tokenizer: Tokenizer, limit: int, policy: Policy)
    ensures var r := PrepareAll(state, questions, b, special, tokenizer, limit, policy);
      && (r.Ok? ==> PreparedUnder(r.value, state, questions, b, special, tokenizer, limit, policy))
      && (r.Err? ==> FailsFirst(r.error, state, questions, b, special, tokenizer, limit, policy))
  {
    if questions != [] {
      var n := |questions| - 1;
      PreparedOneByOne(state, questions[..n], b, special, tokenizer, limit, policy);
      var before := PrepareAll(state, questions[..n], b, special, tokenizer, limit, policy);
      var last := Prepare(state, Normalize(questions[n]), b, special, tokenizer, limit, policy);
      if before.Ok? && last.Ok? {
        PreparedUnderSnoc(before.value, last.value, state, questions, b, special, tokenizer, limit, policy);
      } else if before.Ok? {
        forall j | 0 <= j < n ensures Prepare(state, Normalize(questions[j]), b, special, tokenizer, limit, policy).Ok? {
          assert questions[..n][j] == questions[j];
        }
        assert FailsAt(n, last.error, state, questions, b, special, tokenizer, limit, policy);
      } else {
        var i :| FailsAt(i, before.error, state, questions[..n], b, special, tokenizer, limit, policy);
        forall j | 0 <= j <= i ensures questions[..n][j] == questions[j] {}
        assert FailsAt(i, before.error, state, questions, b, special, tokenizer, limit, policy);
      }
    }
  }

  ghost predicate FailsAt(i: int, error: PrepareError, state: string, questions: seq<Question>, b: Budget, special: Special,
                          tokenizer: Tokenizer, limit: int, policy: Policy)
  {
    && 0 <= i < |questions|
    && Prepare(state, Normalize(questions[i]), b, special, tokenizer, limit, policy) == Err(error)
    && forall j :: 0 <= j < i ==> Prepare(state, Normalize(questions[j]), b, special, tokenizer, limit, policy).Ok?
  }

  ghost predicate FailsFirst(error: PrepareError, state: string, questions: seq<Question>, b: Budget, special: Special,
                             tokenizer: Tokenizer, limit: int, policy: Policy)
  {
    exists i :: FailsAt(i, error, state, questions, b, special, tokenizer, limit, policy)
  }

  lemma PreparedWithin(items: seq<Preprocess.Item>, state: string, questions: seq<Question>, b: Budget,
                       special: Special, tokenizer: Tokenizer, limit: int, policy: Policy, i: nat)
    requires PreparedUnder(items, state, questions, b, special, tokenizer, limit, policy) && i < |items|
    ensures |items[i].inputIds| <= limit && (policy == RejectOverflow ==> !items[i].truncated)
    ensures items[i].truncated <==> items[i].originalTokens > limit
  {
    HeadBudget.AcceptedShape(state, Normalize(questions[i]), b, special, tokenizer, limit, policy);
  }

  /** No item exceeds the manifest's limit, nor the caller's if it sets one. */
  ghost predicate WithinLimits(items: seq<Preprocess.Item>, maxLen: int, inputTokenLimit: int) {
    forall i :: 0 <= i < |items| ==>
      |items[i].inputIds| <= maxLen && (inputTokenLimit > 0 ==> |items[i].inputIds| <= inputTokenLimit)
  }

  /** The limit that holds, over the two settings: the caller's if it is positive and below the
      manifest's, and the manifest's otherwise. */
  lemma BatchKeepsBothLimits(state: string, questions: seq<Question>, b: Budget, special: Special, tokenizer: Tokenizer,
                             maxLen: int, inputTokenLimit: int, policy: Policy)
    requires PrepareAll(state, questions, b, special, tokenizer, LimitOf(maxLen, inputTokenLimit), policy).Ok?
    ensures var items := PrepareAll(state, questions, b, special, tokenizer, LimitOf(maxLen, inputTokenLimit), policy).value;
      && WithinLimits(items, maxLen, inputTokenLimit)
      && (inputTokenLimit <= 0 || inputTokenLimit >= maxLen ==>
           PreparedUnder(items, state, questions, b, special, tokenizer, maxLen, policy))
      && (0 < inputTokenLimit < maxLen ==>
           PreparedUnder(items, state, questions, b, special, tokenizer, inputTokenLimit, policy))
  {
    var limit := LimitOf(maxLen, inputTokenLimit);
    PreparedOneByOne(state, questions, b, special, tokenizer, limit, policy);
    var items := PrepareAll(state, questions, b, special, tokenizer, limit, policy).value;
    forall i | 0 <= i < |items| ensures |items[i].inputIds| <= limit {
      PreparedWithin(items, state, questions, b, special, tokenizer, limit, policy, i);
    }
  }

  method PrepareBatch(state: string, questions: seq<Question>, b: Budget, special: Special, tokenizer: Tokenizer,
                      maxLen: int, inputTokenLimit: int, policy: Policy) returns (r: Result<Batch, BatchError>)
    ensures var limit := LimitOf(maxLen, inputTokenLimit);
      r == if limit <= 0 then Err(NoLimit)
           else match PrepareAll(state, questions, b, special, tokenizer, limit, policy)
                case Err(e) => Err(BatchError.Item(e))
                case Ok(items) => Ok(Collated(items, special.pad))
    ensures r == Err(NoLimit) <==> maxLen <= 0
    ensures r.Ok? ==> WithinLimits(r.value.items, maxLen, inputTokenLimit)
    ensures r.Ok? && (inputTokenLimit <= 0 || inputTokenLimit >= maxLen) ==>
      PreparedUnder(r.value.items, state, questions, b, special, tokenizer, maxLen, policy)
    ensures r.Ok? && 0 < inputTokenLimit < maxLen ==>
      PreparedUnder(r.value.items, state, questions, b, special, tokenizer, inputTokenLimit, policy)
  {
    var limit := maxLen;
    if inputTokenLimit > 0 && inputTokenLimit < limit {
      limit := inputTokenLimit;
    }
    if limit <= 0 {
      return Err(NoLimit);
    }
    var items := PrepareEach(state, questions, b, special, tokenizer, limit, policy);
    if items.Err? {
      return Err(BatchError.Item(items.error));
    }
    var batch := CollatePrepared(items.value, special.pad);
    BatchKeepsBothLimits(state, questions, b, special, tokenizer, maxLen, inputTokenLimit, policy);
    r := Ok(batch);
  }

  method PrepareEach(state: string, questions: seq<Question>, b: Budget, special: Special, tokenizer: Tokenizer,
                     limit: int, policy: Policy) returns (r: Result<seq<Preprocess.Item>, PrepareError>)
    ensures r == PrepareAll(state, questions, b, special, tokenizer, limit, policy)
  {
    var items := [];
    for i := 0 to |questions|
      invariant PrepareAll(state, questions[..i], b, special, tokenizer, limit, policy) == Ok(items)
    {
      assert questions[..i + 1][..i] == questions[..i];
      var item := PrepareItem(state, Normalize(questions[i]), b, special, tokenizer, limit, policy);
      if item.Err? {
        FirstFailure(state, questions, b, special, tokenizer, limit, policy, i + 1);
        return Err(item.error);
      }
      items := items + [item.value];
    }
    assert questions[..|questions|] == questions;
    r := Ok(items);
  }

  lemma {:induction false} FirstFailure(state: string, questions: seq<Question>, b: Budget, special: Special,
                                        tokenizer: Tokenizer, limit: int, policy: Policy, i: nat)
    requires i <= |questions| && PrepareAll(state, questions[..i], b, special, tokenizer, limit, policy).Err?
    ensures PrepareAll(state, questions, b, special, tokenizer, limit, policy)
         == PrepareAll(state, questions[..i], b, special, tokenizer, limit, policy)
    decreases |questions| - i
  {
    if i == |questions| {
      assert questions[..i] == questions;
    } else {
      assert questions[..i + 1][..i] == questions[..i];
      FirstFailure(state, questions, b, special, tokenizer, limit, policy, i + 1);
    }
  }

  ghost predicate Answers(item: Preprocess.Item, q: Question) {
    && item.question == Normalize(q)
    && |item.markers| == |item.question.options|
    && item.inputIds != []
    && Counted(item)
  }

  lemma PreparedAnswers(state: string, q: Question, b: Budget, special: Special, tokenizer: Tokenizer,
                        limit: int, policy: Policy)
    requires Prepare(state, Normalize(q), b, special, tokenizer, limit, policy).Ok?
    ensures Answers(Prepare(state, Normalize(q), b, special, tokenizer, limit, policy).value, q)
  {
    HeadBudget.AcceptedShape(state, Normalize(q), b, special, tokenizer, limit, policy);
  }

  ghost predicate AllAnswer(items: seq<Preprocess.Item>, questions: seq<Question>) {
    |items| == |questions| && forall i :: 0 <= i < |items| ==> Answers(items[i], questions[i])
  }

  lemma AllAnswerSnoc(items: seq<Preprocess.Item>, last: Preprocess.Item, questions: seq<Question>)
    requires questions != [] && AllAnswer(items, questions[..|questions| - 1])
    requires Answers(last, questions[|questions| - 1])
    ensures AllAnswer(items + [last], questions)
  {}

  /** The items of a prepared batch answer the questions in order, and each is well counted. */
  lemma {:induction false} PreparedItems(state: string, questions: seq<Question>, b: Budget, special: Special,
                                         tokenizer: Tokenizer, limit: int, policy: Policy)
    requires PrepareAll(state, questions, b, special, tokenizer, limit, policy).Ok?
    ensures AllAnswer(PrepareAll(state, questions, b, special, tokenizer, limit, policy).value, questions)
  {
    if questions != [] {
      var n := |questions| - 1;
      PreparedItems(state, questions[..n], b, special, tokenizer, limit, policy);
      PreparedAnswers(state, questions[n], b, special, tokenizer, limit, policy);
      var before := PrepareAll(state, questions[..n], b, special, tokenizer, limit, policy).value;
      AllAnswerSnoc(before, Prepare(state, Normalize(questions[n]), b, special, tokenizer, limit, policy).value, questions);
    }
  }

  /** Every prepared batch of valid questions has consistent, non-empty tensor dimensions. */
  lemma PreparedIsRectangular(state: string, questions: seq<Question>, b: Budget, special: Special,
                              tokenizer: Tokenizer, limit: int, policy: Policy)
    requires ValidRequest(questions)
    requires PrepareAll(state, questions, b, special, tokenizer, limit, policy).Ok?
    ensures Rectangular(Collated(PrepareAll(state, questions, b, special, tokenizer, limit, policy).value, special.pad))
  {
    PreparedItems(state, questions, b, special, tokenizer, limit, policy);
    var items := PrepareAll(state, questions, b, special, tokenizer, limit, policy).value;
    forall i | 0 <= i < |items|
      ensures items[i].markers != [] && items[i].inputIds != [] && |items[i].markers| == |items[i].question.options|
    {
      assert Answers(items[i], questions[i]) && ValidQuestion(questions[i]);
    }
    CollatedIsRectangular(items, special.pad);
  }
}
