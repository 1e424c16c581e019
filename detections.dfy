/**
 * Conversion of the detector's results record into the list of
 * `[x1, y1, x2, y2, score, cls]` rows that the overlay reads
 * (`Demo.convert_detections` in thermal_demo.py).
 *
 * Coordinates and scores are only moved, never computed on, so they are
 * kept as `real`. Class indices arrive as floating-point values and are
 * converted with Python's `int()`, which truncates toward zero.
 */
module Detections {
  import opened Wrappers

  /** The results record: a count and three parallel arrays. Each box is `(y1, x1, y2, x2)`. */
  datatype Results = Results(
    numDetections: int,
    boxes: seq<seq<real>>,
    scores: seq<real>,
    classes: seq<real>)

  /** One converted detection, with its box in `(x1, y1, x2, y2)` order. */
  datatype Row = Row(x1: real, y1: real, x2: real, y2: real, score: real, cls: int)

  datatype ArrayName = Boxes | Scores | Classes

  /** What `convert_detections` raises. */
  datatype ConvertError =
    | IndexOutOfRange(array: ArrayName, index: nat)  // an IndexError on one of the parallel arrays
    | UnpackMismatch(index: nat, got: nat)            // a ValueError unpacking a box that does not hold four values

  /** Python's `int()` on a float: truncation toward zero. */
  function Trunc(x: real): (n: int)
    ensures 0.0 <= x ==> n as real <= x < n as real + 1.0
    ensures x < 0.0 ==> n as real - 1.0 < x <= n as real
  {
    if x >= 0.0 then x.Floor else -((-x).Floor)
  }

  /** The number of iterations of `range(num_detections)`: none when the count is not positive. */
  function Count(r: Results): nat
  {
    if r.numDetections > 0 then r.numDetections else 0
  }

  /**
   * The error that iteration `i` of the loop raises, if any, in the order
   * Python evaluates the row: the box index, its unpacking into four
   * names, the score index, then the class index.
   */
  function RowError(r: Results, i: nat): (e: Option<ConvertError>)
    ensures e == Some(IndexOutOfRange(Boxes, i)) <==> i >= |r.boxes|
    ensures (exists n :: e == Some(UnpackMismatch(i, n))) <==> i < |r.boxes| && |r.boxes[i]| != 4
    ensures e == Some(IndexOutOfRange(Scores, i)) <==> i < |r.boxes| && |r.boxes[i]| == 4 && i >= |r.scores|
    ensures e == Some(IndexOutOfRange(Classes, i)) <==>
      i < |r.boxes| && |r.boxes[i]| == 4 && i < |r.scores| && i >= |r.classes|
    ensures e.Some? && e.value.UnpackMismatch? ==> e.value.got == |r.boxes[i]|
    ensures e == None <==> i < |r.boxes| && |r.boxes[i]| == 4 && i < |r.scores| && i < |r.classes|
  {
    if i >= |r.boxes| then Some(IndexOutOfRange(Boxes, i))
    else if |r.boxes[i]| != 4 then Some(UnpackMismatch(i, |r.boxes[i]|))
    else if i >= |r.scores| then Some(IndexOutOfRange(Scores, i))
    else if i >= |r.classes| then Some(IndexOutOfRange(Classes, i))
    else None
  }

  predicate RowOk(r: Results, i: nat)
  {
    RowError(r, i).None?
  }

  /** Row `i` of the output: the box `(y1, x1, y2, x2)` reordered to `(x1, y1, x2, y2)`. */
  function ConvertRow(r: Results, i: nat): Row
    requires RowOk(r, i)
  {
    var b := r.boxes[i];
    Row(b[1], b[0], b[3], b[2], r.scores[i], Trunc(r.classes[i]))
  }

  /** The first index at or after `from`, below the count, whose row raises. */
  function FirstFault(r: Results, from: nat): (k: Option<nat>)
    decreases Count(r) - from
    ensures k.Some? ==> from <= k.value < Count(r) && !RowOk(r, k.value)
                        && forall j :: from <= j < k.value ==> RowOk(r, j)
    ensures k.None? ==> forall j :: from <= j < Count(r) ==> RowOk(r, j)
  {
    if from >= Count(r) then None
    else if !RowOk(r, from) then Some(from)
    else FirstFault(r, from + 1)
  }

  /** Every parallel array reaches the count and every box within it holds four values. */
  predicate WellFormed(r: Results)
  {
    Count(r) <= |r.boxes| && Count(r) <= |r.scores| && Count(r) <= |r.classes|
    && forall i :: 0 <= i < Count(r) ==> |r.boxes[i]| == 4
  }

  lemma {:induction false} WellFormedIff(r: Results)
    ensures WellFormed(r) <==> forall j :: 0 <= j < Count(r) ==> RowOk(r, j)
  {
    if forall j :: 0 <= j < Count(r) ==> RowOk(r, j) {
      if Count(r) > 0 {
        assert RowOk(r, Count(r) - 1);
      }
      forall i | 0 <= i < Count(r) ensures |r.boxes[i]| == 4 {
        assert RowOk(r, i);
      }
    }
  }

  /** The first faulty row is the one the loop stops at. */
  lemma FirstFaultIs(r: Results, i: nat)
    requires i < Count(r) && !RowOk(r, i)
    requires forall j :: 0 <= j < i ==> RowOk(r, j)
    ensures FirstFault(r, 0) == Some(i)
  {
  }

  /**
   * What `convert_detections` produces: one row per detection in index
   * order, or the error raised by the first row that cannot be read.
   */
  function Conversion(r: Results): (res: Result<seq<Row>, ConvertError>)
    ensures res.Ok? <==> WellFormed(r)
    ensures res.Ok? ==> |res.value| == Count(r)
    ensures res.Ok? ==> forall i :: 0 <= i < Count(r) ==>
      res.value[i].x1 == r.boxes[i][1] && res.value[i].y1 == r.boxes[i][0]
      && res.value[i].x2 == r.boxes[i][3] && res.value[i].y2 == r.boxes[i][2]
      && res.value[i].score == r.scores[i] && res.value[i].cls == Trunc(r.classes[i])
    ensures res.Err? ==> exists k :: 0 <= k < Count(r) && (forall j :: 0 <= j < k ==> RowOk(r, j))
                                     && RowError(r, k) == Some(res.error)
  {
    WellFormedIff(r);
    match FirstFault(r, 0)
    case Some(k) => Err(RowError(r, k).value)
    case None => Ok(seq(Count(r), i requires 0 <= i < Count(r) => ConvertRow(r, i)))
  }

  /** The loop of `convert_detections`, appending one row per index. */
  method ConvertDetections(r: Results) returns (res: Result<seq<Row>, ConvertError>)
    ensures res == Conversion(r)
  {
    var detections: seq<Row> := [];
    var i: nat := 0;
    while i < Count(r)
      invariant i <= Count(r)
      invariant forall j :: 0 <= j < i ==> RowOk(r, j)
      invariant |detections| == i
      invariant forall j :: 0 <= j < i ==> detections[j] == ConvertRow(r, j)
    {
      if i >= |r.boxes| {
        res := Err(IndexOutOfRange(Boxes, i));
        FirstFaultIs(r, i);
        return;
      }
      var box := r.boxes[i];
      if |box| != 4 {
        res := Err(UnpackMismatch(i, |box|));
        FirstFaultIs(r, i);
        return;
      }
      var y1, x1, y2, x2 := box[0], box[1], box[2], box[3];
      if i >= |r.scores| {
        res := Err(IndexOutOfRange(Scores, i));
        FirstFaultIs(r, i);
        return;
      }
      var score := r.scores[i];
      if i >= |r.classes| {
        res := Err(IndexOutOfRange(Classes, i));
        FirstFaultIs(r, i);
        return;
      }
      var cls := Trunc(r.classes[i]);
      detections := detections + [Row(x1, y1, x2, y2, score, cls)];
      i := i + 1;
    }
    assert FirstFault(r, 0) == None;
    assert detections == seq(Count(r), j requires 0 <= j < Count(r) => ConvertRow(r, j));
    res := Ok(detections);
  }

  /** A results record whose conversion is `rows`: boxes back in `(y1, x1, y2, x2)` order, classes as whole numbers. */
  function Unconvert(rows: seq<Row>): Results
  {
    Results(|rows|,
            seq(|rows|, i requires 0 <= i < |rows| => [rows[i].y1, rows[i].x1, rows[i].y2, rows[i].x2]),
            seq(|rows|, i requires 0 <= i < |rows| => rows[i].score),
            seq(|rows|, i requires 0 <= i < |rows| => rows[i].cls as real))
  }

  /** Any list of rows is the conversion of some record: reordering the box and truncating a whole class lose nothing. */
  lemma ConversionOfUnconvert(rows: seq<Row>)
    ensures Conversion(Unconvert(rows)) == Ok(rows)
  {
    var r := Unconvert(rows);
    forall i | 0 <= i < Count(r) ensures |r.boxes[i]| == 4 {
      assert r.boxes[i] == [rows[i].y1, rows[i].x1, rows[i].y2, rows[i].x2];
    }
    assert WellFormed(r);
    var out := Conversion(r).value;
    forall i | 0 <= i < |rows| ensures out[i] == rows[i] {
      assert r.boxes[i] == [rows[i].y1, rows[i].x1, rows[i].y2, rows[i].x2];
      assert Trunc(rows[i].cls as real) == rows[i].cls;
    }
    assert |out| == |rows|;
    assert out == rows;
  }

  /** A successful conversion keeps the first `Count` boxes and scores exactly: undoing it gives them back. */
  lemma UnconvertOfConversion(r: Results)
    requires WellFormed(r)
    ensures Conversion(r).Ok? && var back := Unconvert(Conversion(r).value);
      back.numDetections == Count(r)
      && back.boxes == r.boxes[..Count(r)]
      && back.scores == r.scores[..Count(r)]
      && forall i :: 0 <= i < Count(r) ==> back.classes[i] == Trunc(r.classes[i]) as real
  {
    var back := Unconvert(Conversion(r).value);
    forall i | 0 <= i < Count(r) ensures back.boxes[i] == r.boxes[i] {
      var b := r.boxes[i];
      assert |b| == 4;
      assert back.boxes[i] == [b[0], b[1], b[2], b[3]];
    }
  }
}
