/**
  Reading-order detection list of the web pipeline (`get_sorted_detections`
  in app.py): every box the detector reports becomes a record whose box
  coordinates are truncated to integers, and the records are stably sorted
  top-to-bottom by the truncated centre y, then left-to-right by the truncated
  centre x.
*/
module Sequencer {
  import StableSort

  /** One box as the detector reports it: class index, confidence, centre and size in pixels. */
  datatype RawBox = RawBox(classId: nat, confidence: real, xCenter: real, yCenter: real, width: real, height: real)

  /** The detector run: it either raised, or returned one list of boxes per result. */
  datatype Inference = Failed | Ran(results: seq<seq<RawBox>>)

  /** The `box` field of a record: `[x_center, y_center, width, height]` after `int()`. */
  datatype Box = Box(xCenter: int, yCenter: int, width: int, height: int)

  /** A record `{class, confidence, box}`. */
  datatype Detection = Detection(className: string, confidence: real, box: Box)

  /** Python's `int()` on a float: truncation toward zero. */
  function Trunc(r: real): (n: int)
    ensures r >= 0.0 ==> 0.0 <= n as real <= r < n as real + 1.0
    ensures r < 0.0 ==> n as real - 1.0 < r <= n as real <= 0.0
  {
    if r >= 0.0 then r.Floor else -((-r).Floor)
  }

  /** Every class index the detector can report has a name. */
  ghost predicate Labelled(results: seq<seq<RawBox>>, names: map<nat, string>) {
    forall i, j :: 0 <= i < |results| && 0 <= j < |results[i]| ==> results[i][j].classId in names
  }

  /** The record built for one box: its class name, its confidence, and its centre and size cut to integers. */
  function MakeDetection(raw: RawBox, names: map<nat, string>): (d: Detection)
    requires raw.classId in names
    ensures d.className == names[raw.classId] && d.confidence == raw.confidence
    ensures d.box.xCenter == Trunc(raw.xCenter) && d.box.yCenter == Trunc(raw.yCenter)
    ensures d.box.width == Trunc(raw.width) && d.box.height == Trunc(raw.height)
  {
    Detection(names[raw.classId], raw.confidence,
              Box(Trunc(raw.xCenter), Trunc(raw.yCenter), Trunc(raw.width), Trunc(raw.height)))
  }

  /** The records of the boxes of one result, in order. */
  function Records(boxes: seq<RawBox>, names: map<nat, string>): seq<Detection>
    requires forall j :: 0 <= j < |boxes| ==> boxes[j].classId in names
  {
    if boxes == [] then []
    else Records(boxes[..|boxes| - 1], names) + [MakeDetection(boxes[|boxes| - 1], names)]
  }

  /** The records of all results, result by result, box by box. */
  function Collected(results: seq<seq<RawBox>>, names: map<nat, string>): seq<Detection>
    requires Labelled(results, names)
  {
    if results == [] then []
    else Collected(results[..|results| - 1], names) + Records(results[|results| - 1], names)
  }

  /** The sort key `(box[1], box[0])`. */
  function ReadingKey(d: Detection): (int, int) {
    (d.box.yCenter, d.box.xCenter)
  }

  /** Python's ordering of pairs: by the first component, then by the second. */
  function PairLeq(a: (int, int), b: (int, int)): bool {
    a.0 < b.0 || (a.0 == b.0 && a.1 <= b.1)
  }

  lemma PairLeqTotalOrder()
    ensures StableSort.TotalOrder(PairLeq)
  {
  }

  /** Top-to-bottom, then left-to-right, on the truncated centres. */
  ghost predicate InReadingOrder(ds: seq<Detection>) {
    forall i, j :: 0 <= i < j < |ds| ==>
      ds[i].box.yCenter < ds[j].box.yCenter
      || (ds[i].box.yCenter == ds[j].box.yCenter && ds[i].box.xCenter <= ds[j].box.xCenter)
  }

  /** `sorted(detections, key=lambda d: (d['box'][1], d['box'][0]))` */
  function ReadingOrder(ds: seq<Detection>): (r: seq<Detection>)
    ensures multiset(r) == multiset(ds)
  {
    PairLeqTotalOrder();
    StableSort.SortCorrect(ds, ReadingKey, PairLeq);
    StableSort.Sort(ds, ReadingKey, PairLeq)
  }

  /** The reading order is sorted, a permutation, and keeps records with equal keys in their order. */
  lemma ReadingOrderCorrect(ds: seq<Detection>)
    ensures InReadingOrder(ReadingOrder(ds))
    ensures multiset(ReadingOrder(ds)) == multiset(ds)
    ensures StableSort.SameKeyClasses(ReadingOrder(ds), ds, ReadingKey)
  {
    PairLeqTotalOrder();
    StableSort.SortCorrect(ds, ReadingKey, PairLeq);
    var r := ReadingOrder(ds);
    forall i, j | 0 <= i < j < |r|
      ensures r[i].box.yCenter < r[j].box.yCenter
           || (r[i].box.yCenter == r[j].box.yCenter && r[i].box.xCenter <= r[j].box.xCenter)
    {
      assert PairLeq(ReadingKey(r[i]), ReadingKey(r[j]));
    }
  }

  /** Any list in reading order that keeps tied records in their order is the reading order. */
  lemma ReadingOrderUnique(ds: seq<Detection>, r: seq<Detection>)
    requires InReadingOrder(r)
    requires StableSort.SameKeyClasses(r, ds, ReadingKey)
    ensures r == ReadingOrder(ds)
  {
    PairLeqTotalOrder();
    assert StableSort.Sorted(r, ReadingKey, PairLeq);
    StableSort.SortCharacterized(ds, r, ReadingKey, PairLeq);
  }

  /** Records with pairwise different `(y, x)` keys come out in the same order however they were collected. */
  lemma ReadingOrderIgnoresCollectionOrder(ds: seq<Detection>, es: seq<Detection>)
    requires multiset(ds) == multiset(es)
    requires StableSort.DistinctKeys(ds, ReadingKey) && StableSort.DistinctKeys(es, ReadingKey)
    ensures ReadingOrder(ds) == ReadingOrder(es)
  {
    PairLeqTotalOrder();
    StableSort.SortIgnoresInputOrder(ds, es, ReadingKey, PairLeq);
  }

  /**
    Builds the records with two nested loops and returns them in reading order;
    a failed detector run gives the empty list.
  */
  method GetSortedDetections(inference: Inference, names: map<nat, string>) returns (sorted: seq<Detection>)
    requires inference.Ran? ==> Labelled(inference.results, names)
    ensures inference.Failed? ==> sorted == []
    ensures inference.Ran? ==> sorted == ReadingOrder(Collected(inference.results, names))
    ensures inference.Ran? ==> InReadingOrder(sorted)
    ensures inference.Ran? ==> multiset(sorted) == multiset(Collected(inference.results, names))
    ensures inference.Ran? ==>
      StableSort.SameKeyClasses(sorted, Collected(inference.results, names), ReadingKey)
  {
    if inference.Failed? {
      return [];
    }
    var results := inference.results;
    var detections: seq<Detection> := [];
    var i := 0;
    while i < |results|
      invariant 0 <= i <= |results|
      invariant detections == Collected(results[..i], names)
    {
      var boxes := results[i];
      var j := 0;
      while j < |boxes|
        invariant 0 <= j <= |boxes|
        invariant detections == Collected(results[..i], names) + Records(boxes[..j], names)
      {
        assert boxes[..j + 1][..j] == boxes[..j];
        detections := detections + [MakeDetection(boxes[j], names)];
        j := j + 1;
      }
      assert boxes[..j] == boxes;
      assert results[..i + 1][..i] == results[..i];
      i := i + 1;
    }
    assert results[..i] == results;
    sorted := ReadingOrder(detections);
    ReadingOrderCorrect(detections);
  }

  /**
    Ordering looks at the truncated coordinates: a box whose raw centre is
    lower but truncates to the same row is placed first when it is further left.
  */
  lemma TruncationDecidesOrder()
    ensures var names := map[0 := "button"];
            var upper := RawBox(0, 0.9, 50.0, 10.2, 20.0, 8.0);
            var lower := RawBox(0, 0.8, 30.0, 10.9, 20.0, 8.0);
            upper.yCenter < lower.yCenter
            && ReadingOrder(Collected([[upper, lower]], names))
               == [MakeDetection(lower, names), MakeDetection(upper, names)]
  {
    var names := map[0 := "button"];
    var upper := RawBox(0, 0.9, 50.0, 10.2, 20.0, 8.0);
    var lower := RawBox(0, 0.8, 30.0, 10.9, 20.0, 8.0);
    var du, dl := MakeDetection(upper, names), MakeDetection(lower, names);
    assert Trunc(10.2) == 10 && Trunc(10.9) == 10;
    assert ReadingKey(du) == (10, 50) && ReadingKey(dl) == (10, 30);
    assert [upper, lower][..1] == [upper] && [upper][..0] == [];
    assert Records([upper], names) == [du];
    assert Records([upper, lower], names) == [du, dl];
    assert [[upper, lower]][..0] == [];
    assert Collected([[upper, lower]], names) == [du, dl];
    ReadingOrderOfTwo(du, dl);
  }

  /** Two records whose keys are strictly decreasing come out swapped. */
  lemma ReadingOrderOfTwo(a: Detection, b: Detection)
    requires !PairLeq(ReadingKey(a), ReadingKey(b))
    ensures ReadingOrder([a, b]) == [b, a]
  {
    var ab := [a, b];
    assert StableSort.Sort([a], ReadingKey, PairLeq) == [a] by {
      assert ab[..0] == [] && ab[..1] == [a];
      StableSort.SortStep(ab, 0, ReadingKey, PairLeq);
    }
    assert StableSort.Sort(ab, ReadingKey, PairLeq) == StableSort.Insert([a], b, ReadingKey, PairLeq) by {
      assert ab[..1] == [a] && ab[..2] == ab;
      StableSort.SortStep(ab, 1, ReadingKey, PairLeq);
    }
    assert StableSort.Insert([a], b, ReadingKey, PairLeq) == [b, a] by {
      assert [a][..0] == [];
    }
  }
}
