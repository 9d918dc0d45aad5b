/**
  The stand-alone detector (`get_detections` in detector.py): every box becomes
  a record carrying its class name, its top edge `y` and its corner
  coordinates, and the list is then sorted in place, stably, by `y` alone.
*/
module Detector {
  import StableSort

  /** `box.xyxy[0]`: the corners `[x1, y1, x2, y2]`. */
  datatype Corners = Corners(x1: real, y1: real, x2: real, y2: real)

  /** One box as the detector reports it. */
  datatype RawBox = RawBox(classId: nat, corners: Corners)

  /** A record `{'class': ..., 'y': ..., 'box': ...}`. */
  datatype Record = Record(className: string, y: real, box: Corners)

  ghost predicate Labelled(results: seq<seq<RawBox>>, names: map<nat, string>) {
    forall i, j :: 0 <= i < |results| && 0 <= j < |results[i]| ==> results[i][j].classId in names
  }

  /** The record built for one box; its `y` is the top edge `y1`. */
  function MakeRecord(raw: RawBox, names: map<nat, string>): (r: Record)
    requires raw.classId in names
    ensures r.className == names[raw.classId] && r.box == raw.corners
    ensures r.y == r.box.y1
  {
    Record(names[raw.classId], raw.corners.y1, raw.corners)
  }

  function Records(boxes: seq<RawBox>, names: map<nat, string>): seq<Record>
    requires forall j :: 0 <= j < |boxes| ==> boxes[j].classId in names
  {
    if boxes == [] then []
    else Records(boxes[..|boxes| - 1], names) + [MakeRecord(boxes[|boxes| - 1], names)]
  }

  function Collected(results: seq<seq<RawBox>>, names: map<nat, string>): seq<Record>
    requires Labelled(results, names)
  {
    if results == [] then []
    else Collected(results[..|results| - 1], names) + Records(results[|results| - 1], names)
  }

  /** Every collected record's `y` is the top edge of its box. */
  lemma {:induction false} CollectedTopEdges(results: seq<seq<RawBox>>, names: map<nat, string>)
    requires Labelled(results, names)
    ensures forall r :: r in Collected(results, names) ==> r.y == r.box.y1
    decreases |results|
  {
    if results != [] {
      var init := results[..|results| - 1];
      assert Labelled(init, names) by {
        forall i, j | 0 <= i < |init| && 0 <= j < |init[i]| ensures init[i][j].classId in names {
          assert init[i] == results[i];
        }
      }
      CollectedTopEdges(init, names);
      RecordsTopEdges(results[|results| - 1], names);
    }
  }

  lemma {:induction false} RecordsTopEdges(boxes: seq<RawBox>, names: map<nat, string>)
    requires forall j :: 0 <= j < |boxes| ==> boxes[j].classId in names
    ensures forall r :: r in Records(boxes, names) ==> r.y == r.box.y1
    decreases |boxes|
  {
    if boxes != [] {
      RecordsTopEdges(boxes[..|boxes| - 1], names);
    }
  }

  /** The sort key `d['y']`. */
  function TopEdge(r: Record): real {
    r.y
  }

  function RealLeq(a: real, b: real): bool {
    a <= b
  }

  lemma RealLeqTotalOrder()
    ensures StableSort.TotalOrder(RealLeq)
  {
  }

  /**
    Where the insertion puts `x`: behind the prefix `done[..j]` that ends in a
    top edge not greater than its own, in front of the greater ones after it.
  */
  lemma {:induction false} InsertPosition(done: seq<Record>, j: nat, x: Record)
    requires j <= |done|
    requires j == 0 || done[j - 1].y <= x.y
    requires forall k :: j <= k < |done| ==> done[k].y > x.y
    ensures StableSort.Insert(done, x, TopEdge, RealLeq) == done[..j] + [x] + done[j..]
    decreases |done|
  {
    if j < |done| {
      var init, last := done[..|done| - 1], done[|done| - 1];
      InsertPosition(init, j, x);
      assert init[..j] == done[..j];
      assert done[j..] == init[j..] + [last];
    } else {
      assert done[..j] == done;
    }
  }

  /** Inserts `a[i]` into the sorted prefix `a[..i]`, shifting greater elements one place right. */
  method InsertAt(a: array<Record>, i: nat)
    requires i < a.Length
    modifies a
    ensures a[..i + 1] == StableSort.Insert(old(a[..i]), old(a[i]), TopEdge, RealLeq)
    ensures a[i + 1..] == old(a[i + 1..])
  {
    var x := a[i];
    ghost var done := a[..i];
    var j := i;
    while j > 0 && a[j - 1].y > x.y
      invariant 0 <= j <= i
      invariant forall k :: 0 <= k < j ==> a[k] == done[k]
      invariant forall k :: j < k <= i ==> a[k] == done[k - 1]
      invariant forall k :: i < k < a.Length ==> a[k] == old(a[k])
      invariant forall k :: j <= k < i ==> done[k].y > x.y
    {
      a[j] := a[j - 1];
      j := j - 1;
    }
    a[j] := x;
    InsertPosition(done, j, x);
    assert a[..i + 1] == done[..j] + [x] + done[j..];
  }

  /** `detections.sort(key=lambda d: d['y'])`, done in place by insertion. */
  method SortByTopEdge(a: array<Record>)
    modifies a
    ensures a[..] == StableSort.Sort(old(a[..]), TopEdge, RealLeq)
  {
    ghost var input := a[..];
    var i := 0;
    while i < a.Length
      invariant 0 <= i <= a.Length
      invariant a[..i] == StableSort.Sort(input[..i], TopEdge, RealLeq)
      invariant a[i..] == input[i..]
    {
      assert a[i] == input[i];
      InsertAt(a, i);
      assert a[..i + 1] == StableSort.Sort(input[..i + 1], TopEdge, RealLeq) by {
        StableSort.SortStep(input, i, TopEdge, RealLeq);
      }
      i := i + 1;
    }
    assert a[..] == a[..a.Length];
    assert input == input[..a.Length];
  }

  /** The two nested loops of `get_detections` that append one record per box. */
  method CollectRecords(results: seq<seq<RawBox>>, names: map<nat, string>) returns (collected: seq<Record>)
    requires Labelled(results, names)
    ensures collected == Collected(results, names)
  {
    collected := [];
    var i := 0;
    while i < |results|
      invariant 0 <= i <= |results|
      invariant collected == Collected(results[..i], names)
    {
      var boxes := results[i];
      var j := 0;
      while j < |boxes|
        invariant 0 <= j <= |boxes|
        invariant collected == Collected(results[..i], names) + Records(boxes[..j], names)
      {
        assert boxes[..j + 1][..j] == boxes[..j];
        collected := collected + [MakeRecord(boxes[j], names)];
        j := j + 1;
      }
      assert boxes[..j] == boxes;
      assert results[..i + 1][..i] == results[..i];
      i := i + 1;
    }
    assert results[..i] == results;
  }

  /** `get_detections`: collect the records, then sort them in place by top edge. */
  method GetDetections(results: seq<seq<RawBox>>, names: map<nat, string>) returns (detections: seq<Record>)
    requires Labelled(results, names)
    ensures detections == StableSort.Sort(Collected(results, names), TopEdge, RealLeq)
    ensures forall i, j :: 0 <= i < j < |detections| ==> detections[i].y <= detections[j].y
    ensures multiset(detections) == multiset(Collected(results, names))
    ensures StableSort.SameKeyClasses(detections, Collected(results, names), TopEdge)
    ensures forall i :: 0 <= i < |detections| ==> detections[i].y == detections[i].box.y1
  {
    var collected := CollectRecords(results, names);
    var a := new Record[|collected|](k requires 0 <= k < |collected| => collected[k]);
    assert a[..] == collected;
    SortByTopEdge(a);
    detections := a[..];
    RealLeqTotalOrder();
    StableSort.SortCorrect(collected, TopEdge, RealLeq);
    CollectedTopEdges(results, names);
    forall i | 0 <= i < |detections| ensures detections[i].y == detections[i].box.y1 {
      assert detections[i] in multiset(collected);
    }
    forall i, j | 0 <= i < j < |detections| ensures detections[i].y <= detections[j].y {
      assert RealLeq(TopEdge(detections[i]), TopEdge(detections[j]));
    }
  }

  /**
    Horizontal position never breaks a tie: two records on the same top edge
    keep their order even when the second one lies further left.
  */
  lemma TiesKeepCollectionOrder()
    ensures var right := Record("button", 10.0, Corners(300.0, 10.0, 400.0, 40.0));
            var left := Record("image", 10.0, Corners(5.0, 10.0, 100.0, 90.0));
            left.box.x1 < right.box.x1
            && StableSort.Sort([right, left], TopEdge, RealLeq) == [right, left]
  {
    var right := Record("button", 10.0, Corners(300.0, 10.0, 400.0, 40.0));
    var left := Record("image", 10.0, Corners(5.0, 10.0, 100.0, 90.0));
    assert [right, left][..1] == [right] && [right][..0] == [];
    assert StableSort.Sort([right], TopEdge, RealLeq) == StableSort.Insert([], right, TopEdge, RealLeq) == [right];
    assert StableSort.Insert([right], left, TopEdge, RealLeq) == [right, left];
  }
}
