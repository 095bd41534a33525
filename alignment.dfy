/** The alignment decisions of `dataset_psd2pkl_worker` and `iou`: each
    document of a sequence gets a perspective transform onto the newest one,
    or the identity when the estimate is too small or implausible. Feature
    detection, matching, homography estimation, point projection and bounding
    rectangles are library calls and enter as opaque functions. */
module Alignment {
  import opened Pixels
  import opened Matrix

  // ---------------------------------------------------------------- ordering

  predicate Descending(xs: seq<int>)
  {
    forall i, j :: 0 <= i < j < |xs| ==> xs[i] >= xs[j]
  }

  function Insert(x: int, xs: seq<int>): (r: seq<int>)
    ensures |r| == |xs| + 1 && multiset(r) == multiset(xs) + multiset{x}
    decreases |xs|
  {
    if xs == [] then [x]
    else if x >= xs[0] then [x] + xs
    else
      assert xs == [xs[0]] + xs[1..];
      [xs[0]] + Insert(x, xs[1..])
  }

  /** A descending list stays descending behind a head no smaller than any of its elements. */
  lemma DescendingCons(y: int, ys: seq<int>)
    requires Descending(ys) && forall k :: 0 <= k < |ys| ==> ys[k] <= y
    ensures Descending([y] + ys)
  {
    var r := [y] + ys;
    forall i, j | 0 <= i < j < |r| ensures r[i] >= r[j] {
      assert r[j] == ys[j - 1];
      if i > 0 { assert r[i] == ys[i - 1]; }
    }
  }

  /** The tail of a descending list is descending and bounded by the head. */
  lemma DescendingTail(xs: seq<int>)
    requires Descending(xs) && xs != []
    ensures Descending(xs[1..]) && forall k :: 0 <= k < |xs[1..]| ==> xs[1..][k] <= xs[0]
  {
    forall i, j | 0 <= i < j < |xs[1..]| ensures xs[1..][i] >= xs[1..][j] {
      assert xs[1..][i] == xs[i + 1] && xs[1..][j] == xs[j + 1];
    }
    forall k | 0 <= k < |xs[1..]| ensures xs[1..][k] <= xs[0] {
      assert xs[1..][k] == xs[k + 1];
    }
  }

  /** Inserting into a descending list keeps it descending. */
  lemma {:induction false} InsertDescending(x: int, xs: seq<int>)
    requires Descending(xs)
    ensures Descending(Insert(x, xs))
    decreases |xs|
  {
    if xs == [] {
    } else if x >= xs[0] {
      forall k | 0 <= k < |xs| ensures xs[k] <= x { assert xs[0] >= xs[k]; }
      DescendingCons(x, xs);
    } else {
      DescendingTail(xs);
      var tail := xs[1..];
      InsertDescending(x, tail);
      var rest := Insert(x, tail);
      forall k | 0 <= k < |rest| ensures rest[k] <= xs[0] {
        assert rest[k] in multiset(rest);
        if rest[k] != x {
          assert rest[k] in multiset(tail);
          var j :| 0 <= j < |tail| && tail[j] == rest[k];
        }
      }
      DescendingCons(xs[0], rest);
    }
  }

  /** `sorted(...)[::-1]` of the numeric file prefixes: newest (largest) first. */
  function NewestFirst(nums: seq<int>): (r: seq<int>)
    ensures |r| == |nums|
    decreases |nums|
  {
    if nums == [] then [] else Insert(nums[0], NewestFirst(nums[1..]))
  }

  /** The order is descending and a permutation of the prefixes. */
  lemma {:induction false} NewestFirstSpec(nums: seq<int>)
    ensures Descending(NewestFirst(nums)) && multiset(NewestFirst(nums)) == multiset(nums)
    decreases |nums|
  {
    if nums != [] {
      NewestFirstSpec(nums[1..]);
      InsertDescending(nums[0], NewestFirst(nums[1..]));
      assert nums == [nums[0]] + nums[1..];
    }
  }

  // ------------------------------------------------------------ ratio test

  /** A `DMatch`: its distance and the indices of the two keypoints. */
  datatype DMatch = DMatch(distance: real, queryIdx: nat, trainIdx: nat)

  /** One entry of `knnMatch(..., k=2)`: the best and the second-best match. */
  datatype KnnPair = KnnPair(m: DMatch, n: DMatch)

  /** Lowe's ratio test: `m.distance < 0.7 * n.distance`. */
  predicate PassesRatio(p: KnnPair)
  {
    p.m.distance < 0.7 * p.n.distance
  }

  function Bests(matches: seq<KnnPair>): (ms: seq<DMatch>)
    ensures |ms| == |matches| && forall k :: 0 <= k < |matches| ==> ms[k] == matches[k].m
  {
    seq(|matches|, k requires 0 <= k < |matches| => matches[k].m)
  }

  function RatioFlags(matches: seq<KnnPair>): (keep: seq<bool>)
    ensures |keep| == |matches| && forall k :: 0 <= k < |matches| ==> keep[k] == PassesRatio(matches[k])
  {
    seq(|matches|, k requires 0 <= k < |matches| => PassesRatio(matches[k]))
  }

  /** The good matches: the best match of every pair that passes the test. */
  function Good(matches: seq<KnnPair>): seq<DMatch>
  {
    Select(Bests(matches), RatioFlags(matches))
  }

  /** The good matches are the passing pairs' best matches, in order: pair `k`
      contributes iff it passes the test. */
  lemma GoodSpec(matches: seq<KnnPair>)
    ensures var idx := SelectedIndices(RatioFlags(matches));
      && Embeds(idx, Good(matches), Bests(matches))
      && forall k :: 0 <= k < |matches| ==> (k in idx <==> PassesRatio(matches[k]))
  {
    SelectSpec(Bests(matches), RatioFlags(matches));
  }

  /** The loop that appends the passing matches to `good`. */
  method RatioTest(matches: seq<KnnPair>) returns (good: seq<DMatch>)
    ensures good == Good(matches)
  {
    good := [];
    for i := 0 to |matches|
      invariant good == Select(Bests(matches)[..i], RatioFlags(matches)[..i])
    {
      assert Bests(matches)[..i + 1][..i] == Bests(matches)[..i];
      assert RatioFlags(matches)[..i + 1][..i] == RatioFlags(matches)[..i];
      if PassesRatio(matches[i]) {
        good := good + [matches[i].m];
      }
    }
    assert Bests(matches)[..|matches|] == Bests(matches);
    assert RatioFlags(matches)[..|matches|] == RatioFlags(matches);
  }

  // ------------------------------------------------------------------ boxes

  datatype Point = Point(x: real, y: real)

  /** `cv2.boundingRect`'s `(x, y, w, h)`. */
  datatype Rect = Rect(x: real, y: real, w: real, h: real)

  /** `(x1, y1, x2, y2)`, the form `iou` takes. */
  datatype Box = Box(x1: real, y1: real, x2: real, y2: real)

  /** `rect[2] += rect[0]; rect[3] += rect[1]`. */
  function ToBox(r: Rect): (b: Box)
    ensures b.x1 == r.x && b.y1 == r.y && b.x2 - b.x1 == r.w && b.y2 - b.y1 == r.h
  {
    Box(r.x, r.y, r.x + r.w, r.y + r.h)
  }

  function Max(a: real, b: real): real { if a >= b then a else b }
  function Min(a: real, b: real): real { if a <= b then a else b }
  function Abs(a: real): real { if a >= 0.0 then a else -a }

  /** The overlap's width or height: `max(hi - lo, 0)`. */
  function Overlap(lo: real, hi: real): (d: real)
    ensures d >= 0.0 && (d == 0.0 <==> hi <= lo) && (d > 0.0 ==> d == hi - lo)
  {
    Max(hi - lo, 0.0)
  }

  /** The overlap of two intervals is no wider than either. */
  lemma OverlapWithin(lo1: real, hi1: real, lo2: real, hi2: real)
    ensures var d := Overlap(Max(lo1, lo2), Min(hi1, hi2));
      d > 0.0 ==> d <= hi1 - lo1 && d <= hi2 - lo2
  {
  }

  function DX(a: Box, b: Box): real
  {
    Overlap(Max(a.x1, b.x1), Min(a.x2, b.x2))
  }

  function DY(a: Box, b: Box): real
  {
    Overlap(Max(a.y1, b.y1), Min(a.y2, b.y2))
  }

  function InterArea(a: Box, b: Box): real
  {
    Abs(DX(a, b) * DY(a, b))
  }

  function Width(a: Box): real { a.x2 - a.x1 }
  function Height(a: Box): real { a.y2 - a.y1 }

  function Area(a: Box): real
  {
    Abs(Width(a) * Height(a))
  }

  lemma MulPos(x: real, y: real)
    requires x > 0.0 && y > 0.0
    ensures x * y > 0.0
  {
  }

  lemma MulZero(x: real, y: real)
    requires x == 0.0 || y == 0.0
    ensures x * y == 0.0
  {
  }

  lemma MulMono(p: real, q: real, p': real, q': real)
    requires 0.0 < p <= p' && 0.0 < q <= q'
    ensures p * q <= p' * q'
  {
    assert p * q <= p' * q;
    assert p' * q <= p' * q';
  }

  /** A product of positive sides is at most the product of longer sides. */
  lemma AreaBound(dx: real, dy: real, w: real, h: real)
    requires 0.0 < dx <= w && 0.0 < dy <= h
    ensures 0.0 < Abs(dx * dy) <= Abs(w * h)
  {
    MulPos(dx, dy);
    MulPos(w, h);
    MulMono(dx, dy, w, h);
  }

  lemma MulNonZero(x: real, y: real)
    requires x * y != 0.0
    ensures x != 0.0 && y != 0.0
  {
  }

  /** A non-zero overlap is a positive rectangle inside the first box, so that
      box's area is at least the overlap's. */
  lemma InterWithin(a: Box, b: Box)
    requires InterArea(a, b) != 0.0
    ensures 0.0 < InterArea(a, b) <= Area(a)
  {
    var dx, dy := DX(a, b), DY(a, b);
    MulNonZero(dx, dy);
    OverlapWithin(a.x1, a.x2, b.x1, b.x2);
    OverlapWithin(a.y1, a.y2, b.y1, b.y2);
    var w, h := Width(a), Height(a);
    assert 0.0 < dx <= w && 0.0 < dy <= h;
    AreaBound(dx, dy, w, h);
  }

  lemma InterSymmetric(a: Box, b: Box)
    ensures InterArea(a, b) == InterArea(b, a)
  {
    assert DX(a, b) == DX(b, a) && DY(a, b) == DY(b, a);
  }

  /** A non-zero overlap is at most either box's area. */
  lemma InterBounds(a: Box, b: Box)
    requires InterArea(a, b) != 0.0
    ensures 0.0 < InterArea(a, b) <= Area(a) && InterArea(a, b) <= Area(b)
  {
    InterSymmetric(a, b);
    InterWithin(a, b);
    InterWithin(b, a);
  }

  /** `iou(boxA, boxB)`: 0 without overlap, else the overlap over the union. */
  function Iou(a: Box, b: Box): real
  {
    var inter := InterArea(a, b);
    if inter == 0.0 then 0.0
    else
      InterBounds(a, b);
      inter / (Area(a) + Area(b) - inter)
  }

  lemma DivPos(x: real, y: real)
    requires 0.0 < x && 0.0 < y
    ensures 0.0 < x / y
  {
  }

  lemma DivAtMostOne(x: real, y: real)
    requires 0.0 < x <= y
    ensures x / y <= 1.0
  {
  }

  /** The ratio is in `[0, 1]`, and positive exactly when the boxes overlap. */
  lemma IouRange(a: Box, b: Box)
    ensures 0.0 <= Iou(a, b) <= 1.0
    ensures Iou(a, b) > 0.0 <==> InterArea(a, b) != 0.0
  {
    if InterArea(a, b) != 0.0 {
      InterBounds(a, b);
      var x, y := InterArea(a, b), Area(a) + Area(b) - InterArea(a, b);
      DivPos(x, y);
      DivAtMostOne(x, y);
    }
  }

  /** Boxes side by side or one above the other do not overlap: `iou` is 0. */
  lemma IouDisjoint(a: Box, b: Box)
    requires a.x2 <= b.x1 || b.x2 <= a.x1 || a.y2 <= b.y1 || b.y2 <= a.y1
    ensures Iou(a, b) == 0.0
  {
    MulZero(DX(a, b), DY(a, b));
  }

  lemma IouSymmetric(a: Box, b: Box)
    ensures Iou(a, b) == Iou(b, a)
  {
    InterSymmetric(a, b);
  }

  /** A box of positive area matches itself exactly. */
  lemma IouSelf(a: Box)
    requires a.x1 < a.x2 && a.y1 < a.y2
    ensures Iou(a, a) == 1.0
  {
    var w, h := Width(a), Height(a);
    assert DX(a, a) == w && DY(a, a) == h;
    MulPos(w, h);
    var area := Area(a);
    assert InterArea(a, a) == area && area > 0.0;
    assert area + area - area == area;
    assert area / area == 1.0;
  }

  // --------------------------------------------------------------- one step

  /** The library calls of one step: keypoint matching of two grayscale
      composites, RANSAC homography estimation from the keypoints of both
      composites that the good matches pair up, `perspectiveTransform` and
      `boundingRect`. */
  datatype Vision = Vision(knn: (seq<Byte>, seq<Byte>) -> seq<KnnPair>,
                           homography: (seq<Byte>, seq<Byte>, seq<DMatch>) -> Mat3,
                           project: (seq<Point>, Mat3) -> seq<Point>,
                           bound: seq<Point> -> Rect)

  const MinMatchCount: nat := 10

  /** The estimated perspective of the `current` composite onto the
      `reference` one: a homography only with strictly more than
      `MinMatchCount` good matches. */
  function Perspective(current: seq<Byte>, reference: seq<Byte>, good: seq<DMatch>, v: Vision): (p: Mat3)
    ensures |good| <= MinMatchCount ==> p == I
    ensures |good| > MinMatchCount ==> p == v.homography(current, reference, good)
  {
    if |good| > MinMatchCount then v.homography(current, reference, good) else I
  }

  /** The four corners of a `w` by `h` image. */
  function Corners(w: int, h: int): seq<Point>
  {
    [Point(0.0, 0.0), Point(0.0, (h - 1) as real), Point((w - 1) as real, (h - 1) as real), Point((w - 1) as real, 0.0)]
  }

  /** The overlap test of the image frame against its projection by `m`. */
  function FrameIou(m: Mat3, w: int, h: int, v: Vision): real
  {
    var src := Corners(w, h);
    Iou(ToBox(v.bound(src)), ToBox(v.bound(v.project(src, m))))
  }

  /** `M = M @ perspective`, then the identity snap and the IoU reset. */
  function Accumulate(m: Mat3, perspective: Mat3, w: int, h: int, v: Vision): Mat3
  {
    var mp := Mul(m, perspective);
    if DistSqToI(mp) < TolSq then I
    else if FrameIou(mp, w, h, v) < 0.5 then I
    else mp
  }

  /** The step gives the accumulated product, or the identity exactly when the
      product is within the tolerance of it or moves the frame too far. */
  lemma AccumulateSpec(m: Mat3, perspective: Mat3, w: int, h: int, v: Vision)
    ensures var mp := Mul(m, perspective);
      var r := Accumulate(m, perspective, w, h, v);
      && (r == I || r == mp)
      && (r == I <==> DistSqToI(mp) < TolSq || FrameIou(mp, w, h, v) < 0.5)
      && (r != I ==> DistSqToI(r) >= TolSq && FrameIou(r, w, h, v) >= 0.5)
  {
    DistSqToIOfI();
  }

  /** With no more than `MinMatchCount` good matches the transform carries over
      unchanged, unless it is itself snapped or reset. */
  lemma FewMatchesKeep(m: Mat3, current: seq<Byte>, reference: seq<Byte>, good: seq<DMatch>, w: int, h: int, v: Vision)
    requires |good| <= MinMatchCount
    ensures var p := Perspective(current, reference, good, v);
      Accumulate(m, p, w, h, v) == I || Accumulate(m, p, w, h, v) == m
  {
    MulIdentity(m);
  }

  // ------------------------------------------------------------- the worker

  /** What the worker reads from an opened document: its size and grayscale
      composite. */
  datatype Frame = Frame(width: nat, height: nat, gray: seq<Byte>)

  /** What it writes next to it: the finishing size and the transform. */
  datatype Record = Record(number: int, finalWidth: nat, finalHeight: nat, transform: Mat3)

  /** One document aligned against the previous one. */
  function StepTransform(m: Mat3, reference: seq<Byte>, f: Frame, v: Vision): Mat3
  {
    var good := Good(v.knn(f.gray, reference));
    Accumulate(m, Perspective(f.gray, reference, good, v), f.width, f.height, v)
  }

  /** The transforms of the remaining documents, threading `M` and the
      reference composite from one step to the next. */
  function Chain(m: Mat3, reference: seq<Byte>, frames: seq<Frame>, v: Vision): (ms: seq<Mat3>)
    ensures |ms| == |frames|
    decreases |frames|
  {
    if frames == [] then []
    else
      var m' := StepTransform(m, reference, frames[0], v);
      [m'] + Chain(m', frames[0].gray, frames[1..], v)
  }

  /** Every transform of a chain is the identity or passes both tests. */
  lemma {:induction false} ChainPlausible(m: Mat3, reference: seq<Byte>, frames: seq<Frame>, v: Vision)
    ensures forall k :: 0 <= k < |frames| ==>
      var t := Chain(m, reference, frames, v)[k];
      t == I || (DistSqToI(t) >= TolSq && FrameIou(t, frames[k].width, frames[k].height, v) >= 0.5)
    decreases |frames|
  {
    if frames != [] {
      var f := frames[0];
      AccumulateSpec(m, Perspective(f.gray, reference, Good(v.knn(f.gray, reference)), v), f.width, f.height, v);
      var m' := StepTransform(m, reference, f, v);
      ChainPlausible(m', f.gray, frames[1..], v);
      assert forall k :: 1 <= k < |frames| ==> frames[1..][k - 1] == frames[k];
    }
  }

  /** The documents after the newest, in processing order. */
  function Frames(order: seq<int>, open: int -> Frame): (fs: seq<Frame>)
    requires order != []
    ensures |fs| == |order| - 1 && forall k :: 0 <= k < |fs| ==> fs[k] == open(order[k + 1])
  {
    seq(|order| - 1, k requires 0 <= k < |order| - 1 => open(order[k + 1]))
  }

  /** The transform of every document: the identity for the newest, then the chain. */
  function Transforms(order: seq<int>, open: int -> Frame, v: Vision): (ms: seq<Mat3>)
    requires order != []
    ensures |ms| == |order|
  {
    [I] + Chain(I, open(order[0]).gray, Frames(order, open), v)
  }

  /** The records the worker writes, in processing order. */
  function Records(order: seq<int>, open: int -> Frame, v: Vision): (rs: seq<Record>)
    ensures |rs| == |order|
  {
    if order == [] then []
    else
      var ref, ms := open(order[0]), Transforms(order, open, v);
      seq(|order|, k requires 0 <= k < |order| => Record(order[k], ref.width, ref.height, ms[k]))
  }

  /** Unfolding the chain by one step at position `i`. */
  lemma ChainStep(ms: seq<Mat3>, m: Mat3, reference: seq<Byte>, frames: seq<Frame>, v: Vision, i: nat)
    requires 1 <= i < |ms| && |ms| == |frames| + 1
    requires ms[i..] == Chain(m, reference, frames[i - 1..], v)
    ensures ms[i] == StepTransform(m, reference, frames[i - 1], v)
    ensures ms[i + 1..] == Chain(ms[i], frames[i - 1].gray, frames[i..], v)
  {
    assert frames[i - 1..][0] == frames[i - 1] && frames[i - 1..][1..] == frames[i..];
    assert ms[i..][0] == ms[i] && ms[i..][1..] == ms[i + 1..];
  }

  /** One iteration of the worker's loop: with `m` and `reference` the state
      after document `i - 1`, the step of document `i` gives record `i` and
      the state the rest of the chain starts from. */
  lemma WorkerStep(order: seq<int>, open: int -> Frame, v: Vision, i: nat, m: Mat3, reference: seq<Byte>)
    requires 1 <= i < |order|
    requires Transforms(order, open, v)[i..] == Chain(m, reference, Frames(order, open)[i - 1..], v)
    ensures var m' := StepTransform(m, reference, open(order[i]), v);
      && Records(order, open, v)[i] == Record(order[i], open(order[0]).width, open(order[0]).height, m')
      && Transforms(order, open, v)[i + 1..] == Chain(m', open(order[i]).gray, Frames(order, open)[i..], v)
  {
    var frames, ms := Frames(order, open), Transforms(order, open, v);
    ChainStep(ms, m, reference, frames, v, i);
    assert frames[i - 1] == open(order[i]);
  }

  lemma PrefixSnoc<T>(s: seq<T>, i: nat)
    requires i < |s|
    ensures s[..i + 1] == s[..i] + [s[i]]
  {
  }

  /** `dataset_psd2pkl_worker` on the numeric prefixes of one directory's
      files; `open` reads a document. */
  method Worker(files: seq<int>, open: int -> Frame, v: Vision) returns (records: seq<Record>)
    ensures records == Records(NewestFirst(files), open, v)
  {
    if |files| == 0 {
      return [];
    }
    var order := NewestFirst(files);
    var reference := open(order[0]);
    var m := I;
    var finalWidth, finalHeight := reference.width, reference.height;
    var referenceImg := reference.gray;
    records := [Record(order[0], finalWidth, finalHeight, m)];
    var i := 1;
    while i < |order|
      invariant 1 <= i <= |order|
      invariant records == Records(order, open, v)[..i]
      invariant Transforms(order, open, v)[i..] == Chain(m, referenceImg, Frames(order, open)[i - 1..], v)
    {
      WorkerStep(order, open, v, i, m, referenceImg);
      ghost var rs := Records(order, open, v);
      var current := open(order[i]);
      var matches := v.knn(current.gray, referenceImg);
      var good := RatioTest(matches);
      var perspective := Perspective(current.gray, referenceImg, good, v);
      m := Accumulate(m, perspective, current.width, current.height, v);
      referenceImg := current.gray;
      PrefixSnoc(rs, i);
      records := records + [Record(order[i], finalWidth, finalHeight, m)];
      i := i + 1;
    }
    assert Records(order, open, v)[..|order|] == Records(order, open, v);
  }

  /** The first record is the newest document with the identity; every record
      carries the newest document's size; every later transform is the identity
      or passes both tests on its own document's frame. */
  lemma RecordsSpec(files: seq<int>, open: int -> Frame, v: Vision)
    requires files != []
    ensures var order := NewestFirst(files);
      var rs := Records(order, open, v);
      && rs[0].number == order[0] && rs[0].transform == I
      && (forall k :: 0 <= k < |rs| ==>
            (rs[k].number == order[k] && rs[k].finalWidth == open(order[0]).width
             && rs[k].finalHeight == open(order[0]).height))
      && (forall k :: 1 <= k < |rs| ==>
            (rs[k].transform == I
             || (DistSqToI(rs[k].transform) >= TolSq
                 && FrameIou(rs[k].transform, open(order[k]).width, open(order[k]).height, v) >= 0.5)))
  {
    var order := NewestFirst(files);
    RecordsFields(order, open, v);
    RecordsPlausible(order, open, v);
  }

  /** Every record names its document and the reference size, and the newest
      document's record carries the identity. */
  lemma RecordsFields(order: seq<int>, open: int -> Frame, v: Vision)
    requires order != []
    ensures var rs := Records(order, open, v);
      && rs[0].number == order[0] && rs[0].transform == I
      && forall k :: 0 <= k < |rs| ==>
           (rs[k].number == order[k] && rs[k].finalWidth == open(order[0]).width
            && rs[k].finalHeight == open(order[0]).height)
  {
  }

  /** Every record after the first carries the chain's transform for that
      document, hence the identity or one that passes both tests there. */
  lemma RecordsPlausible(order: seq<int>, open: int -> Frame, v: Vision)
    requires order != []
    ensures var rs := Records(order, open, v);
      forall k :: 1 <= k < |rs| ==>
        (rs[k].transform == I
         || (DistSqToI(rs[k].transform) >= TolSq
             && FrameIou(rs[k].transform, open(order[k]).width, open(order[k]).height, v) >= 0.5))
  {
    var frames := Frames(order, open);
    var chain := Chain(I, open(order[0]).gray, frames, v);
    ChainPlausible(I, open(order[0]).gray, frames, v);
    var rs := Records(order, open, v);
    forall k | 1 <= k < |rs|
      ensures rs[k].transform == I
              || (DistSqToI(rs[k].transform) >= TolSq
                  && FrameIou(rs[k].transform, open(order[k]).width, open(order[k]).height, v) >= 0.5)
    {
      assert rs[k].transform == chain[k - 1];
      assert frames[k - 1] == open(order[k]);
    }
  }
}
