/** The content filters that `pil2tensor` applies to the list of float layers
    (`default_post_filter` and `drop_full_post_filter`). */
module Filters {
  import opened Pixels

  /** Sum of the alpha channel. */
  function AlphaSum(img: seq<Px>): real
    decreases |img|
  {
    if img == [] then 0.0 else AlphaSum(img[..|img| - 1]) + img[|img| - 1].a
  }

  /** `np.mean` of the alpha channel. */
  function MeanAlpha(img: seq<Px>): real
    requires |img| > 0
  {
    AlphaSum(img) / (|img| as real)
  }

  /** A float quotient, including what IEEE division by zero gives. */
  datatype Ratio = Finite(value: real) | PosInf | NegInf | NaN

  /** `m / p`: by zero it is an infinity of the sign of `m`, or NaN when `m` is 0. */
  function RatioOf(m: real, p: real): Ratio
  {
    if p != 0.0 then Finite(m / p)
    else if m > 0.0 then PosInf
    else if m < 0.0 then NegInf
    else NaN
  }

  /** `t > c`; every comparison with NaN is false. */
  predicate Above(t: Ratio, c: real)
  {
    t.PosInf? || (t.Finite? && t.value > c)
  }

  /** `t < c`. */
  predicate Below(t: Ratio, c: real)
  {
    t.NegInf? || (t.Finite? && t.value < c)
  }

  const FullRatio: real := 0.95
  const EmptyRatio: real := 0.00001

  /** The test of `drop_full_post_filter` for element `i` of `n`:
      `(t[i] > 0.95 and i > n - 2) or t[i] < 1e-5`. */
  predicate Dropped(t: Ratio, i: int, n: int)
  {
    (Above(t, FullRatio) && i > n - 2) || Below(t, EmptyRatio)
  }

  predicate NonEmptyImages(ts: seq<Tensor>)
  {
    forall k :: 0 <= k < |ts| ==> |ts[k].img| > 0
  }

  /** Which layers survive, given the preview's mean alpha `p`. */
  function KeepFlags(ts: seq<Tensor>, p: real): (keep: seq<bool>)
    requires NonEmptyImages(ts)
    ensures |keep| == |ts|
    ensures forall i :: 0 <= i < |ts| ==> keep[i] == !Dropped(RatioOf(MeanAlpha(ts[i].img), p), i, |ts|)
  {
    seq(|ts|, i requires 0 <= i < |ts| => !Dropped(RatioOf(MeanAlpha(ts[i].img), p), i, |ts|))
  }

  /** `drop_full_post_filter` on values; `np.stack` of an empty list fails. */
  function DropFull(ts: seq<Tensor>, preview: seq<Px>): Result<seq<Tensor>>
    requires NonEmptyImages(ts) && |preview| > 0
  {
    if ts == [] then Err(EmptyLayerList)
    else Ok(Select(ts, KeepFlags(ts, MeanAlpha(preview))))
  }

  /** The result of `drop_full_post_filter` is an order-preserving subsequence
      of its input in which element `i` is missing exactly when its mean alpha
      relative to the preview's is below 1e-5, or above 0.95 and `i` is the LAST
      index (the test `i > n - 2` admits no other), and it fails only on an
      empty list. */
  lemma DropFullSpec(ts: seq<Tensor>, preview: seq<Px>)
    requires NonEmptyImages(ts) && |preview| > 0
    ensures DropFull(ts, preview).Err? <==> ts == []
    ensures DropFull(ts, preview).Ok? ==>
      var out := DropFull(ts, preview).value;
      var idx := SelectedIndices(KeepFlags(ts, MeanAlpha(preview)));
      && Embeds(idx, out, ts)
      && forall i :: 0 <= i < |ts| ==>
           var t := RatioOf(MeanAlpha(ts[i].img), MeanAlpha(preview));
           (i in idx <==> !(Below(t, EmptyRatio) || (i == |ts| - 1 && Above(t, FullRatio))))
  {
    if ts != [] {
      SelectSpec(ts, KeepFlags(ts, MeanAlpha(preview)));
    }
  }

  /** The pluggable filter: `default_post_filter` (identity) or `drop_full_post_filter`. */
  datatype PostFilter = DefaultPostFilter | DropFullPostFilter

  function ApplyFilter(f: PostFilter, ts: seq<Tensor>, preview: seq<Px>): (r: Result<seq<Tensor>>)
    requires NonEmptyImages(ts)
    requires f == DropFullPostFilter ==> |preview| > 0
    ensures f == DefaultPostFilter ==> r == Ok(ts)
    ensures r.Ok? ==> IsSubsequence(r.value, ts)
    ensures r.Err? ==> f == DropFullPostFilter && ts == [] && r.error == EmptyLayerList
  {
    match f
    case DefaultPostFilter =>
      assert Embeds(seq(|ts|, i => i), ts, ts);
      Ok(ts)
    case DropFullPostFilter =>
      DropFullSpec(ts, preview);
      DropFull(ts, preview)
  }

  /** `drop_full_post_filter` on the list of buffers: the buffers whose value
      `DropFull` keeps, in order and not copied. */
  method DropFullPostFilterOf(slots: seq<Slot>, preview: seq<Px>) returns (r: Result<seq<Slot>>)
    requires |preview| > 0 && forall k :: 0 <= k < |slots| ==> slots[k].img.Length > 0
    ensures |slots| == 0 ==> r == Err(EmptyLayerList)
    ensures |slots| > 0 ==> r == Ok(Select(slots, KeepFlags(Contents(slots), MeanAlpha(preview))))
  {
    if |slots| == 0 {
      return Err(EmptyLayerList);
    }
    ghost var keep := KeepFlags(Contents(slots), MeanAlpha(preview));
    var p := MeanAlpha(preview);
    var ret: seq<Slot> := [];
    var i := 0;
    while i < |slots|
      invariant 0 <= i <= |slots|
      invariant ret == Select(slots[..i], keep[..i])
    {
      assert slots[..i + 1][..i] == slots[..i] && keep[..i + 1][..i] == keep[..i];
      var t := RatioOf(MeanAlpha(slots[i].img[..]), p);
      if !Dropped(t, i, |slots|) {
        ret := ret + [slots[i]];
      }
      i := i + 1;
    }
    assert slots[..|slots|] == slots && keep[..|slots|] == keep;
    r := Ok(ret);
  }
}
