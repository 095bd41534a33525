/** `pil2tensor`: 8-bit layer images become float buffers with opacity folded
    into alpha, clipping layers are masked by their parent's alpha, a filter
    drops layers, and pixels hidden under opaque Normal layers are cleared.
    Images here are flat, row-major pixel sequences of one common size. */
module Assembly {
  import opened Pixels
  import opened Filters

  /** One entry of `data['layers']`: `[name, image, opacity, visible, blend_mode, is_clip]`. */
  datatype LayerData = LayerData(name: string, image: seq<Rgba8>, opacity: Byte, visible: bool,
                                 mode: BlendMode, isClip: bool)

  /** A byte divided by 255. */
  function Unit(c: Byte): (u: real)
    ensures 0.0 <= u <= 1.0
    ensures u == 0.0 <==> c == 0
    ensures u == 1.0 <==> c == 255
  {
    c as real / 255.0
  }

  predicate PxInUnit(q: Px)
  {
    InUnit(q.r) && InUnit(q.g) && InUnit(q.b) && InUnit(q.a)
  }

  function ToFloat(q: Rgba8): Px
  {
    Px(Unit(q.r), Unit(q.g), Unit(q.b), Unit(q.a))
  }

  /** `np.array(img).astype(np.float32) / 255.0`. */
  function FloatImage(img: seq<Rgba8>): (f: seq<Px>)
    ensures |f| == |img| && forall p :: 0 <= p < |img| ==> f[p] == ToFloat(img[p])
  {
    seq(|img|, p requires 0 <= p < |img| => ToFloat(img[p]))
  }

  /** One pixel of `img[:, :, 3] *= opacity / 255.0`. */
  function Faded(q: Px, opacity: Byte): Px
  {
    q.(a := q.a * Unit(opacity))
  }

  function WithOpacity(img: seq<Px>, opacity: Byte): (r: seq<Px>)
    ensures |r| == |img| && forall p :: 0 <= p < |img| ==> r[p] == Faded(img[p], opacity)
  {
    seq(|img|, p requires 0 <= p < |img| => Faded(img[p], opacity))
  }

  /** The float image of a layer that survives the first pass. */
  function Normalized(l: LayerData): seq<Px>
  {
    WithOpacity(FloatImage(l.image), l.opacity)
  }

  /** Normalisation gives channels in [0, 1], leaves colour untouched, never
      raises alpha, and makes alpha 0 exactly where the byte alpha is 0 or the
      layer's opacity is 0, and 1 exactly where both are 255. */
  lemma NormalizedPixel(l: LayerData, p: int)
    requires 0 <= p < |l.image|
    ensures |Normalized(l)| == |l.image|
    ensures PxInUnit(Normalized(l)[p])
    ensures Normalized(l)[p].r == Unit(l.image[p].r) && Normalized(l)[p].g == Unit(l.image[p].g)
            && Normalized(l)[p].b == Unit(l.image[p].b)
    ensures Normalized(l)[p].a <= Unit(l.image[p].a)
    ensures Normalized(l)[p].a == 0.0 <==> (l.image[p].a == 0 || l.opacity == 0)
    ensures Normalized(l)[p].a == 1.0 <==> (l.image[p].a == 255 && l.opacity == 255)
  {
    var x, y := Unit(l.image[p].a), Unit(l.opacity);
    UnitProduct(x, y, Normalized(l)[p].a);
  }

  /** A product `z` of two values in [0, 1] lies below both, is 0 iff one of
      them is, and is 1 iff both are. */
  lemma UnitProduct(x: real, y: real, z: real)
    requires InUnit(x) && InUnit(y) && z == x * y
    ensures 0.0 <= z <= x && z <= y
    ensures z == 0.0 <==> (x == 0.0 || y == 0.0)
    ensures z == 1.0 <==> (x == 1.0 && y == 1.0)
  {
    assert x * y <= x * 1.0;
    assert x * y <= 1.0 * y;
    if x > 0.0 && y > 0.0 {
      assert x * y > 0.0 * y;
    }
    if x < 1.0 {
      assert x * y < 1.0;
    }
  }

  /** The first pass keeps a layer iff `getbbox()` is not None, its opacity is
      positive and it is visible. */
  predicate Survives(l: LayerData)
  {
    !NoAlphaBox(l.image) && l.opacity > 0 && l.visible
  }

  /** A surviving layer on the way through the clip pass. */
  datatype Entry = Entry(img: seq<Px>, mode: BlendMode, isClip: bool)

  function EntryOf(l: LayerData): Entry
  {
    Entry(Normalized(l), l.mode, l.isClip)
  }

  function Entries(ls: seq<LayerData>): (es: seq<Entry>)
    ensures |es| == |ls| && forall i :: 0 <= i < |ls| ==> es[i] == EntryOf(ls[i])
  {
    seq(|ls|, i requires 0 <= i < |ls| => EntryOf(ls[i]))
  }

  function Flags(ls: seq<LayerData>): (f: seq<bool>)
    ensures |f| == |ls| && forall i :: 0 <= i < |ls| ==> f[i] == Survives(ls[i])
  {
    seq(|ls|, i requires 0 <= i < |ls| => Survives(ls[i]))
  }

  predicate SameSize(ls: seq<LayerData>, n: nat)
  {
    forall i :: 0 <= i < |ls| ==> |ls[i].image| == n
  }

  /** The layers that reach the clip pass, in order; they are non-empty. */
  function Kept(ls: seq<LayerData>, n: nat): (es: seq<Entry>)
    requires SameSize(ls, n)
    ensures forall k :: 0 <= k < |es| ==> |es[k].img| == n
    ensures |es| > 0 ==> n > 0
    decreases |ls|
  {
    if ls == [] then []
    else
      var m := |ls| - 1;
      assert SameSize(ls[..m], n);
      Kept(ls[..m], n) + (if Survives(ls[m]) then [EntryOf(ls[m])] else [])
  }

  /** The kept list is the selection of the surviving layers' entries. */
  lemma {:induction false} KeptIsSelect(ls: seq<LayerData>, n: nat)
    requires SameSize(ls, n)
    ensures Kept(ls, n) == Select(Entries(ls), Flags(ls))
    decreases |ls|
  {
    if ls != [] {
      var m := |ls| - 1;
      assert SameSize(ls[..m], n);
      KeptIsSelect(ls[..m], n);
      assert Entries(ls)[..m] == Entries(ls[..m]);
      assert Flags(ls)[..m] == Flags(ls[..m]);
    }
  }

  /** Exactly the surviving layers reach the clip pass, in their order. */
  lemma KeptSpec(ls: seq<LayerData>, n: nat)
    requires SameSize(ls, n)
    ensures var idx := SelectedIndices(Flags(ls));
      && |idx| == |Kept(ls, n)|
      && (forall j :: 0 <= j < |idx| ==> idx[j] < |ls| && Kept(ls, n)[j] == EntryOf(ls[idx[j]]))
      && (forall j, j' :: 0 <= j < j' < |idx| ==> idx[j] < idx[j'])
      && (forall i :: 0 <= i < |ls| ==> (i in idx <==> Survives(ls[i])))
  {
    KeptIsSelect(ls, n);
    SelectSpec(Entries(ls), Flags(ls));
  }

  /** One more layer extends the kept list by its entry iff it survives. */
  lemma KeptStep(ls: seq<LayerData>, i: nat, n: nat)
    requires i < |ls| && SameSize(ls, n)
    ensures SameSize(ls[..i], n) && SameSize(ls[..i + 1], n)
    ensures Kept(ls[..i + 1], n) == Kept(ls[..i], n) + (if Survives(ls[i]) then [EntryOf(ls[i])] else [])
  {
    assert ls[..i + 1][..i] == ls[..i];
  }

  // ---------------------------------------------------------------- clipping

  /** One pixel of `img[:, :, 3] *= parent[:, :, 3]; img[img[:, :, 3] == 0] = 0`. */
  function ClippedPixel(q: Px, parentAlpha: real): (c: Px)
    ensures c.a == q.a * parentAlpha
    ensures c.a == 0.0 ==> c == ClearPx
    ensures c.a != 0.0 ==> c == q.(a := q.a * parentAlpha)
  {
    var a := q.a * parentAlpha;
    if a == 0.0 then ClearPx else q.(a := a)
  }

  function ClipTo(img: seq<Px>, parent: seq<Px>): (r: seq<Px>)
    requires |parent| == |img|
    ensures |r| == |img| && forall p :: 0 <= p < |img| ==> r[p] == ClippedPixel(img[p], parent[p].a)
  {
    seq(|img|, p requires 0 <= p < |img| => ClippedPixel(img[p], parent[p].a))
  }

  /** The clip pass's state: `layer_tensors` so far and `cur_layer_img`. */
  datatype ClipState = ClipState(out: seq<Tensor>, cur: Option<seq<Px>>)

  /** One iteration of the clip pass. A clip with no current parent becomes its
      own parent; `cur_layer_img` then aliases the clip's buffer and holds the
      clipped image afterwards. */
  function ClipStep(st: ClipState, e: Entry): ClipState
    requires st.cur.Some? ==> |st.cur.value| == |e.img|
  {
    var parent := if st.cur.None? || !e.isClip then e.img else st.cur.value;
    var img := if e.isClip then ClipTo(e.img, parent) else e.img;
    ClipState(st.out + [Tensor(img, e.mode)],
              Some(if st.cur.None? || !e.isClip then img else parent))
  }

  predicate EntriesSized(es: seq<Entry>, n: nat)
  {
    forall k :: 0 <= k < |es| ==> |es[k].img| == n
  }

  /** The whole clip pass. */
  function Resolve(es: seq<Entry>, n: nat): (st: ClipState)
    requires EntriesSized(es, n)
    ensures |st.out| == |es|
    ensures forall k :: 0 <= k < |es| ==> |st.out[k].img| == n && st.out[k].mode == es[k].mode
    ensures st.cur.None? <==> es == []
    ensures st.cur.Some? ==> |st.cur.value| == n
    decreases |es|
  {
    if es == [] then ClipState([], None)
    else
      var m := |es| - 1;
      assert EntriesSized(es[..m], n);
      ClipStep(Resolve(es[..m], n), es[m])
  }

  /** The index of the last non-clip entry, or -1 when there is none. */
  function LastParent(es: seq<Entry>): (j: int)
    ensures -1 <= j < |es|
    ensures j >= 0 ==> !es[j].isClip
    ensures forall k :: j < k < |es| ==> es[k].isClip
    decreases |es|
  {
    if es == [] then -1
    else if !es[|es| - 1].isClip then |es| - 1
    else LastParent(es[..|es| - 1])
  }

  /** The image a clip entered after the entries `es` is masked by: the last
      non-clip entry's image, or, when every entry so far is a clip, the first
      clip's image clipped by itself. */
  function ParentImage(es: seq<Entry>): seq<Px>
    requires es != []
  {
    if LastParent(es) >= 0 then es[LastParent(es)].img else ClipTo(es[0].img, es[0].img)
  }

  /** `cur_layer_img` after the pass is the parent image the next clip would use. */
  lemma {:induction false} ResolveCur(es: seq<Entry>, n: nat)
    requires EntriesSized(es, n) && es != []
    ensures |es[0].img| == n
    ensures Resolve(es, n).cur == Some(ParentImage(es))
    decreases |es|
  {
    var m := |es| - 1;
    assert EntriesSized(es[..m], n);
    if m > 0 {
      ResolveCur(es[..m], n);
      assert es[..m][0] == es[0];
      if es[m].isClip {
        assert LastParent(es) == LastParent(es[..m]);
        if LastParent(es) >= 0 {
          assert es[..m][LastParent(es)] == es[LastParent(es)];
        }
      }
    }
  }

  /** The clip pass on a prefix is a prefix of the clip pass. */
  lemma {:induction false} ResolvePrefix(es: seq<Entry>, m: nat, n: nat)
    requires EntriesSized(es, n) && m <= |es|
    ensures EntriesSized(es[..m], n)
    ensures Resolve(es[..m], n).out == Resolve(es, n).out[..m]
    decreases |es|
  {
    if m < |es| {
      var l := |es| - 1;
      ResolveSnoc(es, n);
      ResolvePrefix(es[..l], m, n);
      SlicePrefix(es, l, m);
      SnocPrefix(Resolve(es[..l], n).out, Resolve(es, n).out[l], m);
    } else {
      assert es[..m] == es;
    }
  }

  /** The clip pass appends one tensor per entry. */
  lemma ResolveSnoc(es: seq<Entry>, n: nat)
    requires EntriesSized(es, n) && es != []
    ensures EntriesSized(es[..|es| - 1], n)
    ensures Resolve(es, n).out == Resolve(es[..|es| - 1], n).out + [Resolve(es, n).out[|es| - 1]]
  {
    assert EntriesSized(es[..|es| - 1], n);
  }

  lemma SlicePrefix<T>(s: seq<T>, l: nat, m: nat)
    requires m <= l <= |s|
    ensures s[..l][..m] == s[..m]
  {
  }

  lemma SnocPrefix<T>(a: seq<T>, x: T, m: nat)
    requires m <= |a|
    ensures (a + [x])[..m] == a[..m]
  {
  }

  /** What the clip pass makes of entry `k`: a non-clip image as it is; a
      clip masked by the alpha of the last non-clip entry before it; a clip
      with no such entry masked by the first leading clip's self-clipped
      image, and the first clip by itself. */
  function ClippedImage(es: seq<Entry>, n: nat, k: nat): seq<Px>
    requires EntriesSized(es, n) && k < |es|
  {
    if !es[k].isClip then es[k].img
    else if k == 0 then ClipTo(es[0].img, es[0].img)
    else
      assert EntriesSized(es[..k], n) && es[..k][0] == es[0];
      ResolveCur(es[..k], n);
      ClipTo(es[k].img, ParentImage(es[..k]))
  }

  /** Every entry comes out of the clip pass as `ClippedImage` says. */
  lemma ResolveSpec(es: seq<Entry>, n: nat, k: nat)
    requires EntriesSized(es, n) && k < |es|
    ensures Resolve(es, n).out[k].img == ClippedImage(es, n, k)
  {
    var p := es[..k + 1];
    ResolvePrefix(es, k + 1, n);
    ResolveLast(p, n);
    assert p[..k] == es[..k] && p[k] == es[k] && p[0] == es[0];
    assert ClippedImage(p, n, k) == ClippedImage(es, n, k);
    var whole, part := Resolve(es, n).out, Resolve(p, n).out;
    assert part == whole[..k + 1];
    assert part[k] == whole[k];
  }

  /** The last entry's image after the clip pass. */
  lemma ResolveLast(es: seq<Entry>, n: nat)
    requires EntriesSized(es, n) && es != []
    ensures Resolve(es, n).out[|es| - 1].img == ClippedImage(es, n, |es| - 1)
  {
    var k := |es| - 1;
    assert EntriesSized(es[..k], n);
    if k > 0 {
      ResolveCur(es[..k], n);
      assert es[..k][0] == es[0];
    }
  }

  /** A clipped pixel whose alpha comes out 0 is cleared entirely, and a
      pixel where the parent is transparent is always cleared. */
  lemma ClipClears(img: seq<Px>, parent: seq<Px>, p: int)
    requires |parent| == |img| && 0 <= p < |img|
    ensures ClipTo(img, parent)[p].a == 0.0 ==> ClipTo(img, parent)[p] == ClearPx
    ensures parent[p].a == 0.0 ==> ClipTo(img, parent)[p] == ClearPx
    ensures img[p].a != 0.0 && parent[p].a != 0.0 ==>
      ClipTo(img, parent)[p] == img[p].(a := img[p].a * parent[p].a)
  {
  }

  // --------------------------------------------------------------- occlusion

  /** `img[mask == 1] = 0`. */
  function Cover(img: seq<Px>, mask: seq<bool>): (r: seq<Px>)
    requires |mask| == |img|
    ensures |r| == |img| && forall p :: 0 <= p < |img| ==> r[p] == if mask[p] then ClearPx else img[p]
  {
    seq(|img|, p requires 0 <= p < |img| => if mask[p] then ClearPx else img[p])
  }

  /** `mask[img[:, :, 3] == 1] = 1`. */
  function Mark(img: seq<Px>, mask: seq<bool>): (m: seq<bool>)
    requires |mask| == |img|
    ensures |m| == |mask| && forall p :: 0 <= p < |mask| ==> (m[p] <==> mask[p] || img[p].a == 1.0)
  {
    seq(|mask|, p requires 0 <= p < |mask| => mask[p] || img[p].a == 1.0)
  }

  predicate TensorsSized(ts: seq<Tensor>, n: nat)
  {
    forall k :: 0 <= k < |ts| ==> |ts[k].img| == n
  }

  /** The occlusion pass from the top layer down, starting from `mask`. */
  function Occlude(ts: seq<Tensor>, mask: seq<bool>): (r: seq<Tensor>)
    requires TensorsSized(ts, |mask|)
    ensures |r| == |ts| && TensorsSized(r, |mask|)
    ensures forall k :: 0 <= k < |ts| ==> r[k].mode == ts[k].mode
    decreases |ts|
  {
    if ts == [] then []
    else
      var m := |ts| - 1;
      assert TensorsSized(ts[..m], |mask|);
      if ts[m].mode != Normal then Occlude(ts[..m], mask) + [ts[m]]
      else
        var c := Cover(ts[m].img, mask);
        Occlude(ts[..m], Mark(c, mask)) + [Tensor(c, Normal)]
  }

  /** Some Normal layer above layer `k` is fully opaque at pixel `p`. */
  ghost predicate CoveredAbove(ts: seq<Tensor>, k: int, p: int)
    requires forall j :: 0 <= j < |ts| ==> 0 <= p < |ts[j].img|
  {
    exists j :: 0 <= j < |ts| && k < j && ts[j].mode == Normal && ts[j].img[p].a == 1.0
  }

  /** The mask after layer `|ts| - 1` is handled, together with what lies above
      layer `k` below it, covers pixel `p` iff the mask before together with
      what lies above layer `k` does. */
  lemma CoveredStep(ts: seq<Tensor>, mask: seq<bool>, k: int, p: int)
    requires TensorsSized(ts, |mask|) && 0 <= k < |ts| - 1 && 0 <= p < |mask|
    ensures TensorsSized(ts[..|ts| - 1], |mask|)
    ensures var m := |ts| - 1;
      var mask' := if ts[m].mode != Normal then mask else Mark(Cover(ts[m].img, mask), mask);
      (mask'[p] || CoveredAbove(ts[..m], k, p)) <==> (mask[p] || CoveredAbove(ts, k, p))
  {
    var m := |ts| - 1;
    assert TensorsSized(ts[..m], |mask|);
    var mask' := if ts[m].mode != Normal then mask else Mark(Cover(ts[m].img, mask), mask);
    if CoveredAbove(ts[..m], k, p) {
      var j :| 0 <= j < m && k < j && ts[..m][j].mode == Normal && ts[..m][j].img[p].a == 1.0;
      assert ts[j] == ts[..m][j];
    }
    if CoveredAbove(ts, k, p) {
      var j :| 0 <= j < |ts| && k < j && ts[j].mode == Normal && ts[j].img[p].a == 1.0;
      if j < m {
        assert ts[..m][j] == ts[j];
        assert CoveredAbove(ts[..m], k, p);
      } else {
        assert mask'[p];
      }
    }
    if ts[m].mode == Normal && ts[m].img[p].a == 1.0 {
      assert CoveredAbove(ts, k, p);
    }
  }

  /** The occlusion pass clears pixel `p` of layer `k` exactly when the layer is
      Normal and the mask was already set or some Normal layer above it has
      alpha exactly 1 there; every other pixel, and every non-Normal layer, is
      left as it is. */
  lemma {:induction false} OccludeSpec(ts: seq<Tensor>, mask: seq<bool>, k: int, p: int)
    requires TensorsSized(ts, |mask|) && 0 <= k < |ts| && 0 <= p < |mask|
    ensures Occlude(ts, mask)[k].img[p] ==
      if ts[k].mode == Normal && (mask[p] || CoveredAbove(ts, k, p)) then ClearPx else ts[k].img[p]
    decreases |ts|
  {
    var m := |ts| - 1;
    assert TensorsSized(ts[..m], |mask|);
    if k < m {
      var mask' := if ts[m].mode != Normal then mask else Mark(Cover(ts[m].img, mask), mask);
      OccludeSpec(ts[..m], mask', k, p);
      CoveredStep(ts, mask, k, p);
      assert ts[..m][k] == ts[k];
      assert Occlude(ts, mask)[k] == Occlude(ts[..m], mask')[k];
    } else {
      assert !CoveredAbove(ts, k, p);
    }
  }

  /** A non-Normal layer comes through the occlusion pass unchanged. */
  lemma OccludeKeepsOtherModes(ts: seq<Tensor>, mask: seq<bool>, k: int)
    requires TensorsSized(ts, |mask|) && 0 <= k < |ts| && ts[k].mode != Normal
    ensures Occlude(ts, mask)[k] == ts[k]
  {
    forall p | 0 <= p < |mask| ensures Occlude(ts, mask)[k].img[p] == ts[k].img[p] {
      OccludeSpec(ts, mask, k, p);
    }
  }

  /** The top layer is never occluded by an empty mask. */
  lemma OccludeKeepsTop(ts: seq<Tensor>, n: nat)
    requires TensorsSized(ts, n) && ts != []
    ensures Occlude(ts, NoMask(n))[|ts| - 1] == ts[|ts| - 1]
  {
    var m := |ts| - 1;
    forall p | 0 <= p < n ensures Occlude(ts, NoMask(n))[m].img[p] == ts[m].img[p] {
      OccludeSpec(ts, NoMask(n), m, p);
    }
  }

  /** `np.zeros((h, w), dtype=np.uint8)` as a boolean mask. */
  function NoMask(n: nat): (m: seq<bool>)
    ensures |m| == n && forall p :: 0 <= p < n ==> !m[p]
  {
    seq(n, _ => false)
  }

  // ----------------------------------------------------------------- summary

  /** What `pil2tensor` returns as its layer list, on values. */
  function Assemble(ls: seq<LayerData>, preview: seq<Rgba8>, filter: PostFilter,
                    removeOccluded: bool, n: nat): Result<seq<Tensor>>
    requires SameSize(ls, n)
    requires filter == DropFullPostFilter ==> |preview| > 0
  {
    var es := Kept(ls, n);
    var ts := Resolve(es, n).out;
    assert NonEmptyImages(ts);
    match ApplyFilter(filter, ts, FloatImage(preview))
    case Err(e) => Err(e)
    case Ok(kept) =>
      assert forall k :: 0 <= k < |kept| ==> kept[k] in ts;
      OcclusionStep(kept, removeOccluded)
  }

  /** Without a filter or occlusion pass the result is the clip pass's list. */
  lemma AssembleUnfiltered(ls: seq<LayerData>, preview: seq<Rgba8>, n: nat)
    requires SameSize(ls, n)
    ensures Assemble(ls, preview, DefaultPostFilter, false, n) == Ok(Resolve(Kept(ls, n), n).out)
  {
  }

  /** With a filter that needs a layer, or the occlusion pass, the loader fails
      with an empty-list error when no layer survives the first pass. */
  lemma AssembleNothingSurvives(ls: seq<LayerData>, preview: seq<Rgba8>, filter: PostFilter,
                                removeOccluded: bool, n: nat)
    requires SameSize(ls, n)
    requires filter == DropFullPostFilter ==> |preview| > 0
    requires filter == DropFullPostFilter || removeOccluded
    requires forall i :: 0 <= i < |ls| ==> !Survives(ls[i])
    ensures Assemble(ls, preview, filter, removeOccluded, n) == Err(EmptyLayerList)
  {
    KeptIsSelect(ls, n);
    SelectNone(Entries(ls), Flags(ls));
  }

  /** Every failure is an empty-list error, and any result is made of images
      of the common size and is no longer than the list of surviving layers. */
  lemma AssembleShape(ls: seq<LayerData>, preview: seq<Rgba8>, filter: PostFilter,
                      removeOccluded: bool, n: nat)
    requires SameSize(ls, n)
    requires filter == DropFullPostFilter ==> |preview| > 0
    ensures var r := Assemble(ls, preview, filter, removeOccluded, n);
      && (r.Err? ==> r.error == EmptyLayerList)
      && (r.Ok? ==> TensorsSized(r.value, n) && |r.value| <= |Kept(ls, n)|)
  {
    var ts := Resolve(Kept(ls, n), n).out;
    assert TensorsSized(ts, n);
    var f := ApplyFilter(filter, ts, FloatImage(preview));
    if f.Ok? {
      SubsequenceShape(f.value, ts, n);
      OcclusionShape(f.value, removeOccluded, n);
    }
  }

  /** A subsequence of same-size images has that size and is no longer. */
  lemma SubsequenceShape(sub: seq<Tensor>, ts: seq<Tensor>, n: nat)
    requires IsSubsequence(sub, ts) && TensorsSized(ts, n)
    ensures TensorsSized(sub, n) && |sub| <= |ts|
  {
    var w :| Embeds(w, sub, ts);
    EmbedsLength(w, sub, ts);
    assert forall k :: 0 <= k < |sub| ==> sub[k] == ts[w[k]];
  }

  /** The occlusion step fails only on an empty list, and keeps length and size. */
  lemma OcclusionShape(kept: seq<Tensor>, removeOccluded: bool, n: nat)
    requires TensorsSized(kept, n)
    ensures SameShape(kept)
    ensures var r := OcclusionStep(kept, removeOccluded);
      && (r.Err? ==> r.error == EmptyLayerList && kept == [])
      && (r.Ok? ==> TensorsSized(r.value, n) && |r.value| == |kept|)
  {
  }

  /** An increasing embedding is no longer than the sequence it embeds into. */
  lemma {:induction false} EmbedsLength<T>(idx: seq<nat>, sub: seq<T>, sup: seq<T>)
    requires Embeds(idx, sub, sup)
    ensures |sub| <= |sup|
    decreases |idx|
  {
    if |idx| > 0 {
      var m := |idx| - 1;
      assert Embeds(idx[..m], sub[..m], sup[..idx[m]]) by {
        forall j | 0 <= j < m ensures idx[..m][j] < idx[m] {
          assert idx[j] < idx[m];
        }
      }
      EmbedsLength(idx[..m], sub[..m], sup[..idx[m]]);
    }
  }

  // ---------------------------------------------------------- on the buffers

  /** The first pass on one surviving layer: a fresh float buffer. */
  method ToFloatArray(img: seq<Rgba8>) returns (a: array<Px>)
    ensures fresh(a) && a[..] == FloatImage(img)
  {
    a := new Px[|img|](p requires 0 <= p < |img| => ToFloat(img[p]));
  }

  /** `img[:, :, 3] *= opacity / 255.0`, in place. */
  method ScaleAlpha(img: array<Px>, opacity: Byte)
    modifies img
    ensures img[..] == WithOpacity(old(img[..]), opacity)
  {
    ghost var before := img[..];
    forall p | 0 <= p < img.Length {
      img[p] := Faded(img[p], opacity);
    }
    assert forall p :: 0 <= p < img.Length ==> img[..][p] == Faded(before[p], opacity);
  }

  /** The clip step on a buffer, in place; `parent` may be `img` itself. */
  method ClipLayer(img: array<Px>, parent: array<Px>)
    requires parent.Length == img.Length
    modifies img
    ensures img[..] == ClipTo(old(img[..]), old(parent[..]))
  {
    ghost var before, par := img[..], parent[..];
    forall p | 0 <= p < img.Length {
      img[p] := img[p].(a := img[p].a * parent[p].a);
    }
    assert forall p :: 0 <= p < img.Length ==> img[p] == before[p].(a := before[p].a * par[p].a);
    forall p | 0 <= p < img.Length && img[p].a == 0.0 {
      img[p] := ClearPx;
    }
    assert forall p :: 0 <= p < img.Length ==> img[..][p] == ClippedPixel(before[p], par[p].a);
  }

  /** The body of the occlusion loop for one Normal layer, in place. */
  method OccludeLayer(img: array<Px>, mask: array<bool>)
    requires img.Length == mask.Length
    modifies img, mask
    ensures img[..] == Cover(old(img[..]), old(mask[..]))
    ensures mask[..] == Mark(img[..], old(mask[..]))
  {
    forall p | 0 <= p < img.Length && mask[p] {
      img[p] := ClearPx;
    }
    forall p | 0 <= p < mask.Length && img[p].a == 1.0 {
      mask[p] := true;
    }
  }

  /** What the occlusion loop keeps true with `k` layers still to visit:
      the layers above hold their final values, those below are untouched,
      and the mask is what the pass has marked so far. */
  ghost predicate OccludeLoopInv(slots: seq<Slot>, T: seq<Tensor>, mask: array<bool>, k: nat)
    requires |T| == |slots| && TensorsSized(T, mask.Length) && k <= |slots|
    reads Buffers(slots), mask
  {
    assert TensorsSized(T[..k], mask.Length);
    && Occlude(T, NoMask(mask.Length))[..k] == Occlude(T[..k], mask[..])
    && (forall j :: k <= j < |slots| ==> slots[j].img[..] == Occlude(T, NoMask(mask.Length))[j].img)
    && (forall j :: 0 <= j < k ==> slots[j].img[..] == T[j].img)
  }

  /** Peeling the layer below the first `k + 1` off the occlusion pass. */
  lemma OccludeStep(T: seq<Tensor>, k: nat, mask: seq<bool>)
    requires TensorsSized(T, |mask|) && k < |T|
    ensures TensorsSized(T[..k], |mask|) && TensorsSized(T[..k + 1], |mask|)
    ensures T[k].mode != Normal ==> Occlude(T[..k + 1], mask) == Occlude(T[..k], mask) + [T[k]]
    ensures T[k].mode == Normal ==>
      Occlude(T[..k + 1], mask) == Occlude(T[..k], Mark(Cover(T[k].img, mask), mask)) + [Tensor(Cover(T[k].img, mask), Normal)]
  {
    assert T[..k + 1][..k] == T[..k] && T[..k + 1][k] == T[k];
    assert TensorsSized(T[..k], |mask|) && TensorsSized(T[..k + 1], |mask|);
  }

  /** The body of the occlusion loop for layer `k`. */
  method VisitOccluded(slots: seq<Slot>, mask: array<bool>, k: nat, ghost T: seq<Tensor>)
    requires |T| == |slots| && TensorsSized(T, mask.Length) && k < |slots|
    requires Distinct(slots)
    requires forall j :: 0 <= j < |slots| ==> T[j].mode == slots[j].mode
    requires OccludeLoopInv(slots, T, mask, k + 1)
    modifies slots[k].img, mask
    ensures OccludeLoopInv(slots, T, mask, k)
  {
    ghost var R := Occlude(T, NoMask(mask.Length));
    ghost var mask0 := mask[..];
    OccludeStep(T, k, mask0);
    assert R[..k + 1][..k] == R[..k] && R[..k + 1][k] == R[k];
    if slots[k].mode != Normal {
      return;
    }
    OccludeLayer(slots[k].img, mask);
    assert forall j :: 0 <= j < |slots| && j != k ==> slots[j].img != slots[k].img;
  }

  /** The `remove_occluded` pass over the buffers, top layer first. */
  method RemoveOccluded(slots: seq<Slot>)
    requires |slots| > 0 && Distinct(slots) && Sized(slots, slots[0].img.Length)
    modifies Buffers(slots)
    ensures TensorsSized(old(Contents(slots)), slots[0].img.Length)
    ensures Contents(slots) == Occlude(old(Contents(slots)), NoMask(slots[0].img.Length))
  {
    var n := slots[0].img.Length;
    ghost var T := Contents(slots);
    assert TensorsSized(T, n);
    var mask := new bool[n](_ => false);
    assert mask[..] == NoMask(n);
    var k := |slots|;
    OccludeLoopEntry(slots, T, mask);
    while k > 0
      invariant 0 <= k <= |slots| && mask.Length == n
      invariant OccludeLoopInv(slots, T, mask, k)
      decreases k
    {
      k := k - 1;
      VisitOccluded(slots, mask, k, T);
    }
    OccludeLoopExit(slots, T, mask);
  }

  lemma OccludeLoopEntry(slots: seq<Slot>, T: seq<Tensor>, mask: array<bool>)
    requires T == Contents(slots) && TensorsSized(T, mask.Length) && mask[..] == NoMask(mask.Length)
    ensures OccludeLoopInv(slots, T, mask, |slots|)
  {
    assert T[..|slots|] == T;
  }

  lemma OccludeLoopExit(slots: seq<Slot>, T: seq<Tensor>, mask: array<bool>)
    requires |T| == |slots| && TensorsSized(T, mask.Length)
    requires forall j :: 0 <= j < |slots| ==> T[j].mode == slots[j].mode
    requires OccludeLoopInv(slots, T, mask, 0)
    ensures Contents(slots) == Occlude(T, NoMask(mask.Length))
  {
    var R := Occlude(T, NoMask(mask.Length));
    forall j | 0 <= j < |slots| ensures Contents(slots)[j] == R[j] {
      assert slots[j].img[..] == R[j].img;
    }
  }

  /** The first pass on values: the entry of every surviving layer, None for
      the others (`layers[i][1] = None`). */
  function FirstPass(ls: seq<LayerData>): (vs: seq<Option<Entry>>)
    ensures |vs| == |ls|
    ensures forall j :: 0 <= j < |ls| ==> vs[j] == if Survives(ls[j]) then Some(EntryOf(ls[j])) else None
  {
    seq(|ls|, j requires 0 <= j < |ls| => if Survives(ls[j]) then Some(EntryOf(ls[j])) else None)
  }

  predicate OptSized(vs: seq<Option<Entry>>, n: nat)
  {
    forall j :: 0 <= j < |vs| && vs[j].Some? ==> |vs[j].value.img| == n
  }

  /** The entries that are present, in order (the `if img is None: continue`). */
  function Present(vs: seq<Option<Entry>>, n: nat): (es: seq<Entry>)
    requires OptSized(vs, n)
    ensures EntriesSized(es, n)
    decreases |vs|
  {
    if vs == [] then []
    else
      var m := |vs| - 1;
      assert OptSized(vs[..m], n);
      Present(vs[..m], n) + (if vs[m].Some? then [vs[m].value] else [])
  }

  /** Dropping the None entries of the first pass gives the kept list. */
  lemma {:induction false} PresentIsKept(ls: seq<LayerData>, n: nat)
    requires SameSize(ls, n)
    ensures OptSized(FirstPass(ls), n)
    ensures Present(FirstPass(ls), n) == Kept(ls, n)
    decreases |ls|
  {
    if ls != [] {
      var m := |ls| - 1;
      assert SameSize(ls[..m], n);
      PresentIsKept(ls[..m], n);
      assert FirstPass(ls)[..m] == FirstPass(ls[..m]);
    }
  }

  /** The buffers of the first pass: one for each present entry, of the common
      size, none shared. */
  predicate FirstPassShape(imgs: seq<Option<array<Px>>>, vs: seq<Option<Entry>>, n: nat)
  {
    && |imgs| == |vs|
    && (forall j :: 0 <= j < |vs| ==> (imgs[j].Some? <==> vs[j].Some?))
    && (forall j :: 0 <= j < |vs| && imgs[j].Some? ==> imgs[j].value.Length == n)
    && (forall j, j' :: 0 <= j < j' < |vs| && imgs[j].Some? && imgs[j'].Some? ==>
          imgs[j].value != imgs[j'].value)
  }

  function BufferSet(imgs: seq<Option<array<Px>>>): set<array<Px>>
  {
    set j | 0 <= j < |imgs| && imgs[j].Some? :: imgs[j].value
  }

  /** The first loop of `pil2tensor`: a fresh normalised buffer for every
      surviving layer, None for the others. */
  method NormalizeLayers(ls: seq<LayerData>, ghost n: nat) returns (imgs: seq<Option<array<Px>>>)
    requires SameSize(ls, n)
    ensures FirstPassShape(imgs, FirstPass(ls), n)
    ensures forall j :: 0 <= j < |ls| && imgs[j].Some? ==>
              fresh(imgs[j].value) && imgs[j].value[..] == FirstPass(ls)[j].value.img
  {
    imgs := [];
    var i := 0;
    while i < |ls|
      invariant 0 <= i <= |ls| && |imgs| == i
      invariant forall j :: 0 <= j < i ==> (imgs[j].Some? <==> Survives(ls[j]))
      invariant forall j :: 0 <= j < i && imgs[j].Some? ==>
                  && imgs[j].value.Length == n && fresh(imgs[j].value)
                  && imgs[j].value[..] == Normalized(ls[j])
      invariant forall j, j' :: 0 <= j < j' < i && imgs[j].Some? && imgs[j'].Some? ==>
                  imgs[j].value != imgs[j'].value
    {
      if Survives(ls[i]) {
        var a := NormalizeLayer(ls[i]);
        imgs := imgs + [Some(a)];
      } else {
        imgs := imgs + [None];
      }
      i := i + 1;
    }
  }

  /** One surviving layer's fresh float buffer with opacity folded into alpha. */
  method NormalizeLayer(l: LayerData) returns (a: array<Px>)
    ensures fresh(a) && a[..] == Normalized(l)
  {
    a := ToFloatArray(l.image);
    ScaleAlpha(a, l.opacity);
  }

  /** One iteration of the second loop on a present entry's buffer `img`:
      it does to the buffers what `ClipStep` does to the values, appends the
      layer to `layer_tensors` and returns the new `cur_layer_img`. */
  method ClipInto(out: seq<Slot>, img: array<Px>, cur: Option<array<Px>>, isClip: bool,
                  mode: BlendMode, ghost st: ClipState)
    returns (out': seq<Slot>, next: Option<array<Px>>)
    requires img !in Buffers(out) && Contents(out) == st.out
    requires st.cur.None? <==> cur.None?
    requires cur.Some? ==> cur.value != img && cur.value[..] == st.cur.value
    requires cur.Some? ==> cur.value.Length == img.Length
    modifies img
    ensures out' == out + [Slot(img, mode)]
    ensures next.Some? && (next.value == img || next == cur)
    ensures ClipStep(st, Entry(old(img[..]), mode, isClip)) == ClipState(Contents(out'), Some(next.value[..]))
  {
    next := cur;
    if cur.None? || !isClip {
      next := Some(img);
    }
    if isClip {
      ClipLayer(img, next.value);
    }
    out' := out + [Slot(img, mode)];
    assert out'[..|out|] == out;
  }

  /** The list the second loop has built from the first-pass buffers `imgs`:
      each present buffer with its layer's blend mode, in order. */
  function Listed(imgs: seq<Option<array<Px>>>, ls: seq<LayerData>): (out: seq<Slot>)
    requires |imgs| == |ls|
    decreases |imgs|
  {
    if imgs == [] then []
    else
      var m := |imgs| - 1;
      Listed(imgs[..m], ls[..m]) + (if imgs[m].Some? then [Slot(imgs[m].value, ls[m].mode)] else [])
  }

  /** The listed buffers are first-pass buffers, none listed twice, each of
      the common size. */
  lemma {:induction false} ListedBuffers(imgs: seq<Option<array<Px>>>, ls: seq<LayerData>,
                                         vs: seq<Option<Entry>>, n: nat)
    requires FirstPassShape(imgs, vs, n) && |ls| == |vs|
    ensures Buffers(Listed(imgs, ls)) <= BufferSet(imgs)
    ensures Distinct(Listed(imgs, ls)) && Sized(Listed(imgs, ls), n)
    decreases |imgs|
  {
    if imgs != [] {
      var m := |imgs| - 1;
      var pre := Listed(imgs[..m], ls[..m]);
      assert FirstPassShape(imgs[..m], vs[..m], n);
      ListedBuffers(imgs[..m], ls[..m], vs[..m], n);
      assert BufferSet(imgs[..m]) <= BufferSet(imgs) by {
        forall b | b in BufferSet(imgs[..m]) ensures b in BufferSet(imgs) {
          var j :| 0 <= j < m && imgs[..m][j].Some? && imgs[..m][j].value == b;
          assert imgs[j] == imgs[..m][j];
        }
      }
      if imgs[m].Some? {
        var b := imgs[m].value;
        assert b !in BufferSet(imgs[..m]) by {
          forall j | 0 <= j < m && imgs[..m][j].Some? ensures imgs[..m][j].value != b {
            assert imgs[..m][j] == imgs[j];
          }
        }
        var out := Listed(imgs, ls);
        assert out == pre + [Slot(b, ls[m].mode)];
        forall t | 0 <= t < |out| - 1 ensures out[t].img != b {
          assert out[t] == pre[t];
          assert pre[t].img in Buffers(pre);
        }
        assert b in BufferSet(imgs);
      }
    }
  }

  /** What the second loop keeps true after `i` layers: `out` lists the
      buffers of the first `i` layers and holds the clip pass's result over
      their entries, `cur` is the buffer of entry `curSrc` and holds the
      current parent image, and every later buffer is untouched. */
  ghost predicate ClipLoopInv(ls: seq<LayerData>, imgs: seq<Option<array<Px>>>, vs: seq<Option<Entry>>,
                              n: nat, i: nat, out: seq<Slot>, cur: Option<array<Px>>, curSrc: nat)
    requires FirstPassShape(imgs, vs, n) && OptSized(vs, n) && |ls| == |vs| && i <= |vs|
    reads BufferSet(imgs), Buffers(out)
  {
    assert OptSized(vs[..i], n);
    && (forall j :: i <= j < |vs| && imgs[j].Some? ==> imgs[j].value[..] == vs[j].value.img)
    && out == Listed(imgs[..i], ls[..i])
    && (cur.Some? ==> curSrc < i && imgs[curSrc] == Some(cur.value))
    && Contents(out) == Resolve(Present(vs[..i], n), n).out
    && (cur.None? <==> Resolve(Present(vs[..i], n), n).cur.None?)
    && (cur.Some? ==> cur.value[..] == Resolve(Present(vs[..i], n), n).cur.value)
  }

  /** One iteration of the second loop. */
  method VisitLayer(ls: seq<LayerData>, imgs: seq<Option<array<Px>>>, ghost vs: seq<Option<Entry>>,
                    ghost n: nat, i: nat, out: seq<Slot>, cur: Option<array<Px>>, ghost curSrc: nat)
    returns (out': seq<Slot>, cur': Option<array<Px>>, ghost curSrc': nat)
    requires FirstPassShape(imgs, vs, n) && OptSized(vs, n) && |ls| == |vs| && i < |vs|
    requires forall j :: 0 <= j < |vs| && vs[j].Some? ==>
               vs[j].value.isClip == ls[j].isClip && vs[j].value.mode == ls[j].mode
    requires ClipLoopInv(ls, imgs, vs, n, i, out, cur, curSrc)
    modifies BufferSet(imgs)
    ensures ClipLoopInv(ls, imgs, vs, n, i + 1, out', cur', curSrc')
  {
    assert imgs[..i + 1][..i] == imgs[..i] && ls[..i + 1][..i] == ls[..i];
    if imgs[i].None? {
      assert vs[..i + 1][..i] == vs[..i];
      assert OptSized(vs[..i + 1], n);
      assert vs[i].None?;
      assert Present(vs[..i + 1], n) == Present(vs[..i], n);
      return out, cur, curSrc;
    }
    out', cur', curSrc' := VisitPresent(ls, imgs, vs, n, i, out, cur, curSrc);
  }

  /** One iteration of the second loop on a layer that survived the first. */
  method VisitPresent(ls: seq<LayerData>, imgs: seq<Option<array<Px>>>, ghost vs: seq<Option<Entry>>,
                      ghost n: nat, i: nat, out: seq<Slot>, cur: Option<array<Px>>, ghost curSrc: nat)
    returns (out': seq<Slot>, cur': Option<array<Px>>, ghost curSrc': nat)
    requires FirstPassShape(imgs, vs, n) && OptSized(vs, n) && |ls| == |vs| && i < |vs|
    requires imgs[i].Some?
    requires forall j :: 0 <= j < |vs| && vs[j].Some? ==>
               vs[j].value.isClip == ls[j].isClip && vs[j].value.mode == ls[j].mode
    requires ClipLoopInv(ls, imgs, vs, n, i, out, cur, curSrc)
    modifies imgs[i].value
    ensures ClipLoopInv(ls, imgs, vs, n, i + 1, out', cur', curSrc')
  {
    var img := imgs[i].value;
    ghost var es := Present(vs[..i], n);
    ghost var e := vs[i].value;
    PresentStep(vs, i, n);
    NotYetListed(imgs, ls, vs, n, i);
    var next;
    out', next := ClipInto(out, img, cur, ls[i].isClip, ls[i].mode, Resolve(es, n));
    curSrc' := if next != cur then i else curSrc;
    cur' := next;
    ClipLoopAfter(ls, imgs, vs, n, i, out, cur, curSrc, out', next, curSrc');
  }

  /** The invariant after a present entry, from the facts the iteration
      establishes: the list grew by the entry's buffer, the entries still to
      come are untouched, and the buffers hold the next clip state. */
  lemma ClipLoopAfter(ls: seq<LayerData>, imgs: seq<Option<array<Px>>>, vs: seq<Option<Entry>>,
                      n: nat, i: nat, out: seq<Slot>, cur: Option<array<Px>>, curSrc: nat,
                      out': seq<Slot>, next: Option<array<Px>>, curSrc': nat)
    requires FirstPassShape(imgs, vs, n) && OptSized(vs, n) && |ls| == |vs| && i < |vs|
    requires imgs[i].Some? && OptSized(vs[..i], n) && OptSized(vs[..i + 1], n)
    requires out == Listed(imgs[..i], ls[..i])
    requires cur.Some? ==> curSrc < i && imgs[curSrc] == Some(cur.value)
    requires out' == out + [Slot(imgs[i].value, ls[i].mode)]
    requires next.Some? && (next.value == imgs[i].value || next == cur)
    requires curSrc' == if next != cur then i else curSrc
    requires forall j :: i + 1 <= j < |vs| && imgs[j].Some? ==> imgs[j].value[..] == vs[j].value.img
    requires Resolve(Present(vs[..i + 1], n), n) == ClipState(Contents(out'), Some(next.value[..]))
    ensures ClipLoopInv(ls, imgs, vs, n, i + 1, out', next, curSrc')
  {
    assert imgs[..i + 1][..i] == imgs[..i] && ls[..i + 1][..i] == ls[..i];
  }

  /** The buffer of entry `i` is not among those listed before it. */
  lemma NotYetListed(imgs: seq<Option<array<Px>>>, ls: seq<LayerData>, vs: seq<Option<Entry>>, n: nat, i: nat)
    requires FirstPassShape(imgs, vs, n) && |ls| == |vs| && i < |vs| && imgs[i].Some?
    ensures imgs[i].value !in Buffers(Listed(imgs[..i], ls[..i]))
  {
    assert FirstPassShape(imgs[..i], vs[..i], n);
    ListedBuffers(imgs[..i], ls[..i], vs[..i], n);
    forall j | 0 <= j < i && imgs[..i][j].Some? ensures imgs[..i][j].value != imgs[i].value {
      assert imgs[..i][j] == imgs[j];
    }
  }

  /** One more present entry extends the clip pass by one `ClipStep`. */
  lemma PresentStep(vs: seq<Option<Entry>>, i: nat, n: nat)
    requires OptSized(vs, n) && i < |vs| && vs[i].Some?
    ensures OptSized(vs[..i], n) && OptSized(vs[..i + 1], n)
    ensures Present(vs[..i + 1], n) == Present(vs[..i], n) + [vs[i].value]
    ensures |vs[i].value.img| == n
    ensures Resolve(Present(vs[..i + 1], n), n) == ClipStep(Resolve(Present(vs[..i], n), n), vs[i].value)
  {
    assert vs[..i + 1][..i] == vs[..i];
    assert OptSized(vs[..i], n) && OptSized(vs[..i + 1], n);
    var es := Present(vs[..i], n);
    assert (es + [vs[i].value])[..|es|] == es;
  }

  /** The second loop of `pil2tensor`, in place on the first pass's buffers:
      the list it builds holds the clip pass's result, in buffers of the first
      pass, none shared. */
  method ResolveClips(ls: seq<LayerData>, imgs: seq<Option<array<Px>>>, ghost vs: seq<Option<Entry>>,
                      ghost n: nat)
    returns (out: seq<Slot>)
    requires FirstPassShape(imgs, vs, n) && OptSized(vs, n) && |ls| == |vs|
    requires forall j :: 0 <= j < |vs| && vs[j].Some? ==>
               vs[j].value.isClip == ls[j].isClip && vs[j].value.mode == ls[j].mode
    requires forall j :: 0 <= j < |vs| && imgs[j].Some? ==> imgs[j].value[..] == vs[j].value.img
    modifies BufferSet(imgs)
    ensures Distinct(out) && Sized(out, n) && Buffers(out) <= BufferSet(imgs)
    ensures Contents(out) == Resolve(Present(vs, n), n).out
  {
    out := [];
    var cur: Option<array<Px>> := None;
    ghost var curSrc: nat := 0;
    var i := 0;
    ClipLoopStart(ls, imgs, vs, n);
    while i < |imgs|
      invariant 0 <= i <= |imgs|
      invariant ClipLoopInv(ls, imgs, vs, n, i, out, cur, curSrc)
    {
      out, cur, curSrc := VisitLayer(ls, imgs, vs, n, i, out, cur, curSrc);
      i := i + 1;
    }
    ClipLoopDone(ls, imgs, vs, n, out, cur, curSrc);
  }

  lemma ClipLoopStart(ls: seq<LayerData>, imgs: seq<Option<array<Px>>>, vs: seq<Option<Entry>>, n: nat)
    requires FirstPassShape(imgs, vs, n) && OptSized(vs, n) && |ls| == |vs|
    requires forall j :: 0 <= j < |vs| && imgs[j].Some? ==> imgs[j].value[..] == vs[j].value.img
    ensures ClipLoopInv(ls, imgs, vs, n, 0, [], None, 0)
  {
    assert vs[..0] == [] && imgs[..0] == [] && ls[..0] == [];
  }

  /** After the last layer the loop's list is the whole clip pass. */
  lemma ClipLoopDone(ls: seq<LayerData>, imgs: seq<Option<array<Px>>>, vs: seq<Option<Entry>>, n: nat,
                     out: seq<Slot>, cur: Option<array<Px>>, curSrc: nat)
    requires FirstPassShape(imgs, vs, n) && OptSized(vs, n) && |ls| == |vs|
    requires ClipLoopInv(ls, imgs, vs, n, |vs|, out, cur, curSrc)
    ensures Distinct(out) && Sized(out, n) && Buffers(out) <= BufferSet(imgs)
    ensures Contents(out) == Resolve(Present(vs, n), n).out
  {
    assert vs[..|vs|] == vs && imgs[..|imgs|] == imgs && ls[..|ls|] == ls;
    ListedBuffers(imgs, ls, vs, n);
  }

  /** The call `layer_tensor_filter(layer_tensors, preview)` on the buffers:
      the filter's result on their values, held in some of the same buffers. */
  method FilterBuffers(filter: PostFilter, out: seq<Slot>, previewPx: seq<Px>, ghost n: nat,
                       ghost ts: seq<Tensor>)
    returns (filtered: Result<seq<Slot>>)
    requires Distinct(out) && Sized(out, n) && (|out| > 0 ==> n > 0)
    requires filter == DropFullPostFilter ==> |previewPx| > 0
    requires ts == Contents(out)
    ensures NonEmptyImages(ts)
    ensures filtered.Err? ==> ApplyFilter(filter, ts, previewPx) == Err(filtered.error)
    ensures filtered.Ok? ==> && ApplyFilter(filter, ts, previewPx) == Ok(Contents(filtered.value))
                             && Distinct(filtered.value) && Sized(filtered.value, n)
                             && Buffers(filtered.value) <= Buffers(out)
  {
    match filter {
      case DefaultPostFilter =>
        filtered := Ok(out);
      case DropFullPostFilter =>
        filtered := DropFullPostFilterOf(out, previewPx);
        if |out| > 0 {
          SelectedBuffers(out, KeepFlags(ts, MeanAlpha(previewPx)), n);
        }
    }
  }

  /** A selection of distinct, equally sized buffers: distinct, of the same size,
      among the input's buffers, holding the selection of the input's values. */
  lemma SelectedBuffers(out: seq<Slot>, keep: seq<bool>, n: nat)
    requires |keep| == |out| && Distinct(out) && Sized(out, n)
    ensures var sel := Select(out, keep);
      && Contents(sel) == Select(Contents(out), keep)
      && Distinct(sel) && Sized(sel, n) && Buffers(sel) <= Buffers(out)
  {
    SelectContents(out, keep);
    SelectDistinct(out, keep);
    SelectSpec(out, keep);
  }

  /** All images the size of the first. */
  predicate SameShape(ts: seq<Tensor>)
  {
    ts != [] ==> TensorsSized(ts, |ts[0].img|)
  }

  /** The `remove_occluded` step on values: `layer_tensors[0]` fails on an
      empty list. */
  function OcclusionStep(kept: seq<Tensor>, removeOccluded: bool): Result<seq<Tensor>>
    requires SameShape(kept)
  {
    if !removeOccluded then Ok(kept)
    else if kept == [] then Err(EmptyLayerList)
    else Ok(Occlude(kept, NoMask(|kept[0].img|)))
  }

  /** The `remove_occluded` step on the buffers, in place. */
  method OccludeBuffers(lt: seq<Slot>, removeOccluded: bool) returns (r: Result<seq<Slot>>)
    requires Distinct(lt) && (lt != [] ==> Sized(lt, lt[0].img.Length))
    modifies Buffers(lt)
    ensures SameShape(old(Contents(lt)))
    ensures r.Err? ==> OcclusionStep(old(Contents(lt)), removeOccluded) == Err(r.error)
    ensures r.Ok? ==> r.value == lt && OcclusionStep(old(Contents(lt)), removeOccluded) == Ok(Contents(lt))
  {
    if removeOccluded {
      if |lt| == 0 {
        return Err(EmptyLayerList);
      }
      RemoveOccluded(lt);
    }
    r := Ok(lt);
  }

  /** The two loops of `pil2tensor`: fresh, distinct buffers holding the clip
      pass's result on the surviving layers. */
  method LayerTensors(ls: seq<LayerData>, ghost n: nat) returns (out: seq<Slot>)
    requires SameSize(ls, n)
    ensures Distinct(out) && Sized(out, n) && (|out| > 0 ==> n > 0)
    ensures forall b :: b in Buffers(out) ==> fresh(b)
    ensures Contents(out) == Resolve(Kept(ls, n), n).out
  {
    var imgs := NormalizeLayers(ls, n);
    PresentIsKept(ls, n);
    out := ResolveClips(ls, imgs, FirstPass(ls), n);
    assert forall b :: b in Buffers(out) ==> fresh(b) by {
      forall b | b in Buffers(out) ensures fresh(b) {
        assert b in BufferSet(imgs);
      }
    }
    assert |out| > 0 ==> n > 0 by {
      if |out| > 0 { assert Kept(ls, n) != []; }
    }
  }

  /** `Assemble` is the filter's outcome followed by the occlusion step. */
  lemma AssembleFiltered(ls: seq<LayerData>, preview: seq<Rgba8>, filter: PostFilter,
                         removeOccluded: bool, n: nat, ts: seq<Tensor>)
    requires SameSize(ls, n) && (filter == DropFullPostFilter ==> |preview| > 0)
    requires ts == Resolve(Kept(ls, n), n).out
    ensures NonEmptyImages(ts)
    ensures ApplyFilter(filter, ts, FloatImage(preview)).Err? ==>
      Assemble(ls, preview, filter, removeOccluded, n) == Err(ApplyFilter(filter, ts, FloatImage(preview)).error)
    ensures ApplyFilter(filter, ts, FloatImage(preview)).Ok? ==>
      var kept := ApplyFilter(filter, ts, FloatImage(preview)).value;
      SameShape(kept) ==> Assemble(ls, preview, filter, removeOccluded, n) == OcclusionStep(kept, removeOccluded)
  {
  }

  /** The two loops of `pil2tensor` and its filter call: the filter's outcome
      on the clip pass's list, held in fresh, distinct buffers. */
  method FilteredLayers(ls: seq<LayerData>, previewPx: seq<Px>, filter: PostFilter, ghost n: nat)
    returns (filtered: Result<seq<Slot>>, ghost pool: set<array<Px>>)
    requires SameSize(ls, n)
    requires filter == DropFullPostFilter ==> |previewPx| > 0
    ensures forall b :: b in pool ==> fresh(b)
    ensures var ts := Resolve(Kept(ls, n), n).out;
      && NonEmptyImages(ts)
      && (filtered.Err? ==> ApplyFilter(filter, ts, previewPx) == Err(filtered.error))
      && (filtered.Ok? ==> && Distinct(filtered.value) && Sized(filtered.value, n)
                           && Buffers(filtered.value) <= pool
                           && ApplyFilter(filter, ts, previewPx) == Ok(Contents(filtered.value)))
  {
    var out := LayerTensors(ls, n);
    pool := Buffers(out);
    filtered := FilterBuffers(filter, out, previewPx, n, Resolve(Kept(ls, n), n).out);
  }

  /** `pil2tensor`: the buffers it returns are fresh, distinct, of the common
      size, and hold exactly `Assemble`'s layers; it fails exactly when
      `Assemble` does, with the same error. The float preview is returned too. */
  method Pil2Tensor(ls: seq<LayerData>, preview: seq<Rgba8>, filter: PostFilter,
                    removeOccluded: bool, ghost n: nat)
    returns (r: Result<seq<Slot>>, previewPx: seq<Px>)
    requires SameSize(ls, n)
    requires filter == DropFullPostFilter ==> |preview| > 0
    ensures previewPx == FloatImage(preview)
    ensures r.Err? ==> Assemble(ls, preview, filter, removeOccluded, n) == Err(r.error)
    ensures r.Ok? ==> && Distinct(r.value) && Sized(r.value, n)
                      && (forall k :: 0 <= k < |r.value| ==> fresh(r.value[k].img))
                      && Assemble(ls, preview, filter, removeOccluded, n) == Ok(Contents(r.value))
  {
    previewPx := FloatImage(preview);
    var filtered, pool := FilteredLayers(ls, previewPx, filter, n);
    AssembleFiltered(ls, preview, filter, removeOccluded, n, Resolve(Kept(ls, n), n).out);
    if filtered.Err? {
      return Err(filtered.error), previewPx;
    }
    var lt := filtered.value;
    assert forall k :: 0 <= k < |lt| ==> fresh(lt[k].img) by {
      forall k | 0 <= k < |lt| ensures fresh(lt[k].img) {
        assert lt[k].img in Buffers(lt) && lt[k].img in pool;
      }
    }
    r := OccludeBuffers(lt, removeOccluded);
  }
}
